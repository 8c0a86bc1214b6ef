/** `truncate_excerpt`: cutting a redacted record to a byte cap without splitting a character. */
module Excerpt {
  import opened Text

  datatype Outcome = Text(text: Str) | CapNotPositive | NotEncodable

  function Truncate(record: Str, cap: int, marker: Str): (r: Outcome)
    ensures r.CapNotPositive? <==> cap <= 0
    ensures r.NotEncodable? <==> cap > 0 && (!Encodable(record) || (|Encode(record)| > cap && !Encodable(marker)))
  {
    if cap <= 0 then CapNotPositive
    else if !Encodable(record) then NotEncodable
    else
      var encoded := Encode(record);
      if |encoded| <= cap then Outcome.Text(record)
      else if !Encodable(marker) then NotEncodable
      else
        var markerBytes := Encode(marker);
        if |markerBytes| >= cap then Outcome.Text(DecodeIgnore(markerBytes[..cap]))
        else Outcome.Text(DecodeIgnore(encoded[..cap - |markerBytes|]) + marker)
  }

  lemma {:induction false} PrefixEncodable(p: Str, s: Str)
    requires Encodable(s) && p <= s
    ensures Encodable(p)
  {
  }

  /** A fitting record is unchanged; a longer one becomes its longest prefix that leaves room for the marker, then the marker. */
  lemma {:induction false} TruncateIsLongest(record: Str, cap: int, marker: Str)
    requires cap > 0 && Encodable(record) && (|Encode(record)| > cap ==> Encodable(marker))
    ensures var t := Truncate(record, cap, marker);
            && t.Text? && Encodable(t.text) && |Encode(t.text)| <= cap
            && (|Encode(record)| <= cap ==> t.text == record)
            && (|Encode(record)| > cap && |Encode(marker)| >= cap ==> LongestFitting(t.text, marker, cap))
            && (|Encode(record)| > cap && |Encode(marker)| < cap ==>
                  exists p :: LongestFitting(p, record, cap - |Encode(marker)|) && t.text == p + marker)
  {
    if |Encode(record)| > cap {
      if |Encode(marker)| >= cap {
        CutDecodesToFitting(marker, cap);
        FittingIsLongest(marker, cap);
      } else {
        var room := cap - |Encode(marker)|;
        var p := Fitting(record, room);
        CutDecodesToFitting(record, room);
        FittingIsLongest(record, room);
        PrefixEncodable(p, record);
        EncodeConcat(p, marker);
      }
    }
  }

  /** Truncating a truncated excerpt changes nothing, whatever the marker of the second call. */
  lemma {:induction false} TruncateTwice(record: Str, cap: int, marker: Str, marker': Str)
    requires cap > 0 && Encodable(record) && (|Encode(record)| > cap ==> Encodable(marker))
    ensures var t := Truncate(record, cap, marker); t.Text? && Truncate(t.text, cap, marker') == t
  {
    TruncateIsLongest(record, cap, marker);
  }
}
