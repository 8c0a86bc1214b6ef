/** The opaque pagination cursor: an object of two or four members as compact JSON, in unpadded base64url. */
module Cursor {
  import opened OrderedDicts
  import opened Text
  import Base64
  import opened Json

  const MAX_EVENT_ID := 0x1F_FFFF_FFFF_FFFF  // 2^53 - 1
  const NULL_BYTE_START := -1

  const KEY_E: Text.Str := [101]
  const KEY_R: Text.Str := [114]
  const KEY_O: Text.Str := [111]
  const KEY_B: Text.Str := [98]

  datatype Result<+T> = Ok(value: T) | CursorError

  datatype Details = Details(eventId: int, reverse: bool, observedAt: Option<Text.Str>, byteStart: Option<int>)

  predicate Accepted(d: Details) {
    && 0 < d.eventId <= MAX_EVENT_ID
    && d.observedAt.Some? == d.byteStart.Some?
    && (d.observedAt.Some? ==> d.observedAt.value != [] && d.byteStart.value >= NULL_BYTE_START)
  }

  function Members(d: Details): (ms: seq<(Text.Str, Json)>)
    requires Accepted(d)
    ensures ms != [] && Scalars(ms)
  {
    [(KEY_E, Int(d.eventId)), (KEY_R, Bool(d.reverse))] +
    (if d.observedAt.Some? then [(KEY_O, Str(d.observedAt.value)), (KEY_B, Int(d.byteStart.value))] else [])
  }

  /** `encode_cursor`. */
  function EncodeCursor(d: Details): (r: Result<Text.Str>)
    ensures r.Ok? <==> Accepted(d)
  {
    if !Accepted(d) then CursorError
    else
      var text := Dumps(Members(d));
      DumpsAscii(Members(d));
      Ok(Base64.StripPad(Base64.Encode(Text.Encode(text))))
  }

  predicate IsAscii(s: Text.Str) {
    forall i :: 0 <= i < |s| ==> s[i] < 128
  }

  predicate AllAscii(b: seq<Byte>) {
    forall i :: 0 <= i < |b| ==> b[i] < 128
  }

  function AsciiText(b: seq<Byte>): Text.Str
    requires AllAscii(b)
  {
    if b == [] then [] else [b[0] as int as CodePoint] + AsciiText(b[1..])
  }

  /** `dict.get` on parsed members: the last of equal keys wins. */
  function Get(ms: seq<(Text.Str, Json)>, k: Text.Str): Option<Json> {
    if ms == [] then None
    else if ms[|ms| - 1].0 == k then Some(ms[|ms| - 1].1)
    else Get(ms[..|ms| - 1], k)
  }

  function GetOrNull(ms: seq<(Text.Str, Json)>, k: Text.Str): Json {
    if Get(ms, k).Some? then Get(ms, k).value else Null
  }

  function DecodePayload(token: Text.Str): Result<seq<(Text.Str, Json)>> {
    if token == [] || !IsAscii(token) then CursorError
    else
      var raw := Base64.Decode(Base64.Restored(token));
      if raw.None? || !AllAscii(raw.value) then CursorError
      else
        var obj := Loads(AsciiText(raw.value));
        if obj.Some? && obj.value.Obj? then Ok(obj.value.members) else CursorError
  }

  function DecodeMembers(ms: seq<(Text.Str, Json)>): Result<Details> {
    var e, r := GetOrNull(ms, KEY_E), GetOrNull(ms, KEY_R);
    if !e.Int? || e.n <= 0 || e.n > MAX_EVENT_ID || !r.Bool? then CursorError
    else
      var o, b := GetOrNull(ms, KEY_O), GetOrNull(ms, KEY_B);
      if o.Null? && b.Null? then Ok(Details(e.n, r.b, None, None))
      else if !o.Str? || o.s == [] || !b.Int? || b.n < NULL_BYTE_START then CursorError
      else Ok(Details(e.n, r.b, Some(o.s), Some(b.n)))
  }

  /** `_decode_cursor_details`. */
  function DecodeCursor(token: Text.Str): (r: Result<Details>)
    ensures r.Ok? ==> Accepted(r.value)
  {
    var ms := DecodePayload(token);
    if ms.CursorError? then CursorError else DecodeMembers(ms.value)
  }

  // The payload is ASCII

  lemma {:induction false} AsciiConcat(a: Text.Str, b: Text.Str)
    requires IsAscii(a) && IsAscii(b)
    ensures IsAscii(a + b)
  {
  }

  lemma {:induction false} EscapeCharAscii(c: CodePoint)
    ensures IsAscii(EscapeChar(c))
  {
    if c >= 0x10000 {
      AsciiConcat(EscapeUnit(HighHalf(c)), EscapeUnit(LowHalf(c)));
    }
  }

  lemma {:induction false} EscapeAscii(s: Text.Str)
    ensures IsAscii(Escape(s))
  {
    if s != [] {
      EscapeCharAscii(s[0]);
      EscapeAscii(s[1..]);
      AsciiConcat(EscapeChar(s[0]), Escape(s[1..]));
    }
  }

  lemma {:induction false} TailAscii(s: Text.Str, rest: Text.Str)
    requires IsAscii(rest)
    ensures IsAscii(Tail(s, rest))
  {
    EscapeAscii(s);
    AsciiConcat(Escape(s), [QUOTE] + rest);
  }

  lemma {:induction false} DecimalAscii(n: nat)
    ensures IsAscii(Decimal(n))
  {
    assert forall i :: 0 <= i < |Decimal(n)| ==> IsDigit(Decimal(n)[i]);
  }

  lemma {:induction false} ScalarAscii(v: Json)
    requires IsScalar(v)
    ensures IsAscii(ScalarText(v))
  {
    if v.Int? {
      DecimalAscii(if v.n < 0 then -v.n else v.n);
    } else if v.Str? {
      EscapeAscii(v.s);
      AsciiConcat([QUOTE], Escape(v.s));
      AsciiConcat([QUOTE] + Escape(v.s), [QUOTE]);
    }
  }

  lemma {:induction false} MembersAscii(ms: seq<(Text.Str, Json)>)
    requires ms != [] && Scalars(ms)
    ensures IsAscii(MembersText(ms, []))
    decreases |ms|
  {
    var after := AfterMember(ms, []);
    if |ms| > 1 {
      MembersAscii(ms[1..]);
      AsciiConcat([COMMA], MembersText(ms[1..], []));
    }
    ScalarAscii(ms[0].1);
    AsciiConcat(ScalarText(ms[0].1), after);
    AsciiConcat([COLON], ScalarText(ms[0].1) + after);
    TailAscii(ms[0].0, [COLON] + (ScalarText(ms[0].1) + after));
    AsciiConcat([QUOTE], Tail(ms[0].0, [COLON] + (ScalarText(ms[0].1) + after)));
  }

  lemma {:induction false} DumpsAscii(ms: seq<(Text.Str, Json)>)
    requires ms != [] && Scalars(ms)
    ensures IsAscii(Dumps(ms)) && Encodable(Dumps(ms))
  {
    MembersAscii(ms);
    AsciiConcat([OPEN_BRACE], MembersText(ms, []));
  }

  /** On ASCII, UTF-8 is the identity. */
  lemma {:induction false} AsciiRoundTrip(s: Text.Str)
    requires IsAscii(s) && Encodable(s)
    ensures AllAscii(Text.Encode(s)) && AsciiText(Text.Encode(s)) == s
    ensures s != [] ==> Text.Encode(s) != []
  {
    if s != [] {
      AsciiRoundTrip(s[1..]);
      var rest := Text.Encode(s[1..]);
      assert Text.Encode(s) == [s[0] as int as Byte] + rest;
      assert Text.Encode(s)[1..] == rest;
      assert s == [s[0]] + s[1..];
    }
  }

  // Round trip

  function Merged(d: Details): Details {
    if d.observedAt.Some? then d.(observedAt := Some(MergePairs(d.observedAt.value))) else d
  }

  lemma {:induction false} PayloadRoundTrip(d: Details)
    requires Accepted(d)
    ensures DecodePayload(EncodeCursor(d).value) == Ok(MergedMembers(Members(d)))
  {
    var text := Dumps(Members(d));
    DumpsAscii(Members(d));
    AsciiRoundTrip(text);
    var b := Text.Encode(text);
    Base64.PaddingRestored(b);
    Base64.DecodeEncode(b);
    LoadsDumps(Members(d));
    var token := Base64.StripPad(Base64.Encode(b));
    assert forall i :: 0 <= i < |token| ==> token[i] in token;
  }

  lemma {:induction false} GetLast(ms: seq<(Text.Str, Json)>, k: Text.Str, j: Text.Str, v: Json)
    ensures Get(ms + [(j, v)], k) == if j == k then Some(v) else Get(ms, k)
  {
    assert (ms + [(j, v)])[..|ms|] == ms;
  }

  lemma {:induction false} MergedOne(a: (Text.Str, Json))
    requires |a.0| == 1
    ensures MergedMembers([a]) == [(a.0, MergedValue(a.1))]
  {
    assert MergePairs(a.0) == a.0 by { MergeChangesIff(a.0); }
    assert [a][1..] == [];
    assert MergedMembers([a]) == [(a.0, MergedValue(a.1))] + [];
  }

  lemma {:induction false} MergedTwo(a: (Text.Str, Json), b: (Text.Str, Json))
    requires |a.0| == 1 && |b.0| == 1
    ensures MergedMembers([a, b]) == [(a.0, MergedValue(a.1)), (b.0, MergedValue(b.1))]
  {
    MergedOne(a);
    MergedOne(b);
    MergedConcat([a], [b]);
    assert [a] + [b] == [a, b];
  }

  lemma {:induction false} MergedConcat(ms: seq<(Text.Str, Json)>, ns: seq<(Text.Str, Json)>)
    ensures MergedMembers(ms + ns) == MergedMembers(ms) + MergedMembers(ns)
  {
    if ms == [] {
      assert ms + ns == ns;
    } else {
      assert (ms + ns)[1..] == ms[1..] + ns;
      MergedConcat(ms[1..], ns);
    }
  }

  lemma {:induction false} MembersRead(d: Details)
    requires Accepted(d)
    ensures DecodeMembers(MergedMembers(Members(d))) == Ok(Merged(d))
  {
    var e, r := Int(d.eventId), Bool(d.reverse);
    MergedTwo((KEY_E, e), (KEY_R, r));
    var base := [(KEY_E, e), (KEY_R, r)];
    assert base == [(KEY_E, e)] + [(KEY_R, r)] && [(KEY_E, e)] == [] + [(KEY_E, e)];
    forall k: Text.Str
      ensures Get(base, k) == if k == KEY_R then Some(r) else if k == KEY_E then Some(e) else None
    {
      GetLast([(KEY_E, e)], k, KEY_R, r);
      GetLast([], k, KEY_E, e);
    }
    if d.observedAt.None? {
      assert Members(d) == base;
    } else {
      var o, b := Str(MergePairs(d.observedAt.value)), Int(d.byteStart.value);
      MergedTwo((KEY_O, Str(d.observedAt.value)), (KEY_B, b));
      MergedConcat(base, [(KEY_O, Str(d.observedAt.value)), (KEY_B, b)]);
      var ms := MergedMembers(Members(d));
      assert ms == (base + [(KEY_O, o)]) + [(KEY_B, b)];
      forall k: Text.Str
        ensures Get(ms, k) == if k == KEY_B then Some(b) else if k == KEY_O then Some(o) else Get(base, k)
      {
        GetLast(base + [(KEY_O, o)], k, KEY_B, b);
        GetLast(base, k, KEY_O, o);
      }
    }
  }

  /** Decoding an encoded cursor gives its values back with the surrogate pairs of the timestamp merged. */
  lemma {:induction false} DecodeEncoded(d: Details)
    requires Accepted(d)
    ensures DecodeCursor(EncodeCursor(d).value) == Ok(Merged(d))
  {
    PayloadRoundTrip(d);
    MembersRead(d);
  }

  /** The round trip is exact if and only if the timestamp holds no surrogate pair written as two code points. */
  lemma {:induction false} RoundTripIff(d: Details)
    requires Accepted(d)
    ensures DecodeCursor(EncodeCursor(d).value) == Ok(d) <==> (d.observedAt.None? || !HasSplitPair(d.observedAt.value))
  {
    DecodeEncoded(d);
    if d.observedAt.Some? {
      MergeChangesIff(d.observedAt.value);
    }
  }

  lemma {:induction false} EscapeJoined(h: CodePoint, l: CodePoint)
    requires HighSurrogate(h) && LowSurrogate(l)
    ensures EscapeChar(JoinSurrogates(h, l)) == EscapeChar(h) + EscapeChar(l)
  {
    var c := JoinSurrogates(h, l);
    assert HighHalf(c) == h && LowHalf(c) == l;
  }

  /** Merging does not change the text a string is written as. */
  lemma {:induction false} EscapeMerged(s: Text.Str)
    ensures Escape(MergePairs(s)) == Escape(s)
  {
    if s != [] {
      var m := MergePairs(s);
      if |s| >= 2 && HighSurrogate(s[0]) && LowSurrogate(s[1]) {
        EscapeJoined(s[0], s[1]);
        EscapeMerged(s[2..]);
        assert m[1..] == MergePairs(s[2..]) && s[1..][1..] == s[2..];
        Concat3(EscapeChar(s[0]), EscapeChar(s[1]), Escape(s[2..]));
      } else {
        EscapeMerged(s[1..]);
        assert m[1..] == MergePairs(s[1..]);
      }
    }
  }

  lemma {:induction false} MergedText(d: Details)
    requires Accepted(d)
    ensures Accepted(Merged(d)) && Dumps(Members(Merged(d))) == Dumps(Members(d))
  {
    if d.observedAt.Some? {
      var s := d.observedAt.value;
      EscapeMerged(s);
      var ms, ms' := Members(d), Members(Merged(d));
      assert ms'[..2] == ms[..2] && ms[3..] == ms'[3..];
      assert ms[1..][1..] == ms[2..] && ms'[1..][1..] == ms'[2..] && ms[2..][1..] == ms[3..] && ms'[2..][1..] == ms'[3..];
      assert ms[1..][0] == ms'[1..][0];
      assert AfterMember(ms[2..], []) == AfterMember(ms'[2..], []);
      assert MembersText(ms[2..], []) == MembersText(ms'[2..], []);
      assert AfterMember(ms[1..], []) == AfterMember(ms'[1..], []);
      assert MembersText(ms[1..], []) == MembersText(ms'[1..], []);
      assert AfterMember(ms, []) == AfterMember(ms', []);
    }
  }

  /** Two cursors share a token exactly when they differ in nothing but merged surrogate pairs. */
  lemma {:induction false} SameTokenIff(d: Details, d': Details)
    requires Accepted(d) && Accepted(d')
    ensures EncodeCursor(d) == EncodeCursor(d') <==> Merged(d) == Merged(d')
  {
    DecodeEncoded(d);
    DecodeEncoded(d');
    MergedText(d);
    MergedText(d');
  }
}
