/**
Base64 with the URL-safe alphabet (section 5 of RFC 4648) as Python's `base64` module computes it:
`urlsafe_b64encode`, and the lenient decoder behind `urlsafe_b64decode`.
*/
module Base64 {
  import opened OrderedDicts
  import opened Text

  const PAD: CodePoint := 61

  type Sextet = v: int | 0 <= v < 64

  function Digit(v: Sextet): (c: CodePoint)
    ensures c != PAD && c < 128
    ensures Value(c) == Some(v)
  {
    if v < 26 then (65 + v) as CodePoint
    else if v < 52 then (97 + (v - 26)) as CodePoint
    else if v < 62 then (48 + (v - 52)) as CodePoint
    else if v == 62 then 45 else 95
  }

  /** The value of a token character; the two standard-alphabet characters are accepted as well. */
  function Value(c: CodePoint): Option<Sextet> {
    if 65 <= c <= 90 then Some(c as int - 65)
    else if 97 <= c <= 122 then Some(c as int - 97 + 26)
    else if 48 <= c <= 57 then Some(c as int - 48 + 52)
    else if c == 45 || c == 43 then Some(62)
    else if c == 95 || c == 47 then Some(63)
    else None
  }

  predicate IsDigits(t: Str) {
    forall i :: 0 <= i < |t| ==> t[i] != PAD && t[i] < 128
  }

  /** The digits of a group of one, two or three bytes. */
  function Group1(x: Byte): (t: Str)
    ensures |t| == 2 && IsDigits(t)
  {
    [Digit(x as int / 4), Digit(x as int % 4 * 16)]
  }

  function Group2(x: Byte, y: Byte): (t: Str)
    ensures |t| == 3 && IsDigits(t)
  {
    [Digit(x as int / 4), Digit(x as int % 4 * 16 + y as int / 16), Digit(y as int % 16 * 4)]
  }

  function Group3(x: Byte, y: Byte, z: Byte): (t: Str)
    ensures |t| == 4 && IsDigits(t)
  {
    [Digit(x as int / 4), Digit(x as int % 4 * 16 + y as int / 16), Digit(y as int % 16 * 4 + z as int / 64), Digit(z as int % 64)]
  }

  /** `base64.urlsafe_b64encode`. */
  function Encode(b: seq<Byte>): (t: Str) {
    if b == [] then []
    else if |b| == 1 then Group1(b[0]) + [PAD, PAD]
    else if |b| == 2 then Group2(b[0], b[1]) + [PAD]
    else Group3(b[0], b[1], b[2]) + Encode(b[3..])
  }

  /** `rstrip(b"=")`. */
  function StripPad(t: Str): Str {
    if t != [] && t[|t| - 1] == PAD then StripPad(t[..|t| - 1]) else t
  }

  function Pads(n: nat): (t: Str)
    ensures |t| == n && forall i :: 0 <= i < n ==> t[i] == PAD
  {
    if n == 0 then [] else [PAD] + Pads(n - 1)
  }

  /** The padding the decoder puts back: as many signs as complete a multiple of four. */
  function Restored(t: Str): Str {
    t + Pads((4 - |t| % 4) % 4)
  }

  /**
  The lenient decoder: other characters are skipped, padding ends the data once a group is complete.
  `pos` characters of the current group were read, `left` holds the bits not yet written.
  */
  function DecodeFrom(t: Str, pos: nat, left: nat, pads: nat): Option<seq<Byte>>
    requires pos < 4 && (pos == 1 ==> left < 64) && (pos == 2 ==> left < 16) && (pos == 3 ==> left < 4)
  {
    if t == [] then if pos == 0 then Some([]) else None
    else if t[0] == PAD then
      if pos >= 2 && pos + pads + 1 >= 4 then Some([])
      else DecodeFrom(t[1..], pos, left, if pos >= 2 then pads + 1 else pads)
    else if Value(t[0]).None? then DecodeFrom(t[1..], pos, left, pads)
    else
      var v := Value(t[0]).value;
      match pos
      case 0 => DecodeFrom(t[1..], 1, v, 0)
      case 1 => Emit((left * 4 + v / 16) as Byte, DecodeFrom(t[1..], 2, v % 16, 0))
      case 2 => Emit((left * 16 + v / 4) as Byte, DecodeFrom(t[1..], 3, v % 4, 0))
      case _ => Emit((left * 64 + v) as Byte, DecodeFrom(t[1..], 0, 0, 0))
  }

  function Emit(b: Byte, rest: Option<seq<Byte>>): Option<seq<Byte>> {
    if rest.None? then None else Some([b] + rest.value)
  }

  /** `base64.urlsafe_b64decode`. */
  function Decode(t: Str): Option<seq<Byte>> {
    DecodeFrom(t, 0, 0, 0)
  }

  /** The padding signs of an encoding are exactly its tail, as many as complete a multiple of four. */
  lemma {:induction false} EncodeShape(b: seq<Byte>) returns (digits: Str)
    ensures IsDigits(digits) && (b != [] ==> digits != [])
    ensures Encode(b) == Restored(digits)
  {
    if |b| == 0 {
      digits := [];
    } else if |b| == 1 {
      digits := Group1(b[0]);
      assert Pads(2) == [PAD, PAD];
    } else if |b| == 2 {
      digits := Group2(b[0], b[1]);
      assert Pads(1) == [PAD];
    } else {
      var d := EncodeShape(b[3..]);
      digits := Group3(b[0], b[1], b[2]) + d;
      RestoredConcat(Group3(b[0], b[1], b[2]), d);
    }
  }

  lemma {:induction false} RestoredConcat(g: Str, d: Str)
    requires |g| == 4
    ensures g + Restored(d) == Restored(g + d)
  {
  }

  lemma {:induction false} StripPads(digits: Str, n: nat)
    requires IsDigits(digits)
    ensures StripPad(digits + Pads(n)) == digits
  {
    if n == 0 {
      assert digits + Pads(n) == digits;
    } else {
      assert (digits + Pads(n))[..|digits| + n - 1] == digits + Pads(n - 1);
      StripPads(digits, n - 1);
    }
  }

  /** Padding stripped from an encoding is restored exactly, for every number of bytes. */
  lemma {:induction false} PaddingRestored(b: seq<Byte>)
    ensures Restored(StripPad(Encode(b))) == Encode(b)
    ensures forall c :: c in StripPad(Encode(b)) ==> c < 128
    ensures b != [] ==> StripPad(Encode(b)) != []
  {
    var digits := EncodeShape(b);
    StripPads(digits, (4 - |digits| % 4) % 4);
  }

  lemma {:induction false} DecodeDigit(v: Sextet, t: Str, pos: nat, left: nat)
    requires pos < 4 && (pos == 1 ==> left < 64) && (pos == 2 ==> left < 16) && (pos == 3 ==> left < 4)
    ensures DecodeFrom([Digit(v)] + t, pos, left, 0) ==
            match pos
            case 0 => DecodeFrom(t, 1, v, 0)
            case 1 => Emit((left * 4 + v / 16) as Byte, DecodeFrom(t, 2, v % 16, 0))
            case 2 => Emit((left * 16 + v / 4) as Byte, DecodeFrom(t, 3, v % 4, 0))
            case _ => Emit((left * 64 + v) as Byte, DecodeFrom(t, 0, 0, 0))
  {
    assert ([Digit(v)] + t)[1..] == t;
  }

  /** The first two digits of any group give its first byte. */
  lemma {:induction false} DecodeFirst(x: Byte, low: nat, t: Str)
    requires low < 16
    ensures Decode([Digit(x as int / 4)] + ([Digit(x as int % 4 * 16 + low)] + t)) == Emit(x, DecodeFrom(t, 2, low, 0))
  {
    DecodeDigit(x as int / 4, [Digit(x as int % 4 * 16 + low)] + t, 0, 0);
    DecodeDigit(x as int % 4 * 16 + low, t, 1, x as int / 4);
  }

  lemma {:induction false} DecodeSecond(y: Byte, low: nat, t: Str)
    requires low < 4
    ensures DecodeFrom([Digit(y as int % 16 * 4 + low)] + t, 2, y as int / 16, 0) == Emit(y, DecodeFrom(t, 3, low, 0))
  {
    DecodeDigit(y as int % 16 * 4 + low, t, 2, y as int / 16);
  }

  lemma {:induction false} DecodeGroup1(x: Byte)
    ensures Decode(Group1(x) + [PAD, PAD]) == Some([x])
  {
    assert Group1(x) + [PAD, PAD] == [Digit(x as int / 4)] + ([Digit(x as int % 4 * 16)] + [PAD, PAD]);
    DecodeFirst(x, 0, [PAD, PAD]);
    assert [PAD, PAD][1..] == [PAD];
    assert DecodeFrom([PAD, PAD], 2, 0, 0) == DecodeFrom([PAD], 2, 0, 1) == Some([]);
    assert [x] + [] == [x];
  }

  lemma {:induction false} DecodeGroup2(x: Byte, y: Byte)
    ensures Decode(Group2(x, y) + [PAD]) == Some([x, y])
  {
    var t := [Digit(y as int % 16 * 4)] + [PAD];
    assert Group2(x, y) + [PAD] == [Digit(x as int / 4)] + ([Digit(x as int % 4 * 16 + y as int / 16)] + t);
    DecodeFirst(x, y as int / 16, t);
    DecodeSecond(y, 0, [PAD]);
    assert DecodeFrom([PAD], 3, 0, 0) == Some([]);
    assert [y] + [] == [y] && [x] + [y] == [x, y];
  }

  lemma {:induction false} DecodeGroup3(x: Byte, y: Byte, z: Byte, t: Str)
    ensures Decode(Group3(x, y, z) + t) == Emit(x, Emit(y, Emit(z, Decode(t))))
  {
    var t1 := [Digit(z as int % 64)] + t;
    var t2 := [Digit(y as int % 16 * 4 + z as int / 64)] + t1;
    assert Group3(x, y, z) + t == [Digit(x as int / 4)] + ([Digit(x as int % 4 * 16 + y as int / 16)] + t2);
    DecodeFirst(x, y as int / 16, t2);
    DecodeSecond(y, z as int / 64, t1);
    DecodeDigit(z as int % 64, t, 3, z as int / 64);
  }

  /** Decoding undoes encoding, for every sequence of bytes. */
  lemma {:induction false} DecodeEncode(b: seq<Byte>)
    ensures Decode(Encode(b)) == Some(b)
  {
    if |b| == 1 {
      DecodeGroup1(b[0]);
      assert b == [b[0]];
    } else if |b| == 2 {
      DecodeGroup2(b[0], b[1]);
      assert b == [b[0], b[1]];
    } else if |b| > 2 {
      DecodeGroup3(b[0], b[1], b[2], Encode(b[3..]));
      DecodeEncode(b[3..]);
      assert [b[0]] + ([b[1]] + ([b[2]] + b[3..])) == b;
    }
  }
}
