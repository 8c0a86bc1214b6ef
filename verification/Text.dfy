/** Python strings as sequences of code points, and their UTF-8 form (section 3 of RFC 3629). */
module Text {
  newtype Byte = b: int | 0 <= b < 256
  newtype CodePoint = c: int | 0 <= c <= 0x10FFFF
  type Str = seq<CodePoint>

  predicate HighSurrogate(c: CodePoint) {
    0xD800 <= c <= 0xDBFF
  }

  predicate LowSurrogate(c: CodePoint) {
    0xDC00 <= c <= 0xDFFF
  }

  /** A code point that UTF-8 can carry; encoding any other raises. */
  predicate Scalar(c: CodePoint) {
    !HighSurrogate(c) && !LowSurrogate(c)
  }

  predicate Encodable(s: Str) {
    forall i :: 0 <= i < |s| ==> Scalar(s[i])
  }

  function EncodeChar(c: CodePoint): (r: seq<Byte>)
    requires Scalar(c)
    ensures 1 <= |r| <= 4
  {
    var n := c as int;
    if n < 0x80 then [n as Byte]
    else if n < 0x800 then [(0xC0 + n / 64) as Byte, (0x80 + n % 64) as Byte]
    else if n < 0x10000 then [(0xE0 + n / 4096) as Byte, (0x80 + n / 64 % 64) as Byte, (0x80 + n % 64) as Byte]
    else [(0xF0 + n / 262144) as Byte, (0x80 + n / 4096 % 64) as Byte, (0x80 + n / 64 % 64) as Byte, (0x80 + n % 64) as Byte]
  }

  function Encode(s: Str): (r: seq<Byte>)
    requires Encodable(s)
  {
    if s == [] then [] else EncodeChar(s[0]) + Encode(s[1..])
  }

  predicate Continuation(b: Byte) {
    0x80 <= b <= 0xBF
  }

  function ContinuationValue(b: Byte): int {
    b as int - 0x80
  }

  /** How many bytes the character at the head of `b` takes, 0 when no well-formed character starts there. */
  function HeadLength(b: seq<Byte>): (n: nat)
    ensures n <= 4 && n <= |b|
  {
    if |b| >= 1 && b[0] < 0x80 then 1
    else if |b| >= 2 && 0xC2 <= b[0] <= 0xDF && Continuation(b[1]) then 2
    else if |b| >= 3 && 0xE0 <= b[0] <= 0xEF && Continuation(b[1]) && Continuation(b[2])
            && (b[0] == 0xE0 ==> b[1] >= 0xA0) && (b[0] == 0xED ==> b[1] <= 0x9F) then 3
    else if |b| >= 4 && 0xF0 <= b[0] <= 0xF4 && Continuation(b[1]) && Continuation(b[2]) && Continuation(b[3])
            && (b[0] == 0xF0 ==> b[1] >= 0x90) && (b[0] == 0xF4 ==> b[1] <= 0x8F) then 4
    else 0
  }

  function HeadChar(b: seq<Byte>): (c: CodePoint)
    requires HeadLength(b) > 0
  {
    match HeadLength(b)
    case 1 => b[0] as int as CodePoint
    case 2 => ((b[0] as int - 0xC0) * 64 + ContinuationValue(b[1])) as CodePoint
    case 3 => ((b[0] as int - 0xE0) * 4096 + ContinuationValue(b[1]) * 64 + ContinuationValue(b[2])) as CodePoint
    case _ => ((b[0] as int - 0xF0) * 262144 + ContinuationValue(b[1]) * 4096 + ContinuationValue(b[2]) * 64
               + ContinuationValue(b[3])) as CodePoint
  }

  /** `bytes.decode("utf-8", errors="ignore")`: bytes that start no well-formed character are dropped. */
  function DecodeIgnore(b: seq<Byte>): Str
    decreases |b|
  {
    if b == [] then []
    else if HeadLength(b) == 0 then DecodeIgnore(b[1..])
    else [HeadChar(b)] + DecodeIgnore(b[HeadLength(b)..])
  }

  /** The sextets of a number below 2^24 put together again. */
  lemma {:induction false} Sextets(n: int)
    requires 0 <= n
    ensures n == n / 64 * 64 + n % 64
    ensures n / 64 == n / 4096 * 64 + n / 64 % 64
    ensures n / 4096 == n / 262144 * 64 + n / 4096 % 64
  {
    assert n / 4096 == n / 64 / 64;
    assert n / 262144 == n / 4096 / 64;
  }

  lemma {:induction false} HeadOfChar(c: CodePoint, rest: seq<Byte>)
    requires Scalar(c)
    ensures HeadLength(EncodeChar(c) + rest) == |EncodeChar(c)|
    ensures HeadChar(EncodeChar(c) + rest) == c
  {
    HeadLengthOfChar(c, rest);
    Sextets(c as int);
  }

  lemma {:induction false} HeadLengthOfChar(c: CodePoint, rest: seq<Byte>)
    requires Scalar(c)
    ensures HeadLength(EncodeChar(c) + rest) == |EncodeChar(c)|
  {
    var n, e := c as int, EncodeChar(c);
    Sextets(n);
    assert forall i :: 0 <= i < |e| ==> (e + rest)[i] == e[i];
  }

  /** A cut inside a character leaves nothing that decodes. */
  lemma {:induction false} CutCharIsDropped(c: CodePoint, n: nat)
    requires Scalar(c) && n < |EncodeChar(c)|
    ensures DecodeIgnore(EncodeChar(c)[..n]) == []
  {
    var e := EncodeChar(c);
    if n > 0 {
      assert HeadLength(e[..n]) == 0;
      ContinuationsDropped(e[..n][1..]);
    }
  }

  lemma {:induction false} ContinuationsDropped(b: seq<Byte>)
    requires forall i :: 0 <= i < |b| ==> Continuation(b[i])
    ensures DecodeIgnore(b) == []
  {
    if b != [] {
      ContinuationsDropped(b[1..]);
    }
  }

  /** The longest prefix of whole characters that fits in `n` bytes. */
  function Fitting(s: Str, n: int): (p: Str)
    requires Encodable(s)
    ensures p <= s
  {
    if s == [] || |EncodeChar(s[0])| > n then []
    else [s[0]] + Fitting(s[1..], n - |EncodeChar(s[0])|)
  }

  lemma {:induction false} EncodeConcat(s: Str, t: Str)
    requires Encodable(s) && Encodable(t)
    ensures Encodable(s + t) && Encode(s + t) == Encode(s) + Encode(t)
  {
    if s == [] {
      assert s + t == t;
    } else {
      assert (s + t)[1..] == s[1..] + t;
      EncodeConcat(s[1..], t);
      assert forall i :: 0 <= i < |s + t| ==> Scalar((s + t)[i]);
      assert EncodeChar(s[0]) + (Encode(s[1..]) + Encode(t)) == (EncodeChar(s[0]) + Encode(s[1..])) + Encode(t);
    }
  }

  /** Cutting the UTF-8 form anywhere and decoding with `errors="ignore"` keeps exactly the whole characters before the cut. */
  lemma {:induction false} CutDecodesToFitting(s: Str, n: nat)
    requires Encodable(s) && n <= |Encode(s)|
    ensures DecodeIgnore(Encode(s)[..n]) == Fitting(s, n)
  {
    if s != [] {
      var e, rest := EncodeChar(s[0]), Encode(s[1..]);
      if n < |e| {
        assert Encode(s)[..n] == e[..n];
        CutCharIsDropped(s[0], n);
      } else {
        assert Encode(s)[..n] == e + rest[..n - |e|];
        HeadOfChar(s[0], rest[..n - |e|]);
        assert (e + rest[..n - |e|])[|e|..] == rest[..n - |e|];
        CutDecodesToFitting(s[1..], n - |e|);
      }
    }
  }

  /** The whole form decodes to the string. */
  lemma {:induction false} DecodeEncode(s: Str)
    requires Encodable(s)
    ensures DecodeIgnore(Encode(s)) == s
  {
    if s != [] {
      HeadOfChar(s[0], Encode(s[1..]));
      DecodeEncode(s[1..]);
    }
  }

  ghost predicate LongestFitting(p: Str, s: Str, n: int)
    requires Encodable(s)
  {
    && p <= s && Encodable(p) && |Encode(p)| <= n
    && forall k :: |p| < k <= |s| ==> |Encode(s[..k])| > n
  }

  lemma {:induction false} FittingIsLongest(s: Str, n: nat)
    requires Encodable(s)
    ensures LongestFitting(Fitting(s, n), s, n)
  {
    if s != [] {
      var e := EncodeChar(s[0]);
      if |e| > n {
        forall k | 0 < k <= |s|
          ensures |Encode(s[..k])| > n
        {
          assert Encode(s[..k]) == e + Encode(s[..k][1..]);
        }
      } else {
        var tail := Fitting(s[1..], n - |e|);
        FittingIsLongest(s[1..], n - |e|);
        assert Fitting(s, n)[1..] == tail;
        forall k | |tail| + 1 < k <= |s|
          ensures |Encode(s[..k])| > n
        {
          assert s[..k][1..] == s[1..][..k - 1];
        }
      }
    }
  }
}
