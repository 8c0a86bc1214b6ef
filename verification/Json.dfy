/**
The part of Python's `json` module the cursor uses: `loads` on ASCII text (all of RFC 8259, and the
`NaN` and `Infinity` literals Python adds), and `dumps` of an object of scalars with the compact separators.
*/
module Json {
  import opened OrderedDicts
  import opened Text

  datatype Json =
    | Null
    | Bool(b: bool)
    | Int(n: int)
    | Float
    | Str(s: Text.Str)
    | Arr(elements: seq<Json>)
    | Obj(members: seq<(Text.Str, Json)>)

  datatype Parsed<+T> = Parsed(value: T, rest: Text.Str)

  const QUOTE: CodePoint := 34
  const COMMA: CodePoint := 44
  const MINUS: CodePoint := 45
  const COLON: CodePoint := 58
  const BACKSLASH: CodePoint := 92
  const LOWER_U: CodePoint := 117
  const OPEN_BRACE: CodePoint := 123
  const CLOSE_BRACE: CodePoint := 125
  const OPEN_BRACKET: CodePoint := 91
  const CLOSE_BRACKET: CodePoint := 93

  const NULL_TEXT: Text.Str := [110, 117, 108, 108]
  const TRUE_TEXT: Text.Str := [116, 114, 117, 101]
  const FALSE_TEXT: Text.Str := [102, 97, 108, 115, 101]
  const NAN_TEXT: Text.Str := [78, 97, 78]
  const INFINITY_TEXT: Text.Str := [73, 110, 102, 105, 110, 105, 116, 121]

  // loads

  predicate Blank(c: CodePoint) {
    c == 32 || c == 9 || c == 10 || c == 13
  }

  function SkipBlanks(s: Text.Str): (r: Text.Str)
    ensures |r| <= |s|
  {
    if s != [] && Blank(s[0]) then SkipBlanks(s[1..]) else s
  }

  predicate IsDigit(c: CodePoint) {
    48 <= c <= 57
  }

  /** The number of leading decimal digits. */
  function DigitRun(s: Text.Str): (n: nat)
    ensures n <= |s| && forall i :: 0 <= i < n ==> IsDigit(s[i])
    ensures n < |s| ==> !IsDigit(s[n])
  {
    if s == [] || !IsDigit(s[0]) then 0 else 1 + DigitRun(s[1..])
  }

  function DigitsValue(s: Text.Str): nat
    requires forall i :: 0 <= i < |s| ==> IsDigit(s[i])
  {
    if s == [] then 0
    else
      assert IsDigit(s[|s| - 1]);
      DigitsValue(s[..|s| - 1]) * 10 + (s[|s| - 1] as int - 48)
  }

  /** The length of a fraction or exponent that makes a number a float, 0 when there is none. */
  function FractionRun(s: Text.Str): (n: nat)
    ensures n <= |s|
  {
    if |s| >= 2 && s[0] == 46 && IsDigit(s[1]) then 1 + DigitRun(s[1..]) else 0
  }

  function ExponentRun(s: Text.Str): (n: nat)
    ensures n <= |s|
  {
    if |s| == 0 || (s[0] != 101 && s[0] != 69) then 0
    else
      var sign := if |s| >= 2 && (s[1] == 43 || s[1] == MINUS) then 1 else 0;
      var digits := DigitRun(s[1 + sign..]);
      if digits == 0 then 0 else 1 + sign + digits
  }

  /** An unsigned number: no leading zeros; with a fraction or exponent it is a float. */
  function ParseNatural(s: Text.Str, negative: bool): (p: Option<Parsed<Json>>)
    ensures p.Some? ==> |p.value.rest| < |s|
  {
    var run := DigitRun(s);
    var digits := if run > 0 && s[0] == 48 then 1 else run;
    if digits == 0 then None
    else
      var fraction := FractionRun(s[digits..]);
      var exponent := ExponentRun(s[digits + fraction..]);
      if fraction + exponent > 0 then Some(Parsed(Float, s[digits + fraction + exponent..]))
      else
        var n: int := DigitsValue(s[..digits]);
        Some(Parsed(Int(if negative then -n else n), s[digits..]))
  }

  function ParseNumber(s: Text.Str): (p: Option<Parsed<Json>>)
    ensures p.Some? ==> |p.value.rest| < |s|
  {
    if s != [] && s[0] == MINUS then
      if INFINITY_TEXT <= s[1..] then Some(Parsed(Float, s[9..])) else ParseNatural(s[1..], true)
    else ParseNatural(s, false)
  }

  function HexValue(c: CodePoint): Option<int> {
    if 48 <= c <= 57 then Some(c as int - 48)
    else if 97 <= c <= 102 then Some(c as int - 97 + 10)
    else if 65 <= c <= 70 then Some(c as int - 65 + 10)
    else None
  }

  /** The code unit of a `\uXXXX` escape at the head of `s`. */
  function UnicodeEscape(s: Text.Str): (u: Option<CodePoint>)
    ensures u.Some? ==> |s| >= 6 && u.value < 0x10000
  {
    if |s| >= 6 && s[0] == BACKSLASH && s[1] == LOWER_U
       && HexValue(s[2]).Some? && HexValue(s[3]).Some? && HexValue(s[4]).Some? && HexValue(s[5]).Some?
    then
      HexRange(s[2]); HexRange(s[3]); HexRange(s[4]); HexRange(s[5]);
      Some((HexValue(s[2]).value * 4096 + HexValue(s[3]).value * 256 + HexValue(s[4]).value * 16 + HexValue(s[5]).value) as CodePoint)
    else None
  }

  lemma {:induction false} HexRange(c: CodePoint)
    requires HexValue(c).Some?
    ensures 0 <= HexValue(c).value < 16
  {
  }

  function SimpleEscape(c: CodePoint): Option<CodePoint> {
    if c == QUOTE || c == BACKSLASH || c == 47 then Some(c)
    else if c == 98 then Some(8)
    else if c == 102 then Some(12)
    else if c == 110 then Some(10)
    else if c == 114 then Some(13)
    else if c == 116 then Some(9)
    else None
  }

  function JoinSurrogates(high: CodePoint, low: CodePoint): CodePoint
    requires HighSurrogate(high) && LowSurrogate(low)
  {
    (0x10000 + (high as int - 0xD800) * 1024 + (low as int - 0xDC00)) as CodePoint
  }

  function Prepend(c: CodePoint, p: Option<Parsed<Text.Str>>): Option<Parsed<Text.Str>> {
    if p.None? then None else Some(Parsed([c] + p.value.value, p.value.rest))
  }

  /** The body of a string, after its opening quote. */
  function ParseString(s: Text.Str): (p: Option<Parsed<Text.Str>>)
    ensures p.Some? ==> |p.value.rest| < |s|
  {
    if s == [] || s[0] < 32 then None
    else if s[0] == QUOTE then Some(Parsed([], s[1..]))
    else if s[0] != BACKSLASH then Prepend(s[0], ParseString(s[1..]))
    else if |s| >= 2 && s[1] != LOWER_U then
      if SimpleEscape(s[1]).None? then None else Prepend(SimpleEscape(s[1]).value, ParseString(s[2..]))
    else
      var u := UnicodeEscape(s);
      if u.None? then None
      else
        var next := UnicodeEscape(s[6..]);
        if HighSurrogate(u.value) && next.Some? && LowSurrogate(next.value)
        then Prepend(JoinSurrogates(u.value, next.value), ParseString(s[12..]))
        else Prepend(u.value, ParseString(s[6..]))
  }

  function Literal(s: Text.Str, text: Text.Str, v: Json): (p: Option<Parsed<Json>>)
    requires text != []
    ensures p.Some? ==> |p.value.rest| < |s|
  {
    if text <= s then Some(Parsed(v, s[|text|..])) else None
  }

  function ParseValue(s: Text.Str): (p: Option<Parsed<Json>>)
    ensures p.Some? ==> |p.value.rest| < |s|
    decreases |s|, 0
  {
    if s == [] then None
    else if s[0] == QUOTE then
      var p := ParseString(s[1..]);
      if p.None? then None else Some(Parsed(Str(p.value.value), p.value.rest))
    else if s[0] == OPEN_BRACE then
      var t := SkipBlanks(s[1..]);
      if t != [] && t[0] == CLOSE_BRACE then Some(Parsed(Obj([]), t[1..]))
      else
        var p := ParseMembers(t);
        if p.None? then None else Some(Parsed(Obj(p.value.value), p.value.rest))
    else if s[0] == OPEN_BRACKET then
      var t := SkipBlanks(s[1..]);
      if t != [] && t[0] == CLOSE_BRACKET then Some(Parsed(Arr([]), t[1..]))
      else
        var p := ParseElements(t);
        if p.None? then None else Some(Parsed(Arr(p.value.value), p.value.rest))
    else if s[0] == 110 then Literal(s, NULL_TEXT, Null)
    else if s[0] == 116 then Literal(s, TRUE_TEXT, Bool(true))
    else if s[0] == 102 then Literal(s, FALSE_TEXT, Bool(false))
    else if s[0] == 78 then Literal(s, NAN_TEXT, Float)
    else if s[0] == 73 then Literal(s, INFINITY_TEXT, Float)
    else ParseNumber(s)
  }

  /** The members of an object from its first key to the closing brace. */
  function ParseMembers(s: Text.Str): (p: Option<Parsed<seq<(Text.Str, Json)>>>)
    ensures p.Some? ==> |p.value.rest| < |s|
    decreases |s|, 1
  {
    if s == [] || s[0] != QUOTE then None
    else
      var k := ParseString(s[1..]);
      if k.None? then None
      else
        var t := SkipBlanks(k.value.rest);
        if t == [] || t[0] != COLON then None
        else
          var v := ParseValue(SkipBlanks(t[1..]));
          if v.None? then None
          else
            var u := SkipBlanks(v.value.rest);
            if u != [] && u[0] == CLOSE_BRACE then Some(Parsed([(k.value.value, v.value.value)], u[1..]))
            else if u != [] && u[0] == COMMA then
              var more := ParseMembers(SkipBlanks(u[1..]));
              if more.None? then None else Some(Parsed([(k.value.value, v.value.value)] + more.value.value, more.value.rest))
            else None
  }

  function ParseElements(s: Text.Str): (p: Option<Parsed<seq<Json>>>)
    ensures p.Some? ==> |p.value.rest| < |s|
    decreases |s|, 1
  {
    var v := ParseValue(s);
    if v.None? then None
    else
      var u := SkipBlanks(v.value.rest);
      if u != [] && u[0] == CLOSE_BRACKET then Some(Parsed([v.value.value], u[1..]))
      else if u != [] && u[0] == COMMA then
        var more := ParseElements(SkipBlanks(u[1..]));
        if more.None? then None else Some(Parsed([v.value.value] + more.value.value, more.value.rest))
      else None
  }


  /** `json.loads`. */
  function Loads(s: Text.Str): Option<Json> {
    var p := ParseValue(SkipBlanks(s));
    if p.Some? && SkipBlanks(p.value.rest) == [] then Some(p.value.value) else None
  }

  // dumps

  function Decimal(n: nat): (t: Text.Str)
    ensures t != [] && forall i :: 0 <= i < |t| ==> IsDigit(t[i])
    ensures t[0] == 48 ==> |t| == 1
    ensures n > 0 ==> t[0] != 48
  {
    if n < 10 then [(48 + n) as CodePoint] else Decimal(n / 10) + [(48 + n % 10) as CodePoint]
  }

  function IntText(n: int): Text.Str {
    if n < 0 then [MINUS] + Decimal(-n) else Decimal(n)
  }

  type Nibble = v: int | 0 <= v < 16

  function HexDigit(v: Nibble): (c: CodePoint)
    ensures HexValue(c) == Some(v)
  {
    if v < 10 then (48 + v) as CodePoint else (97 + v - 10) as CodePoint
  }

  function EscapeUnit(u: CodePoint): Text.Str
    requires u < 0x10000
  {
    var n := u as int;
    [BACKSLASH, LOWER_U, HexDigit(n / 4096), HexDigit(n / 256 % 16), HexDigit(n / 16 % 16), HexDigit(n % 16)]
  }

  function HighHalf(c: CodePoint): (h: CodePoint)
    requires c >= 0x10000
    ensures HighSurrogate(h)
  {
    (0xD800 + (c as int - 0x10000) / 1024) as CodePoint
  }

  function LowHalf(c: CodePoint): (l: CodePoint)
    requires c >= 0x10000
    ensures LowSurrogate(l) && JoinSurrogates(HighHalf(c), l) == c
  {
    (0xDC00 + (c as int - 0x10000) % 1024) as CodePoint
  }

  function ShortEscape(c: CodePoint): (e: Option<CodePoint>)
    ensures e.Some? ==> e.value != LOWER_U && SimpleEscape(e.value) == Some(c)
  {
    if c == QUOTE || c == BACKSLASH then Some(c)
    else if c == 8 then Some(98)
    else if c == 12 then Some(102)
    else if c == 10 then Some(110)
    else if c == 13 then Some(114)
    else if c == 9 then Some(116)
    else None
  }

  /** One character under `ensure_ascii`: anything but printable ASCII is escaped, beyond 0xFFFF as a surrogate pair. */
  function EscapeChar(c: CodePoint): Text.Str {
    if ShortEscape(c).Some? then [BACKSLASH, ShortEscape(c).value]
    else if 32 <= c <= 126 then [c]
    else if c < 0x10000 then EscapeUnit(c)
    else EscapeUnit(HighHalf(c)) + EscapeUnit(LowHalf(c))
  }

  function Escape(s: Text.Str): Text.Str {
    if s == [] then [] else EscapeChar(s[0]) + Escape(s[1..])
  }

  predicate IsScalar(v: Json) {
    v.Null? || v.Bool? || v.Int? || v.Str?
  }

  function ScalarText(v: Json): Text.Str
    requires IsScalar(v)
  {
    match v
    case Null => NULL_TEXT
    case Bool(b) => if b then TRUE_TEXT else FALSE_TEXT
    case Int(n) => IntText(n)
    case Str(s) => [QUOTE] + Escape(s) + [QUOTE]
  }

  predicate Scalars(ms: seq<(Text.Str, Json)>) {
    forall i :: 0 <= i < |ms| ==> IsScalar(ms[i].1)
  }

  /** The rest of a quoted string whose characters are `s`: the escaped characters, the closing quote, what follows. */
  function Tail(s: Text.Str, rest: Text.Str): Text.Str {
    Escape(s) + ([QUOTE] + rest)
  }

  /** The members of an object, its closing brace, and what follows. */
  function MembersText(ms: seq<(Text.Str, Json)>, rest: Text.Str): Text.Str
    requires ms != [] && Scalars(ms)
    decreases |ms|, 1
  {
    [QUOTE] + Tail(ms[0].0, [COLON] + (ScalarText(ms[0].1) + AfterMember(ms, rest)))
  }

  function AfterMember(ms: seq<(Text.Str, Json)>, rest: Text.Str): Text.Str
    requires ms != [] && Scalars(ms)
    decreases |ms|, 0
  {
    if |ms| == 1 then [CLOSE_BRACE] + rest else [COMMA] + MembersText(ms[1..], rest)
  }

  /** `json.dumps(obj, separators=(",", ":"))` of a non-empty object of scalars. */
  function Dumps(ms: seq<(Text.Str, Json)>): Text.Str
    requires ms != [] && Scalars(ms)
  {
    [OPEN_BRACE] + MembersText(ms, [])
  }

  // loads of dumps

  /** A string with every high surrogate that is followed by a low one merged with it. */
  function MergePairs(s: Text.Str): Text.Str {
    if s == [] then []
    else if |s| >= 2 && HighSurrogate(s[0]) && LowSurrogate(s[1]) then [JoinSurrogates(s[0], s[1])] + MergePairs(s[2..])
    else [s[0]] + MergePairs(s[1..])
  }

  ghost predicate HasSplitPair(s: Text.Str) {
    exists i :: 0 <= i < |s| - 1 && HighSurrogate(s[i]) && LowSurrogate(s[i + 1])
  }

  /** Merging changes a string exactly when it holds a surrogate pair as two code points. */
  lemma {:induction false} MergeChangesIff(s: Text.Str)
    ensures |MergePairs(s)| <= |s|
    ensures MergePairs(s) == s <==> !HasSplitPair(s)
    ensures HasSplitPair(s) ==> |MergePairs(s)| < |s|
  {
    if s != [] {
      if |s| >= 2 && HighSurrogate(s[0]) && LowSurrogate(s[1]) {
        MergeChangesIff(s[2..]);
      } else {
        MergeChangesIff(s[1..]);
        if HasSplitPair(s[1..]) {
          var i :| 0 <= i < |s[1..]| - 1 && HighSurrogate(s[1..][i]) && LowSurrogate(s[1..][i + 1]);
          assert HighSurrogate(s[i + 1]) && LowSurrogate(s[i + 2]);
        }
        if HasSplitPair(s) {
          var i :| 0 <= i < |s| - 1 && HighSurrogate(s[i]) && LowSurrogate(s[i + 1]);
          assert HighSurrogate(s[1..][i - 1]) && LowSurrogate(s[1..][i]);
        }
        assert s == [s[0]] + s[1..];
      }
    }
  }

  lemma {:induction false} Nibbles(n: int)
    requires 0 <= n < 0x10000
    ensures n / 4096 * 4096 + n / 256 % 16 * 256 + n / 16 % 16 * 16 + n % 16 == n
  {
    assert n / 256 == n / 16 / 16 && n / 4096 == n / 256 / 16;
  }

  lemma {:induction false} EscapedUnit(u: CodePoint, rest: Text.Str)
    requires u < 0x10000
    ensures UnicodeEscape(EscapeUnit(u) + rest) == Some(u)
    ensures (EscapeUnit(u) + rest)[6..] == rest
  {
    Nibbles(u as int);
    var e, t := EscapeUnit(u), EscapeUnit(u) + rest;
    assert t[0] == e[0] && t[1] == e[1] && t[2] == e[2] && t[3] == e[3] && t[4] == e[4] && t[5] == e[5];
  }

  lemma {:induction false} NoUnit(t: Text.Str)
    requires |t| >= 2 ==> t[0] != BACKSLASH || t[1] != LOWER_U
    ensures UnicodeEscape(t).None?
  {
  }

  /** The escape of a character begins with no low-surrogate escape unless the character is one. */
  lemma {:induction false} EscapeHead(c: CodePoint, rest: Text.Str)
    ensures var u := UnicodeEscape(EscapeChar(c) + rest);
            u.Some? && LowSurrogate(u.value) ==> u.value == c
  {
    var t := EscapeChar(c) + rest;
    if ShortEscape(c).Some? {
      assert t[1] == ShortEscape(c).value;
      NoUnit(t);
    } else if 32 <= c <= 126 {
      assert t[0] == c;
      NoUnit(t);
    } else if c < 0x10000 {
      EscapedUnit(c, rest);
    } else {
      EscapedPair(c, rest);
      EscapedUnit(HighHalf(c), EscapeUnit(LowHalf(c)) + rest);
    }
  }

  lemma {:induction false} EscapedPair(c: CodePoint, rest: Text.Str)
    requires c >= 0x10000
    ensures EscapeChar(c) + rest == EscapeUnit(HighHalf(c)) + (EscapeUnit(LowHalf(c)) + rest)
  {
    Concat3(EscapeUnit(HighHalf(c)), EscapeUnit(LowHalf(c)), rest);
  }

  lemma {:induction false} Concat3(a: Text.Str, b: Text.Str, c: Text.Str)
    ensures (a + b) + c == a + (b + c)
  {
  }

  lemma {:induction false} TailStep(s: Text.Str, rest: Text.Str)
    requires s != []
    ensures Tail(s, rest) == EscapeChar(s[0]) + Tail(s[1..], rest)
  {
  }

  lemma {:induction false} StepPlain(c: CodePoint, t: Text.Str)
    requires c >= 32 && c != QUOTE && c != BACKSLASH
    ensures ParseString([c] + t) == Prepend(c, ParseString(t))
  {
    assert ([c] + t)[1..] == t;
  }

  lemma {:induction false} StepShort(e: CodePoint, c: CodePoint, t: Text.Str)
    requires e != LOWER_U && SimpleEscape(e) == Some(c)
    ensures ParseString([BACKSLASH, e] + t) == Prepend(c, ParseString(t))
  {
    var text := [BACKSLASH, e] + t;
    assert text[0] == BACKSLASH && text[1] == e && text[2..] == t;
  }

  lemma {:induction false} StepUnit(u: CodePoint, t: Text.Str)
    requires u < 0x10000
    ensures ParseString(EscapeUnit(u) + t) ==
            var next := UnicodeEscape(t);
            if HighSurrogate(u) && next.Some? && LowSurrogate(next.value) then Prepend(JoinSurrogates(u, next.value), ParseString(t[6..]))
            else Prepend(u, ParseString(t))
  {
    var text := EscapeUnit(u) + t;
    EscapedUnit(u, t);
    assert text[0] == BACKSLASH && text[1] == LOWER_U;
    if |t| >= 6 {
      assert text[12..] == t[6..];
    }
  }

  /** A character that is not a lone high surrogate is read back as itself. */
  lemma {:induction false} ReadChar(c: CodePoint, t: Text.Str)
    requires !HighSurrogate(c)
    ensures ParseString(EscapeChar(c) + t) == Prepend(c, ParseString(t))
  {
    if ShortEscape(c).Some? {
      StepShort(ShortEscape(c).value, c, t);
    } else if 32 <= c <= 126 {
      StepPlain(c, t);
    } else if c < 0x10000 {
      StepUnit(c, t);
    } else {
      var l := LowHalf(c);
      EscapedPair(c, t);
      StepUnit(HighHalf(c), EscapeUnit(l) + t);
      EscapedUnit(l, t);
    }
  }

  /** An escaped string is read back with its surrogate pairs merged. */
  lemma {:induction false} ReadEscaped(s: Text.Str, rest: Text.Str)
    ensures ParseString(Tail(s, rest)) == Some(Parsed(MergePairs(s), rest))
    decreases |s|, 1
  {
    if s == [] {
      assert Tail(s, rest) == [QUOTE] + rest;
      assert Tail(s, rest)[1..] == rest;
    } else {
      TailStep(s, rest);
      if !HighSurrogate(s[0]) {
        ReadChar(s[0], Tail(s[1..], rest));
        ReadEscaped(s[1..], rest);
      } else {
        ReadEscapedHigh(s, rest);
      }
    }
  }

  lemma {:induction false} HighThenLow(h: CodePoint, l: CodePoint, t: Text.Str)
    requires HighSurrogate(h) && LowSurrogate(l)
    ensures ParseString(EscapeChar(h) + (EscapeChar(l) + t)) == Prepend(JoinSurrogates(h, l), ParseString(t))
  {
    SurrogateEscape(h);
    SurrogateEscape(l);
    EscapedUnit(l, t);
    StepUnit(h, EscapeUnit(l) + t);
  }

  lemma {:induction false} SurrogateEscape(u: CodePoint)
    requires HighSurrogate(u) || LowSurrogate(u)
    ensures EscapeChar(u) == EscapeUnit(u)
  {
  }

  lemma {:induction false} HighAlone(h: CodePoint, t: Text.Str)
    requires HighSurrogate(h) && (UnicodeEscape(t).Some? ==> !LowSurrogate(UnicodeEscape(t).value))
    ensures ParseString(EscapeChar(h) + t) == Prepend(h, ParseString(t))
  {
    StepUnit(h, t);
  }

  lemma {:induction false} TailHead(s: Text.Str, rest: Text.Str)
    requires s != [] ==> !LowSurrogate(s[0])
    ensures var u := UnicodeEscape(Tail(s, rest)); u.Some? ==> !LowSurrogate(u.value)
  {
    if s == [] {
      assert Tail(s, rest)[0] == QUOTE;
      NoUnit(Tail(s, rest));
    } else {
      TailStep(s, rest);
      EscapeHead(s[0], Tail(s[1..], rest));
    }
  }

  lemma {:induction false} ReadEscapedHigh(s: Text.Str, rest: Text.Str)
    requires s != [] && HighSurrogate(s[0])
    ensures ParseString(Tail(s, rest)) == Some(Parsed(MergePairs(s), rest))
    decreases |s|, 0
  {
    TailStep(s, rest);
    if |s| >= 2 && LowSurrogate(s[1]) {
      TailStep(s[1..], rest);
      assert s[1..][1..] == s[2..];
      HighThenLow(s[0], s[1], Tail(s[2..], rest));
      ReadEscaped(s[2..], rest);
    } else {
      TailHead(s[1..], rest);
      HighAlone(s[0], Tail(s[1..], rest));
      ReadEscaped(s[1..], rest);
    }
  }

  lemma {:induction false} DecimalValue(n: nat)
    ensures DigitsValue(Decimal(n)) == n
  {
    if n < 10 {
      assert Decimal(n)[..0] == [];
    } else {
      DecimalValue(n / 10);
      assert Decimal(n)[..|Decimal(n)| - 1] == Decimal(n / 10);
    }
  }

  predicate Ends(rest: Text.Str) {
    rest != [] && (rest[0] == COMMA || rest[0] == CLOSE_BRACE)
  }

  lemma {:induction false} NoFraction(rest: Text.Str)
    requires Ends(rest)
    ensures FractionRun(rest) == 0 && ExponentRun(rest) == 0
  {
  }

  lemma {:induction false} RunOfDigits(d: Text.Str, rest: Text.Str)
    requires Ends(rest) && forall i :: 0 <= i < |d| ==> IsDigit(d[i])
    ensures DigitRun(d + rest) == |d|
  {
    var t := d + rest;
    assert !IsDigit(t[|d|]);
    assert forall i :: 0 <= i < |d| ==> IsDigit(t[i]);
  }

  lemma {:induction false} ReadDigits(d: Text.Str, negative: bool, rest: Text.Str)
    requires Ends(rest) && d != [] && (d[0] == 48 ==> |d| == 1) && forall i :: 0 <= i < |d| ==> IsDigit(d[i])
    ensures ParseNatural(d + rest, negative) == Some(Parsed(Int(if negative then -(DigitsValue(d) as int) else DigitsValue(d)), rest))
  {
    var t := d + rest;
    RunOfDigits(d, rest);
    assert t[0] == d[0] && t[..|d|] == d && t[|d|..] == rest;
    NoFraction(rest);
  }

  lemma {:induction false} NumberValue(s: Text.Str)
    requires s != [] && (IsDigit(s[0]) || s[0] == MINUS)
    ensures ParseValue(s) == ParseNumber(s)
  {
  }

  lemma {:induction false} NegativeNumber(t: Text.Str)
    requires t != [] && IsDigit(t[0])
    ensures ParseNumber([MINUS] + t) == ParseNatural(t, true)
  {
    assert ([MINUS] + t)[1..] == t;
    assert t[0] != INFINITY_TEXT[0];
  }

  lemma {:induction false} ReadUnsigned(d: Text.Str, rest: Text.Str)
    requires Ends(rest) && d != [] && (d[0] == 48 ==> |d| == 1) && forall i :: 0 <= i < |d| ==> IsDigit(d[i])
    ensures ParseValue(d + rest) == Some(Parsed(Int(DigitsValue(d)), rest))
    ensures ParseValue([MINUS] + (d + rest)) == Some(Parsed(Int(-(DigitsValue(d) as int)), rest))
  {
    var t := d + rest;
    assert t[0] == d[0];
    ReadDigits(d, false, rest);
    ReadDigits(d, true, rest);
    NumberValue(t);
    NumberValue([MINUS] + t);
    NegativeNumber(t);
  }

  lemma {:induction false} SignedText(n: int, m: nat, rest: Text.Str)
    requires m == if n < 0 then -n else n
    ensures IntText(n) + rest == if n < 0 then [MINUS] + (Decimal(m) + rest) else Decimal(m) + rest
  {
    Concat3([MINUS], Decimal(m), rest);
  }

  lemma {:induction false} ReadInt(n: int, rest: Text.Str)
    requires Ends(rest)
    ensures ParseValue(IntText(n) + rest) == Some(Parsed(Int(n), rest))
  {
    var m := if n < 0 then -n else n;
    DecimalValue(m);
    ReadUnsigned(Decimal(m), rest);
    SignedText(n, m, rest);
  }

  /** What reading a scalar's text gives back. */
  function MergedValue(v: Json): Json {
    if v.Str? then Str(MergePairs(v.s)) else v
  }

  lemma {:induction false} ReadLiteral(text: Text.Str, v: Json, rest: Text.Str)
    requires text != []
    ensures Literal(text + rest, text, v) == Some(Parsed(v, rest))
  {
    assert text <= text + rest;
    assert (text + rest)[|text|..] == rest;
  }

  lemma {:induction false} ReadScalar(v: Json, rest: Text.Str)
    requires IsScalar(v) && Ends(rest)
    ensures ParseValue(ScalarText(v) + rest) == Some(Parsed(MergedValue(v), rest))
  {
    match v
    case Null =>
      ReadLiteral(NULL_TEXT, Null, rest);
      assert (NULL_TEXT + rest)[0] == 110;
    case Bool(b) =>
      ReadLiteral(TRUE_TEXT, Bool(true), rest);
      ReadLiteral(FALSE_TEXT, Bool(false), rest);
      assert (TRUE_TEXT + rest)[0] == 116 && (FALSE_TEXT + rest)[0] == 102;
    case Int(n) =>
      ReadInt(n, rest);
    case Str(s) =>
      ReadQuoted(s, rest);
  }

  lemma {:induction false} ReadQuoted(s: Text.Str, rest: Text.Str)
    ensures [QUOTE] + Escape(s) + [QUOTE] + rest == [QUOTE] + Tail(s, rest)
    ensures ParseValue([QUOTE] + Tail(s, rest)) == Some(Parsed(Str(MergePairs(s)), rest))
  {
    assert ([QUOTE] + Tail(s, rest))[1..] == Tail(s, rest);
    ReadEscaped(s, rest);
  }

  function MergedMembers(ms: seq<(Text.Str, Json)>): seq<(Text.Str, Json)> {
    if ms == [] then [] else [(MergePairs(ms[0].0), MergedValue(ms[0].1))] + MergedMembers(ms[1..])
  }

  /** The head of a text that starts with no blank. */
  lemma {:induction false} NotBlank(t: Text.Str)
    requires t != [] && !Blank(t[0])
    ensures SkipBlanks(t) == t
  {
  }

  lemma {:induction false} ScalarTextHead(v: Json)
    requires IsScalar(v)
    ensures ScalarText(v) != [] && !Blank(ScalarText(v)[0])
  {
    if v.Int? && v.n >= 0 {
      assert IsDigit(Decimal(v.n)[0]);
    }
  }

  /** What `ParseMembers` does with the text after a value. */
  function Continue(k: Text.Str, v: Json, u: Text.Str): Option<Parsed<seq<(Text.Str, Json)>>> {
    if u != [] && u[0] == CLOSE_BRACE then Some(Parsed([(k, v)], u[1..]))
    else if u != [] && u[0] == COMMA then
      var more := ParseMembers(SkipBlanks(u[1..]));
      if more.None? then None else Some(Parsed([(k, v)] + more.value.value, more.value.rest))
    else None
  }

  lemma {:induction false} ReadMember(k: Text.Str, v: Json, after: Text.Str)
    requires IsScalar(v) && Ends(after)
    ensures ParseMembers([QUOTE] + Tail(k, [COLON] + (ScalarText(v) + after))) == Continue(MergePairs(k), MergedValue(v), after)
  {
    var value := ScalarText(v) + after;
    var s := [QUOTE] + Tail(k, [COLON] + value);
    assert s[1..] == Tail(k, [COLON] + value);
    ReadEscaped(k, [COLON] + value);
    NotBlank([COLON] + value);
    assert ([COLON] + value)[1..] == value;
    ScalarTextHead(v);
    assert value[0] == ScalarText(v)[0];
    NotBlank(value);
    ReadScalar(v, after);
    NotBlank(after);
  }

  lemma {:induction false} ReadMembers(ms: seq<(Text.Str, Json)>, rest: Text.Str)
    requires ms != [] && Scalars(ms)
    ensures ParseMembers(MembersText(ms, rest)) == Some(Parsed(MergedMembers(ms), rest))
    decreases |ms|
  {
    var k, v := MergePairs(ms[0].0), MergedValue(ms[0].1);
    ReadMember(ms[0].0, ms[0].1, AfterMember(ms, rest));
    if |ms| == 1 {
      LastMember(k, v, rest);
      assert MergedMembers(ms[1..]) == [];
      assert MergedMembers(ms) == [(k, v)];
    } else {
      ReadMembers(ms[1..], rest);
      NextMember(k, v, MembersText(ms[1..], rest), MergedMembers(ms[1..]), rest);
    }
  }

  lemma {:induction false} LastMember(k: Text.Str, v: Json, rest: Text.Str)
    ensures Continue(k, v, [CLOSE_BRACE] + rest) == Some(Parsed([(k, v)], rest))
  {
    assert ([CLOSE_BRACE] + rest)[1..] == rest;
  }

  lemma {:induction false} NextMember(k: Text.Str, v: Json, text: Text.Str, more: seq<(Text.Str, Json)>, rest: Text.Str)
    requires text != [] && text[0] == QUOTE && ParseMembers(text) == Some(Parsed(more, rest))
    ensures Continue(k, v, [COMMA] + text) == Some(Parsed([(k, v)] + more, rest))
  {
    assert ([COMMA] + text)[1..] == text;
    NotBlank(text);
  }

  /** Reading the text of an object gives its members back, with the surrogate pairs of their strings merged. */
  lemma {:induction false} LoadsDumps(ms: seq<(Text.Str, Json)>)
    requires ms != [] && Scalars(ms)
    ensures Loads(Dumps(ms)) == Some(Obj(MergedMembers(ms)))
  {
    var t := Dumps(ms);
    assert t[1..] == MembersText(ms, []);
    NotBlank(t);
    NotBlank(MembersText(ms, []));
    ReadMembers(ms, []);
  }
}
