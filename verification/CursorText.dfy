/** A cursor token down to its characters: the JSON text, its escapes, and the base64 digits of its bytes. */
module CursorText {
  import opened OrderedDicts
  import opened Text
  import Base64
  import opened Json
  import opened Cursor

  /** An ASCII literal as code points. */
  function Ascii(s: string): (t: Text.Str)
    requires forall i :: 0 <= i < |s| ==> s[i] < '\U{80}'
    ensures |t| == |s| && forall i :: 0 <= i < |s| ==> t[i] as int == s[i] as int
  {
    if s == "" then [] else Ascii(s[..|s| - 1]) + [s[|s| - 1] as int as CodePoint]
  }

  // The JSON text

  /** A member whose key is one lower-case letter. */
  lemma {:induction false} MemberText(ms: seq<(Text.Str, Json)>)
    requires ms != [] && Scalars(ms) && |ms[0].0| == 1 && 97 <= ms[0].0[0] <= 122
    ensures MembersText(ms, []) == [QUOTE, ms[0].0[0], QUOTE, COLON] + ScalarText(ms[0].1) + AfterMember(ms, [])
  {
    var k, value, after := ms[0].0, ScalarText(ms[0].1), AfterMember(ms, []);
    assert k[1..] == [];
    assert Escape(k) == k;
    assert Tail(k, [COLON] + (value + after)) == k + ([QUOTE] + ([COLON] + (value + after)));
    assert [QUOTE] + (k + ([QUOTE] + ([COLON] + (value + after)))) == [QUOTE, k[0], QUOTE, COLON] + value + after;
  }

  lemma {:induction false} BoolText(b: bool)
    ensures ScalarText(Bool(b)) == Ascii(if b then "true" else "false")
  {
  }

  lemma {:induction false} LastMember(ms: seq<(Text.Str, Json)>, k: CodePoint, value: Text.Str)
    requires |ms| == 1 && Scalars(ms) && ms[0].0 == [k] && 97 <= k <= 122 && value == ScalarText(ms[0].1)
    ensures MembersText(ms, []) == [QUOTE, k, QUOTE, COLON] + value + [CLOSE_BRACE]
  {
    MemberText(ms);
    assert AfterMember(ms, []) == [CLOSE_BRACE];
  }

  lemma {:induction false} EarlierMember(ms: seq<(Text.Str, Json)>, k: CodePoint, value: Text.Str, rest: Text.Str)
    requires |ms| > 1 && Scalars(ms) && ms[0].0 == [k] && 97 <= k <= 122 && value == ScalarText(ms[0].1)
    requires rest == MembersText(ms[1..], [])
    ensures MembersText(ms, []) == [QUOTE, k, QUOTE, COLON] + value + ([COMMA] + rest)
  {
    MemberText(ms);
  }

  /** The text of a cursor by id: `{"e":id,"r":reverse}`. */
  lemma {:induction false} IdCursorText(d: Details)
    requires Accepted(d) && d.observedAt.None?
    ensures Dumps(Members(d)) ==
            Ascii("{\"e\":") + IntText(d.eventId) + Ascii(",\"r\":") + Ascii(if d.reverse then "true" else "false") + Ascii("}")
  {
    var ms := Members(d);
    var reverse, id := Ascii(if d.reverse then "true" else "false"), IntText(d.eventId);
    assert ms == [(KEY_E, Int(d.eventId)), (KEY_R, Bool(d.reverse))];
    BoolText(d.reverse);
    var last := [QUOTE, 114, QUOTE, COLON] + reverse + [CLOSE_BRACE];
    LastMember(ms[1..], 114, reverse);
    EarlierMember(ms, 101, id, last);
    FlattenId(id, reverse);
    IdPieces();
  }

  lemma {:induction false} FlattenId(id: Text.Str, reverse: Text.Str)
    ensures [OPEN_BRACE] + ([QUOTE, 101, QUOTE, COLON] + id + ([COMMA] + ([QUOTE, 114, QUOTE, COLON] + reverse + [CLOSE_BRACE])))
         == [OPEN_BRACE, QUOTE, 101, QUOTE, COLON] + id + [COMMA, QUOTE, 114, QUOTE, COLON] + reverse + [CLOSE_BRACE]
  {
  }

  lemma {:induction false} IdPieces()
    ensures Ascii("{\"e\":") == [OPEN_BRACE, QUOTE, 101, QUOTE, COLON]
    ensures Ascii(",\"r\":") == [COMMA, QUOTE, 114, QUOTE, COLON]
    ensures Ascii("}") == [CLOSE_BRACE]
  {
  }

  lemma {:induction false} PositionPieces()
    ensures Ascii(",\"o\":\"") == [COMMA, QUOTE, 111, QUOTE, COLON, QUOTE]
    ensures Ascii("\",\"b\":") == [QUOTE, COMMA, QUOTE, 98, QUOTE, COLON]
  {
  }

  /** The text of a cursor by position: `{"e":id,"r":reverse,"o":"stamp","b":byte}`. */
  lemma {:induction false} PositionCursorText(d: Details)
    requires Accepted(d) && d.observedAt.Some?
    ensures Dumps(Members(d)) ==
            Ascii("{\"e\":") + IntText(d.eventId) + Ascii(",\"r\":") + Ascii(if d.reverse then "true" else "false")
            + Ascii(",\"o\":\"") + Escape(d.observedAt.value) + Ascii("\",\"b\":") + IntText(d.byteStart.value) + Ascii("}")
  {
    var ms := Members(d);
    var reverse, id := Ascii(if d.reverse then "true" else "false"), IntText(d.eventId);
    var stamp, start := Escape(d.observedAt.value), IntText(d.byteStart.value);
    assert ms == [(KEY_E, Int(d.eventId)), (KEY_R, Bool(d.reverse)), (KEY_O, Str(d.observedAt.value)), (KEY_B, Int(d.byteStart.value))];
    BoolText(d.reverse);
    var rest := PositionText(ms[2..], stamp, start);
    EarlierMember(ms[1..], 114, reverse, rest);
    EarlierMember(ms, 101, id, [QUOTE, 114, QUOTE, COLON] + reverse + ([COMMA] + rest));
    IdPieces();
    PositionPieces();
    Flatten(id, reverse, stamp, start);
  }

  lemma {:induction false} PositionText(ms: seq<(Text.Str, Json)>, stamp: Text.Str, start: Text.Str) returns (t: Text.Str)
    requires |ms| == 2 && Scalars(ms) && ms[0].0 == KEY_O && ms[1].0 == KEY_B
    requires ms[0].1.Str? && stamp == Escape(ms[0].1.s) && ms[1].1.Int? && start == IntText(ms[1].1.n)
    ensures t == MembersText(ms, []) == QuotedPosition(stamp, start)
  {
    LastMember(ms[1..], 98, start);
    EarlierMember(ms, 111, [QUOTE] + stamp + [QUOTE], [QUOTE, 98, QUOTE, COLON] + start + [CLOSE_BRACE]);
    t := QuotedPosition(stamp, start);
  }

  function QuotedPosition(stamp: Text.Str, start: Text.Str): Text.Str {
    [QUOTE, 111, QUOTE, COLON] + ([QUOTE] + stamp + [QUOTE]) + ([COMMA] + ([QUOTE, 98, QUOTE, COLON] + start + [CLOSE_BRACE]))
  }

  lemma {:induction false} Flatten(id: Text.Str, reverse: Text.Str, stamp: Text.Str, start: Text.Str)
    ensures [OPEN_BRACE] + ([QUOTE, 101, QUOTE, COLON] + id + ([COMMA] + ([QUOTE, 114, QUOTE, COLON] + reverse + ([COMMA] + QuotedPosition(stamp, start)))))
         == [OPEN_BRACE, QUOTE, 101, QUOTE, COLON] + id + [COMMA, QUOTE, 114, QUOTE, COLON] + reverse
            + [COMMA, QUOTE, 111, QUOTE, COLON, QUOTE] + stamp + [QUOTE, COMMA, QUOTE, 98, QUOTE, COLON] + start + [CLOSE_BRACE]
  {
    var tail := stamp + [QUOTE, COMMA, QUOTE, 98, QUOTE, COLON] + start + [CLOSE_BRACE];
    assert QuotedPosition(stamp, start) == [QUOTE, 111, QUOTE, COLON, QUOTE] + tail;
    assert [COMMA] + ([QUOTE, 111, QUOTE, COLON, QUOTE] + tail) == [COMMA, QUOTE, 111, QUOTE, COLON, QUOTE] + tail;
  }

  /** The decimal text has the number's value and no leading zero. */
  lemma {:induction false} IntTextReads(n: int)
    requires n >= 0
    ensures DigitsValue(Decimal(n)) == n
    ensures n > 0 ==> IntText(-n) == Ascii("-") + IntText(n)
    decreases n
  {
    assert Ascii("-") == [MINUS];
    if n >= 10 {
      IntTextReads(n / 10);
      var t := Decimal(n);
      assert t[..|t| - 1] == Decimal(n / 10);
    } else {
      assert Decimal(n)[..0] == [];
    }
  }

  // The escapes

  /** The characters with a short escape, and the letter of each. */
  ghost const SHORT: map<char, char> :=
    map['"' := '"', '\\' := '\\', '\U{8}' := 'b', '\U{c}' := 'f', '\n' := 'n', '\r' := 'r', '\t' := 't']

  lemma {:induction false} ShortEscapeIsTable(x: char)
    requires x as int <= 0x10FFFF
    ensures var e := ShortEscape(x as int as CodePoint);
            && (e.Some? <==> x in SHORT)
            && (e.Some? ==> e.value as int == SHORT[x] as int)
  {
  }

  /** A character is written as itself, as a short escape, or as the hexadecimal digits of its one or two code units. */
  lemma {:induction false} EscapeCharIs(c: CodePoint)
    ensures var t := EscapeChar(c);
            && (ShortEscape(c).Some? ==> t == [BACKSLASH, ShortEscape(c).value])
            && (ShortEscape(c).None? && ' ' as int <= c as int <= '~' as int ==> t == [c])
            && (ShortEscape(c).None? && !(' ' as int <= c as int <= '~' as int) && c < 0x10000 ==> WritesUnit(t, c))
            && (c >= 0x10000 ==> |t| == 12 && exists h, l :: WritesUnit(t[..6], h) && WritesUnit(t[6..], l) && SurrogatePair(h, l, c))
  {
    if ShortEscape(c).Some? || 32 <= c <= 126 {
    } else if c < 0x10000 {
      UnitIsWritten(c);
    } else {
      var h, l := HighHalf(c), LowHalf(c);
      UnitIsWritten(h);
      UnitIsWritten(l);
      assert EscapeChar(c)[..6] == EscapeUnit(h) && EscapeChar(c)[6..] == EscapeUnit(l);
      assert SurrogatePair(h, l, c);
    }
  }

  ghost predicate SurrogatePair(h: CodePoint, l: CodePoint, c: CodePoint) {
    HighSurrogate(h) && LowSurrogate(l) && c as int == 0x10000 + (h as int - 0xD800) * 1024 + (l as int - 0xDC00)
  }

  /** A hexadecimal digit is a decimal digit or a lower-case letter. */
  ghost predicate IsHexDigit(c: CodePoint, v: int) {
    (0 <= v <= 9 && c as int == '0' as int + v) || (10 <= v <= 15 && c as int == 'a' as int + (v - 10))
  }

  ghost predicate HexDigits(t: Text.Str, a: int, b: int, x: int, y: int, u: CodePoint) {
    && |t| == 6 && IsHexDigit(t[2], a) && IsHexDigit(t[3], b) && IsHexDigit(t[4], x) && IsHexDigit(t[5], y)
    && u as int == a * 4096 + b * 256 + x * 16 + y
  }

  /** `t` is `\u` and the four digits of `u`. */
  ghost predicate WritesUnit(t: Text.Str, u: CodePoint) {
    |t| == 6 && t[..2] == Ascii("\\u") && exists a, b, x, y :: HexDigits(t, a, b, x, y, u)
  }

  lemma {:induction false} HexDigitIs(v: int)
    requires 0 <= v < 16
    ensures IsHexDigit(HexDigit(v), v)
  {
  }

  lemma {:induction false} UnitIsWritten(u: CodePoint)
    requires u < 0x10000
    ensures WritesUnit(EscapeUnit(u), u)
  {
    var n := u as int;
    HexDigitIs(n / 4096);
    HexDigitIs(n / 256 % 16);
    HexDigitIs(n / 16 % 16);
    HexDigitIs(n % 16);
    assert n / 256 == n / 4096 * 16 + n / 256 % 16 by { assert n / 4096 == n / 256 / 16; }
    assert n / 16 == n / 256 * 16 + n / 16 % 16 by { assert n / 256 == n / 16 / 16; }
    assert EscapeUnit(u)[..2] == Ascii("\\u");
    assert HexDigits(EscapeUnit(u), n / 4096, n / 256 % 16, n / 16 % 16, n % 16, u);
  }

  // The bytes

  /** Section 3 of RFC 3629: how many bytes, the range of each, and the code point they add up to. */
  ghost predicate IsUtf8(b: seq<Byte>, n: int) {
    if n <= 0x7F then |b| == 1 && b[0] as int == n
    else if n <= 0x7FF then |b| == 2 && 0xC2 <= b[0] <= 0xDF && Continuation(b[1]) && n == (b[0] as int - 0xC0) * 64 + Payload(b[1])
    else if n <= 0xFFFF then
      && |b| == 3 && 0xE0 <= b[0] <= 0xEF && Continuation(b[1]) && Continuation(b[2])
      && n == (b[0] as int - 0xE0) * 4096 + Payload(b[1]) * 64 + Payload(b[2])
    else
      && |b| == 4 && 0xF0 <= b[0] <= 0xF4 && Continuation(b[1]) && Continuation(b[2]) && Continuation(b[3])
      && n == (b[0] as int - 0xF0) * 262144 + Payload(b[1]) * 4096 + Payload(b[2]) * 64 + Payload(b[3])
  }

  lemma {:induction false} PayloadIs(v: int)
    requires 0 <= v < 64
    ensures Continuation((0x80 + v) as Byte) && Payload((0x80 + v) as Byte) == v
  {
  }

  lemma {:induction false} Utf8Is(c: CodePoint)
    requires Scalar(c)
    ensures IsUtf8(EncodeChar(c), c as int)
  {
    var n := c as int;
    Sextets(n);
    PayloadIs(n % 64);
    PayloadIs(n / 64 % 64);
    PayloadIs(n / 4096 % 64);
  }

  /** The low six bits of a continuation byte. */
  function Payload(b: Byte): int {
    b as int % 64
  }

  // The digits

  /** The URL-safe alphabet: capital letters, small letters, digits, hyphen, underscore. */
  ghost predicate IsDigit64(c: CodePoint, v: int) {
    || (0 <= v <= 25 && c as int == 'A' as int + v)
    || (26 <= v <= 51 && c as int == 'a' as int + (v - 26))
    || (52 <= v <= 61 && c as int == '0' as int + (v - 52))
    || (v == 62 && c as int == '-' as int)
    || (v == 63 && c as int == '_' as int)
  }

  lemma {:induction false} Digit64Is(v: Base64.Sextet)
    ensures IsDigit64(Base64.Digit(v), v)
  {
  }

  ghost predicate AreDigits(t: Text.Str, vs: seq<int>) {
    |t| == |vs| && forall i :: 0 <= i < |t| ==> IsDigit64(t[i], vs[i])
  }

  /** `t` is written with the digits of `n`, most significant first. */
  ghost predicate Writes(t: Text.Str, n: int) {
    exists vs: seq<int> :: AreDigits(t, vs) && n == Number(vs)
  }

  function Number(vs: seq<int>): int {
    if vs == [] then 0 else Number(vs[..|vs| - 1]) * 64 + vs[|vs| - 1]
  }

  lemma {:induction false} NumberOfTwo(p: int, q: int)
    ensures Number([p, q]) == p * 64 + q
  {
    assert [p, q][..1] == [p] && [p][..0] == [];
    assert Number([]) == 0 && Number([p]) == p;
  }

  lemma {:induction false} NumberOfThree(p: int, q: int, r: int)
    ensures Number([p, q, r]) == (p * 64 + q) * 64 + r
  {
    NumberOfTwo(p, q);
    assert [p, q, r][..2] == [p, q];
  }

  lemma {:induction false} NumberOfFour(p: int, q: int, r: int, s: int)
    ensures Number([p, q, r, s]) == ((p * 64 + q) * 64 + r) * 64 + s
  {
    NumberOfThree(p, q, r);
    assert [p, q, r, s][..3] == [p, q, r];
  }

  lemma {:induction false} ByteParts(x: int)
    requires 0 <= x < 256
    ensures x == x / 4 * 4 + x % 4 == x / 16 * 16 + x % 16 == x / 64 * 64 + x % 64
  {
  }

  /** Section 4 of RFC 4648: a group of digits is the number its bytes are, with zero bits at the end where it is short. */
  lemma {:induction false} Group1Is(x: Byte)
    ensures Writes(Base64.Group1(x), x as int * 16)
  {
    var p, q := x as int / 4, x as int % 4 * 16;
    Digit64Is(p);
    Digit64Is(q);
    ByteParts(x as int);
    NumberOfTwo(p, q);
    assert AreDigits(Base64.Group1(x), [p, q]);
  }

  lemma {:induction false} Group2Is(x: Byte, y: Byte)
    ensures Writes(Base64.Group2(x, y), (x as int * 256 + y as int) * 4)
  {
    var p, q, r := x as int / 4, x as int % 4 * 16 + y as int / 16, y as int % 16 * 4;
    Digit64Is(p);
    Digit64Is(q);
    Digit64Is(r);
    ByteParts(x as int);
    ByteParts(y as int);
    NumberOfThree(p, q, r);
    assert AreDigits(Base64.Group2(x, y), [p, q, r]);
  }

  lemma {:induction false} Group3Is(x: Byte, y: Byte, z: Byte)
    ensures Writes(Base64.Group3(x, y, z), (x as int * 256 + y as int) * 256 + z as int)
  {
    var p, q, r, s := x as int / 4, x as int % 4 * 16 + y as int / 16, y as int % 16 * 4 + z as int / 64, z as int % 64;
    Digit64Is(p);
    Digit64Is(q);
    Digit64Is(r);
    Digit64Is(s);
    ByteParts(x as int);
    ByteParts(y as int);
    ByteParts(z as int);
    NumberOfFour(p, q, r, s);
    assert AreDigits(Base64.Group3(x, y, z), [p, q, r, s]);
  }

  lemma {:induction false} EncodedLength(b: seq<Byte>)
    ensures |Base64.Encode(b)| == (|b| + 2) / 3 * 4
    decreases |b|
  {
    if |b| >= 3 {
      EncodedLength(b[3..]);
    }
  }

  /** What follows the first `i` groups is the encoding of the bytes after them. */
  lemma {:induction false} AfterGroups(b: seq<Byte>, i: nat)
    requires 3 * i <= |b|
    ensures 4 * i <= |Base64.Encode(b)| && Base64.Encode(b)[4 * i..] == Base64.Encode(b[3 * i..])
    decreases |b|
  {
    if i > 0 {
      var rest := Base64.Encode(b[3..]);
      AfterGroups(b[3..], i - 1);
      assert b[3..][3 * (i - 1)..] == b[3 * i..];
      assert Base64.Encode(b)[4 * i..] == rest[4 * (i - 1)..];
    } else {
      assert b[0..] == b && Base64.Encode(b)[0..] == Base64.Encode(b);
    }
  }

  /** The digits at every whole group, and those at the end, are the digits of the bytes there. */
  lemma {:induction false} EncodedGroups(b: seq<Byte>, i: nat)
    requires 3 * i < |b|
    ensures |Base64.Encode(b)| == (|b| + 2) / 3 * 4
    ensures 3 * i + 3 <= |b| ==> Base64.Encode(b)[4 * i..4 * i + 4] == Base64.Group3(b[3 * i], b[3 * i + 1], b[3 * i + 2])
    ensures 3 * i + 2 == |b| ==> Base64.Encode(b)[4 * i..] == Base64.Group2(b[3 * i], b[3 * i + 1]) + Ascii("=")
    ensures 3 * i + 1 == |b| ==> Base64.Encode(b)[4 * i..] == Base64.Group1(b[3 * i]) + Ascii("==")
  {
    assert Ascii("=") == [Base64.PAD] && Ascii("==") == [Base64.PAD, Base64.PAD];
    EncodedLength(b);
    AfterGroups(b, i);
    var t := Base64.Encode(b);
    if 3 * i + 3 <= |b| {
      assert t[4 * i..4 * i + 4] == t[4 * i..][..4];
    }
  }

  // The members a decoder accepts

  /** The last of equal keys. */
  lemma {:induction false} GetIsLast(ms: seq<(Text.Str, Json)>, k: Text.Str, i: nat)
    requires i < |ms| && ms[i].0 == k && forall j :: i < j < |ms| ==> ms[j].0 != k
    ensures GetOrNull(ms, k) == ms[i].1
    decreases |ms|
  {
    if i < |ms| - 1 {
      GetIsLast(ms[..|ms| - 1], k, i);
    }
  }

  lemma {:induction false} GetAbsent(ms: seq<(Text.Str, Json)>, k: Text.Str)
    requires forall j :: 0 <= j < |ms| ==> ms[j].0 != k
    ensures GetOrNull(ms, k) == Null
    decreases |ms|
  {
    if ms != [] {
      GetAbsent(ms[..|ms| - 1], k);
    }
  }

  /** Exactly the members that are those of an accepted cursor, a missing or null position meaning none. */
  lemma {:induction false} DecodesIff(ms: seq<(Text.Str, Json)>, d: Details)
    ensures DecodeMembers(ms) == Ok(d) <==>
            && Accepted(d)
            && GetOrNull(ms, Ascii("e")) == Int(d.eventId)
            && GetOrNull(ms, Ascii("r")) == Bool(d.reverse)
            && GetOrNull(ms, Ascii("o")) == (if d.observedAt.Some? then Str(d.observedAt.value) else Null)
            && GetOrNull(ms, Ascii("b")) == (if d.byteStart.Some? then Int(d.byteStart.value) else Null)
  {
    assert Ascii("e") == KEY_E && Ascii("r") == KEY_R && Ascii("o") == KEY_O && Ascii("b") == KEY_B;
  }

  // The tokens a decoder accepts

  /** A token character counts when it is a digit of the URL-safe alphabet, or `+` or `/` of the standard one. */
  lemma {:induction false} ValueIff(c: CodePoint, v: Base64.Sextet)
    ensures Base64.Value(c) == Some(v) <==>
            IsDigit64(c, v) || (v == 62 && c as int == '+' as int) || (v == 63 && c as int == '/' as int)
  {
  }

  /** Any other character of a token is skipped. */
  lemma {:induction false} OthersSkipped(a: Text.Str, c: CodePoint, b: Text.Str, pos: nat, left: nat, pads: nat)
    requires pos < 4 && (pos == 1 ==> left < 64) && (pos == 2 ==> left < 16) && (pos == 3 ==> left < 4)
    requires c != Base64.PAD && Base64.Value(c).None?
    ensures Base64.DecodeFrom(a + [c] + b, pos, left, pads) == Base64.DecodeFrom(a + b, pos, left, pads)
    decreases |a|
  {
    if a == [] {
      assert a + [c] + b == [c] + b && a + b == b;
    } else {
      var rest := a[1..];
      assert (a + [c] + b)[1..] == rest + [c] + b && (a + b)[1..] == rest + b;
      if a[0] == Base64.PAD {
        OthersSkipped(rest, c, b, pos, left, if pos >= 2 then pads + 1 else pads);
      } else if Base64.Value(a[0]).None? {
        OthersSkipped(rest, c, b, pos, left, pads);
      } else {
        var v := Base64.Value(a[0]).value;
        var next := if pos == 0 then v else if pos == 1 then v % 16 else if pos == 2 then v % 4 else 0;
        OthersSkipped(rest, c, b, (pos + 1) % 4, next, 0);
      }
    }
  }

  /** A token is accepted exactly when its bytes are the ASCII text of a JSON object with the members of an accepted cursor. */
  lemma {:induction false} TokenAccepted(token: Text.Str, d: Details)
    ensures DecodeCursor(token) == Ok(d) <==>
            && token != [] && (forall i :: 0 <= i < |token| ==> token[i] as int <= 127)
            && var raw := Base64.Decode(Base64.Restored(token));
            && raw.Some? && (forall i :: 0 <= i < |raw.value| ==> raw.value[i] as int <= 127)
            && var json := Loads(AsciiText(raw.value));
            json.Some? && json.value.Obj? && DecodeMembers(json.value.members) == Ok(d)
  {
    assert token != [] ==> (IsAscii(token) <==> forall i :: 0 <= i < |token| ==> token[i] as int <= 127);
    var raw := Base64.Decode(Base64.Restored(token));
    if raw.Some? {
      assert AllAscii(raw.value) <==> forall i :: 0 <= i < |raw.value| ==> raw.value[i] as int <= 127;
    }
  }

  /** A `\u` escape is read with digits of either case. */
  lemma {:induction false} HexValueIff(c: CodePoint, v: int)
    ensures HexValue(c) == Some(v) <==> IsHexDigit(c, v) || (10 <= v <= 15 && c as int == 'A' as int + (v - 10))
  {
  }

  /** Spaces, tabs and line ends before a JSON text are skipped, and nothing else is. */
  lemma {:induction false} BlanksSkipped(c: CodePoint, s: Text.Str)
    ensures c as int == ' ' as int || c as int == '\t' as int || c as int == '\n' as int || c as int == '\r' as int ==>
              Loads([c] + s) == Loads(s)
    ensures !Blank(c) ==> SkipBlanks([c] + s) == [c] + s
  {
    assert ([c] + s)[1..] == s;
  }
}
