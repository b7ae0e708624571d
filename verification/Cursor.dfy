/**
 The pagination cursor: two decimal numbers around a colon, in unpadded base64url (section 5 of
 RFC 4648). Strings are sequences of bytes, times are Unix nanoseconds.
 */
module Cursor {
  import opened Options

  type byte = b: int | 0 <= b < 256

  type Text = seq<byte>

  const TWO_63 := 0x8000_0000_0000_0000
  const TWO_64 := 0x1_0000_0000_0000_0000

  predicate IsInt64(n: int) {
    -TWO_63 <= n < TWO_63
  }

  /** The value a 64-bit integer holds after arithmetic that overflows. */
  function Wrap64(n: int): (w: int)
    ensures IsInt64(w) && (IsInt64(n) <==> w == n)
  {
    (n + TWO_63) % TWO_64 - TWO_63
  }

  const COLON: byte := ':' as byte
  const MINUS: byte := '-' as byte
  const PLUS: byte := '+' as byte
  const ZERO: byte := '0' as byte

  // ---------------------------------------------------------------- decimal numbers

  function Digits(n: nat): Text {
    if n < 10 then [ZERO + n] else Digits(n / 10) + [ZERO + n % 10]
  }

  function FormatInt(n: int): Text {
    if n < 0 then [MINUS] + Digits(-n) else Digits(n)
  }

  predicate IsDigit(b: byte) {
    ZERO <= b < ZERO + 10
  }

  predicate AllDigits(s: Text) {
    forall i | 0 <= i < |s| :: IsDigit(s[i])
  }

  /** The value of a string of digits read from the left. */
  function Value(s: Text): nat
    requires AllDigits(s)
  {
    if s == [] then 0
    else
      assert IsDigit(s[|s| - 1]);
      10 * Value(s[..|s| - 1]) + (s[|s| - 1] - ZERO)
  }

  function ParseUint(s: Text): Option<nat> {
    if s == [] || !AllDigits(s) then None else Some(Value(s))
  }

  /** An optional sign, at least one digit, and a value that fits 64 bits. */
  function ParseInt(s: Text): (n: Option<int>)
    ensures n.Some? ==> IsInt64(n.value)
  {
    if s == [] then None
    else
      var negative := s[0] == MINUS;
      var magnitude := ParseUint(if s[0] == MINUS || s[0] == PLUS then s[1..] else s);
      if magnitude.None? then None
      else if !negative && magnitude.value >= TWO_63 then None
      else if negative && magnitude.value > TWO_63 then None
      else if negative then Some(0 - magnitude.value) else Some(magnitude.value)
  }

  lemma {:induction false} DigitsHaveValue(n: nat)
    ensures Digits(n) != [] && AllDigits(Digits(n)) && Value(Digits(n)) == n
  {
    if n >= 10 {
      DigitsHaveValue(n / 10);
      assert Digits(n)[..|Digits(n)| - 1] == Digits(n / 10);
    }
  }

  lemma ParseFormats(n: int)
    requires IsInt64(n)
    ensures ParseInt(FormatInt(n)) == Some(n)
  {
    var magnitude := if n < 0 then -n else n;
    DigitsHaveValue(magnitude);
    var digits := Digits(magnitude);
    assert IsDigit(digits[0]);
    if n < 0 { assert FormatInt(n)[1..] == digits; }
  }

  ghost predicate IsNumeral(s: Text, sign: Text, digits: Text, n: int) {
    && s == sign + digits && digits != [] && (forall i | 0 <= i < |digits| :: '0' <= digits[i] as char <= '9')
    && (if sign == ['-' as byte] then n == 0 - Value(digits)
        else (sign == [] || sign == ['+' as byte]) && n == Value(digits))
  }

  /** Exactly the numerals with at most one sign and a value that fits 64 bits are read, each as its value. */
  lemma ReadsExactlyNumerals(s: Text, n: int)
    ensures ParseInt(s) == Some(n) <==> IsInt64(n) && exists sign, digits :: IsNumeral(s, sign, digits, n)
  {
    if ParseInt(s) == Some(n) {
      var signed := s[0] == MINUS || s[0] == PLUS;
      var sign, digits := if signed then [s[0]] else [], if signed then s[1..] else s;
      assert forall i | 0 <= i < |digits| :: IsDigit(digits[i]);
      assert s == sign + digits;
      assert IsNumeral(s, sign, digits, n);
    }
    if sign, digits :| IsInt64(n) && IsNumeral(s, sign, digits, n) {
      assert AllDigits(digits);
      if sign == [] { assert s == digits && IsDigit(s[0]); } else { assert s[1..] == digits; }
    }
  }

  lemma {:induction false} DigitsBeginWell(n: nat)
    ensures n > 0 ==> Digits(n)[0] != ZERO
    ensures Digits(0) == [ZERO]
  {
    if n >= 10 { DigitsBeginWell(n / 10); }
  }

  /** A number is printed with a minus exactly if it is negative, and without leading zeros. */
  lemma NumbersAreCanonical(n: int)
    ensures var s := FormatInt(n);
            && (n < 0 ==> |s| > 1 && s[0] == '-' as byte && s[1] != '0' as byte)
            && (n == 0 ==> s == ['0' as byte])
            && (n > 0 ==> s != [] && s[0] != '-' as byte && s[0] != '0' as byte)
  {
    var magnitude := if n < 0 then -n else n;
    DigitsHaveValue(magnitude);
    DigitsBeginWell(magnitude);
    assert IsDigit(Digits(magnitude)[0]);
  }

  // ---------------------------------------------------------------- base64url without padding

  function Symbol(v: int): byte
    requires 0 <= v < 64
  {
    if v < 26 then 65 + v else if v < 52 then 97 + v - 26 else if v < 62 then 48 + v - 52
    else if v == 62 then 45 else 95
  }

  /** The alphabet of table 2 of RFC 4648: upper case, lower case, digits, a hyphen and an underscore. */
  lemma SymbolsAreTheAlphabet(v: int)
    requires 0 <= v < 64
    ensures 0 <= v < 26 ==> Symbol(v) == 'A' as int + v
    ensures 26 <= v < 52 ==> Symbol(v) == 'a' as int + (v - 26)
    ensures 52 <= v < 62 ==> Symbol(v) == '0' as int + (v - 52)
    ensures v == 62 ==> Symbol(v) == '-' as int
    ensures v == 63 ==> Symbol(v) == '_' as int
  {
  }

  function SymbolValue(b: byte): (v: Option<int>)
    ensures v.Some? ==> 0 <= v.value < 64
  {
    if 65 <= b <= 90 then Some(b - 65)
    else if 97 <= b <= 122 then Some(b - 97 + 26)
    else if 48 <= b <= 57 then Some(b - 48 + 52)
    else if b == 45 then Some(62)
    else if b == 95 then Some(63)
    else None
  }

  type Sextet = v: int | 0 <= v < 64

  /** The bytes in pieces of six bits; one or two bytes at the end are filled up with zeros. */
  function Sextets(s: Text): seq<Sextet> {
    if s == [] then []
    else if |s| == 1 then [s[0] / 4, s[0] % 4 * 16]
    else if |s| == 2 then [s[0] / 4, s[0] % 4 * 16 + s[1] / 16, s[1] % 16 * 4]
    else [s[0] / 4, s[0] % 4 * 16 + s[1] / 16, s[1] % 16 * 4 + s[2] / 64, s[2] % 64] + Sextets(s[3..])
  }

  function FirstByte(a: Sextet, b: Sextet): byte {
    a * 4 + b / 16
  }

  function SecondByte(b: Sextet, c: Sextet): byte {
    b % 16 * 16 + c / 4
  }

  function ThirdByte(c: Sextet, d: Sextet): byte {
    c % 4 * 64 + d
  }

  /** Four pieces make three bytes; two or three at the end make one or two, their spare bits ignored. */
  function Octets(v: seq<Sextet>): Text {
    if |v| < 2 then []
    else if |v| == 2 then [FirstByte(v[0], v[1])]
    else if |v| == 3 then [FirstByte(v[0], v[1]), SecondByte(v[1], v[2])]
    else [FirstByte(v[0], v[1]), SecondByte(v[1], v[2]), ThirdByte(v[2], v[3])] + Octets(v[4..])
  }

  function Encode64(s: Text): Text {
    var sextets := Sextets(s);
    seq(|sextets|, i requires 0 <= i < |sextets| => Symbol(sextets[i]))
  }

  /** The decoder passes over line breaks. */
  function WithoutBreaks(s: Text): Text {
    if s == [] then []
    else if s[0] == 10 || s[0] == 13 then WithoutBreaks(s[1..]) else [s[0]] + WithoutBreaks(s[1..])
  }

  predicate AllSymbols(s: Text) {
    forall i | 0 <= i < |s| :: SymbolValue(s[i]).Some?
  }

  function Values(s: Text): seq<Sextet>
    requires AllSymbols(s)
  {
    seq(|s|, i requires 0 <= i < |s| => SymbolValue(s[i]).value)
  }

  /** A text of symbols, with no single one left over. */
  function Decode64(s: Text): Option<Text> {
    if !AllSymbols(s) || |s| % 4 == 1 then None else Some(Octets(Values(s)))
  }

  lemma EncodingHasNoBreaks(s: Text)
    ensures WithoutBreaks(Encode64(s)) == Encode64(s)
  {
    KeepsAll(Encode64(s));
  }

  lemma {:induction false} KeepsAll(symbols: Text)
    requires forall i | 0 <= i < |symbols| :: symbols[i] != 10 && symbols[i] != 13
    ensures WithoutBreaks(symbols) == symbols
    decreases |symbols|
  {
    if symbols != [] { KeepsAll(symbols[1..]); }
  }

  lemma SymbolsDecode(v: int)
    requires 0 <= v < 64
    ensures SymbolValue(Symbol(v)) == Some(v)
  {
  }

  /** No other byte has a value. */
  lemma OnlySymbolsHaveValues(b: byte, v: int)
    ensures SymbolValue(b) == Some(v) <==> 0 <= v < 64 && Symbol(v) == b
  {
  }

  lemma SymbolsComeBack(s: Text)
    ensures AllSymbols(Encode64(s)) && Values(Encode64(s)) == Sextets(s)
  {
    var sextets := Sextets(s);
    forall i | 0 <= i < |sextets|
      ensures SymbolValue(Encode64(s)[i]) == Some(sextets[i])
    {
      SymbolsDecode(sextets[i]);
    }
  }

  lemma BytesComeBack(x: byte, y: byte, z: byte)
    ensures FirstByte(x / 4, x % 4 * 16) == x && FirstByte(x / 4, x % 4 * 16 + y / 16) == x
    ensures SecondByte(x % 4 * 16 + y / 16, y % 16 * 4) == y
            && SecondByte(x % 4 * 16 + y / 16, y % 16 * 4 + z / 64) == y
    ensures ThirdByte(y % 16 * 4 + z / 64, z % 64) == z
  {
  }

  /** The pieces hold the bytes, three in four of them. */
  predicate Pack(v: seq<Sextet>, s: Text) {
    if s == [] then v == []
    else if |s| == 1 then |v| == 2 && FirstByte(v[0], v[1]) == s[0]
    else if |s| == 2 then |v| == 3 && FirstByte(v[0], v[1]) == s[0] && SecondByte(v[1], v[2]) == s[1]
    else && |v| >= 4 && FirstByte(v[0], v[1]) == s[0] && SecondByte(v[1], v[2]) == s[1]
         && ThirdByte(v[2], v[3]) == s[2] && Pack(v[4..], s[3..])
  }

  lemma {:induction false} SextetsPack(s: Text)
    ensures Pack(Sextets(s), s)
    decreases |s|
  {
    if s != [] { BytesComeBack(s[0], if |s| > 1 then s[1] else 0, if |s| > 2 then s[2] else 0); }
    if |s| > 2 {
      SextetsPack(s[3..]);
      assert Sextets(s)[4..] == Sextets(s[3..]);
    }
  }

  lemma {:induction false} PackedComesBack(v: seq<Sextet>, s: Text)
    requires Pack(v, s)
    ensures |v| % 4 != 1 && Octets(v) == s
    decreases |s|
  {
    if |s| > 2 {
      PackedComesBack(v[4..], s[3..]);
      ThreeAndRest(s);
    }
  }

  lemma ThreeAndRest(s: Text)
    requires |s| > 2
    ensures s == [s[0], s[1], s[2]] + s[3..]
  {
  }

  lemma DecodeEncodes(s: Text)
    ensures Decode64(Encode64(s)) == Some(s)
  {
    SymbolsComeBack(s);
    SextetsPack(s);
    PackedComesBack(Sextets(s), s);
  }

  // ---------------------------------------------------------------- the cursor

  /** The text before and after the first colon. */
  function CutAtColon(s: Text): Option<(Text, Text)> {
    if s == [] then None
    else if s[0] == COLON then Some(([], s[1..]))
    else
      var rest := CutAtColon(s[1..]);
      if rest.None? then None else Some(([s[0]] + rest.value.0, rest.value.1))
  }

  function EncodeCursor(at: int, id: int): Text {
    Encode64(FormatInt(Wrap64(at)) + [COLON] + FormatInt(id))
  }

  function DecodeCursor(cursor: Text): Option<(int, int)> {
    var raw := Decode64(WithoutBreaks(cursor));
    if raw.None? then None
    else
      var parts := CutAtColon(raw.value);
      if parts.None? then None
      else
        var at, id := ParseInt(parts.value.0), ParseInt(parts.value.1);
        if at.None? || id.None? then None else Some((at.value, id.value))
  }

  lemma {:induction false} CutFinds(before: Text, after: Text)
    requires COLON !in before
    ensures CutAtColon(before + [COLON] + after) == Some((before, after))
    decreases |before|
  {
    var s := before + [COLON] + after;
    if before == [] {
      assert s[1..] == after;
    } else {
      CutFinds(before[1..], after);
      assert s[1..] == before[1..] + [COLON] + after;
      assert before == [before[0]] + before[1..];
    }
  }

  lemma {:induction false} CutIsAtTheFirstColon(s: Text)
    ensures CutAtColon(s).Some? ==>
              var (before, after) := CutAtColon(s).value; COLON !in before && s == before + [COLON] + after
  {
    if s != [] && s[0] != COLON {
      CutIsAtTheFirstColon(s[1..]);
    }
  }

  /** A cursor is read exactly if it decodes to two numbers around a colon, and as those. */
  lemma CursorIsReadExactly(cursor: Text, at: int, id: int)
    ensures DecodeCursor(cursor) == Some((at, id)) <==>
              exists a, b :: COLON !in a && Decode64(WithoutBreaks(cursor)) == Some(a + [COLON] + b)
                          && ParseInt(a) == Some(at) && ParseInt(b) == Some(id)
  {
    var raw := Decode64(WithoutBreaks(cursor));
    if raw.Some? { CutIsAtTheFirstColon(raw.value); }
    if a, b :| COLON !in a && raw == Some(a + [COLON] + b) && ParseInt(a) == Some(at) && ParseInt(b) == Some(id) {
      CutFinds(a, b);
    }
  }

  /** A line break anywhere in a cursor is passed over. */
  lemma BreaksArePassedOver(a: Text, end: byte, b: Text)
    requires end == '\n' as byte || end == '\r' as byte
    ensures DecodeCursor(a + [end] + b) == DecodeCursor(a + b)
  {
    WithoutBreaksJoins(a + [end], b);
    WithoutBreaksJoins(a, [end]);
    WithoutBreaksJoins(a, b);
    assert WithoutBreaks([end]) == [] && WithoutBreaks(a) + [] == WithoutBreaks(a);
  }

  lemma {:induction false} WithoutBreaksJoins(a: Text, b: Text)
    ensures WithoutBreaks(a + b) == WithoutBreaks(a) + WithoutBreaks(b)
    decreases |a|
  {
    if a == [] {
      assert a + b == b;
    } else {
      WithoutBreaksJoins(a[1..], b);
      assert (a + b)[1..] == a[1..] + b;
    }
  }

  lemma NumbersHaveNoColon(n: int)
    ensures COLON !in FormatInt(n)
  {
    DigitsHaveValue(if n < 0 then -n else n);
  }

  /** What a cursor says comes back, the time as 64-bit nanoseconds hold it. */
  lemma CursorRoundTrip(at: int, id: int)
    requires IsInt64(id)
    ensures DecodeCursor(EncodeCursor(at, id)) == Some((Wrap64(at), id))
  {
    var nanos := FormatInt(Wrap64(at));
    var raw := nanos + [COLON] + FormatInt(id);
    EncodingHasNoBreaks(raw);
    DecodeEncodes(raw);
    NumbersHaveNoColon(Wrap64(at));
    CutFinds(nanos, FormatInt(id));
    ParseFormats(Wrap64(at));
    ParseFormats(id);
  }

  /** The cursor returns exactly the time and id of its event if and only if the time fits 64-bit nanoseconds. */
  lemma CursorIsExactForInt64Times(at: int, id: int)
    requires IsInt64(id)
    ensures DecodeCursor(EncodeCursor(at, id)) == Some((at, id)) <==> IsInt64(at)
  {
    CursorRoundTrip(at, id);
  }

  /** Two events with 64-bit times have the same cursor only if they have the same time and id. */
  lemma CursorsAreUnique(at: int, id: int, at': int, id': int)
    requires IsInt64(at) && IsInt64(id) && IsInt64(at') && IsInt64(id')
    requires EncodeCursor(at, id) == EncodeCursor(at', id')
    ensures at == at' && id == id'
  {
    CursorRoundTrip(at, id);
    CursorRoundTrip(at', id');
  }
}
