/** Bytes, C strings and the digit strings the address codec reads and writes. */
module CText {
  datatype Option<+T> = None | Some(value: T)

  type byte = x: int | 0 <= x < 256

  /** The characters of a C string before its terminating NUL. */
  type cstring = s: string | '\0' !in s

  predicate IsDec(c: char) {
    '0' <= c <= '9'
  }

  predicate IsHex(c: char) {
    IsDec(c) || 'a' <= c <= 'f' || 'A' <= c <= 'F'
  }

  /** The index of `c` in "0123456789abcdef", or else in "0123456789ABCDEF". */
  function HexDigit(c: char): (v: nat)
    requires IsHex(c)
    ensures v < 16
    ensures IsDec(c) <==> v < 10
  {
    if IsDec(c) then c as int - '0' as int
    else if 'a' <= c <= 'f' then c as int - 'a' as int + 10
    else c as int - 'A' as int + 10
  }

  predicate AllHex(d: string) {
    forall i :: 0 <= i < |d| ==> IsHex(d[i])
  }

  predicate AllDec(d: string) {
    forall i :: 0 <= i < |d| ==> IsDec(d[i])
  }

  /** The two bases in use. */
  type base = b: nat | b == 10 || b == 16 witness 10

  function Times(v: nat, b: base): nat {
    if b == 10 then 10 * v else 16 * v
  }

  function Quotient(v: nat, b: base): (q: nat)
    ensures v >= b ==> 0 < q < v
  {
    if b == 10 then v / 10 else v / 16
  }

  function Remainder(v: nat, b: base): (r: nat)
    ensures r < b && Times(Quotient(v, b), b) + r == v
  {
    if b == 10 then v % 10 else v % 16
  }

  /** The number a digit string denotes in the given base. */
  function Value(d: string, b: base): (v: nat)
    requires AllHex(d)
  {
    if d == "" then 0 else Times(Value(d[..|d| - 1], b), b) + HexDigit(d[|d| - 1])
  }

  lemma ValueSnoc(d: string, c: char, b: base)
    requires AllHex(d) && IsHex(c)
    ensures AllHex(d + [c])
    ensures Value(d + [c], b) == Times(Value(d, b), b) + HexDigit(c)
  {
    assert (d + [c])[..|d|] == d;
  }

  lemma AllHexParts(d: string, e: string)
    requires AllHex(d + e)
    ensures AllHex(d) && AllHex(e)
  {
    assert forall i :: 0 <= i < |d| ==> d[i] == (d + e)[i];
    assert forall i :: 0 <= i < |e| ==> e[i] == (d + e)[|d| + i];
  }

  /** Every prefix denotes a number no larger than the whole. */
  lemma {:induction false} ValuePrefix(d: string, e: string, b: base)
    requires AllHex(d + e)
    ensures AllHex(d) && AllHex(e)
    ensures Value(d, b) <= Value(d + e, b)
  {
    AllHexParts(d, e);
    if e == "" {
      assert d + e == d;
    } else {
      var e', c := e[..|e| - 1], e[|e| - 1];
      assert d + e == (d + e') + [c];
      AllHexParts(d + e', [c]);
      ValuePrefix(d, e', b);
      ValueSnoc(d + e', c, b);
    }
  }

  // ----- printing: the "%x" and "%u" conversions -----

  function DigitChar(v: nat): (c: char)
    requires v < 16
    ensures IsHex(c) && HexDigit(c) == v && !('A' <= c <= 'F')
    ensures v < 10 ==> IsDec(c)
  {
    if v < 10 then '0' + v as char else 'a' + (v - 10) as char
  }

  /** The shortest lower-case numeral of `v`. */
  function Numeral(v: nat, b: base): (d: string)
    ensures d != "" && AllHex(d) && (b == 10 ==> AllDec(d))
  {
    if v < b then [DigitChar(v)] else Numeral(Quotient(v, b), b) + [DigitChar(Remainder(v, b))]
  }

  /** No upper case, no leading zero, digits below the base. */
  predicate IsNumeral(d: string, b: base) {
    && d != ""
    && AllHex(d)
    && (forall i :: 0 <= i < |d| ==> HexDigit(d[i]) < b && !('A' <= d[i] <= 'F'))
    && (|d| > 1 ==> d[0] != '0')
  }

  lemma NumeralSnoc(d: string, c: char, b: base)
    requires IsNumeral(d, b) && d[0] != '0'
    requires IsHex(c) && HexDigit(c) < b && !('A' <= c <= 'F')
    ensures IsNumeral(d + [c], b)
  {
    hide HexDigit, IsHex;
    var e := d + [c];
    forall i | 0 <= i < |e| ensures IsHex(e[i]) && HexDigit(e[i]) < b && !('A' <= e[i] <= 'F') {
      assert e[i] == if i < |d| then d[i] else c;
    }
  }

  lemma {:induction false} NumeralValue(v: nat, b: base)
    ensures Value(Numeral(v, b), b) == v
    ensures IsNumeral(Numeral(v, b), b)
    ensures v > 0 ==> Numeral(v, b)[0] != '0'
  {
    hide HexDigit, Remainder, Quotient, Times, IsHex, IsNumeral, Value, AllHex, AllDec;
    if v < b {
      DigitNumeral(v, b);
    } else {
      var q, r := Quotient(v, b), Remainder(v, b);
      var d, c := Numeral(q, b), DigitChar(r);
      NumeralValue(q, b);
      NonEmpty(d, b);
      ValueSnoc(d, c, b);
      NumeralSnoc(d, c, b);
    }
  }

  lemma DigitNumeral(v: nat, b: base)
    requires v < b
    ensures var d := [DigitChar(v)]; IsNumeral(d, b) && Value(d, b) == v && (v > 0 ==> d[0] != '0')
  {
    ValueSnoc("", DigitChar(v), b);
    assert "" + [DigitChar(v)] == [DigitChar(v)];
  }

  lemma NonEmpty(d: string, b: base)
    requires IsNumeral(d, b)
    ensures d != "" && AllHex(d)
  {
    hide IsHex, HexDigit;
  }

  lemma DivMod(q: nat, r: nat, b: base)
    requires r < b
    ensures Quotient(Times(q, b) + r, b) == q && Remainder(Times(q, b) + r, b) == r
  {
  }

  /** A numeral without leading zeros is determined by its value. */
  lemma {:induction false} NumeralUnique(d: string, b: base)
    requires IsNumeral(d, b)
    ensures Numeral(Value(d, b), b) == d
    ensures d[0] != '0' ==> Value(d, b) > 0
  {
    hide HexDigit, Remainder, Quotient, Times, DigitChar, IsHex, IsNumeral, Numeral, Value, AllHex, AllDec;
    LastDigit(d, b);
    if |d| == 1 {
      OneDigitNumeral(d, b);
    } else {
      NumeralFront(d, b);
      NumeralUnique(d[..|d| - 1], b);
      NumeralGrows(Value(d[..|d| - 1], b), d[|d| - 1], b);
    }
  }

  lemma LastDigit(d: string, b: base)
    requires IsNumeral(d, b)
    ensures d != "" && d == d[..|d| - 1] + [d[|d| - 1]]
    ensures AllHex(d[..|d| - 1]) && IsHex(d[|d| - 1]) && HexDigit(d[|d| - 1]) < b
    ensures Value(d, b) == Times(Value(d[..|d| - 1], b), b) + HexDigit(d[|d| - 1])
    ensures DigitChar(HexDigit(d[|d| - 1])) == d[|d| - 1]
  {
    DigitOfChar(d[|d| - 1]);
    hide HexDigit, IsHex, DigitChar, Times;
  }

  lemma OneDigitNumeral(d: string, b: base)
    requires IsNumeral(d, b) && |d| == 1
    ensures Numeral(Value(d, b), b) == d
    ensures d[0] != '0' ==> Value(d, b) > 0
  {
    LastDigit(d, b);
    DigitOfChar(d[0]);
    hide HexDigit, IsHex, DigitChar;
  }

  lemma NumeralFront(d: string, b: base)
    requires IsNumeral(d, b) && |d| > 1
    ensures IsNumeral(d[..|d| - 1], b) && d[..|d| - 1][0] == d[0] != '0'
  {
    hide HexDigit, IsHex;
  }

  /** Appending a digit to a numeral of a positive number. */
  lemma NumeralGrows(v: nat, c: char, b: base)
    requires v > 0 && IsHex(c) && HexDigit(c) < b && DigitChar(HexDigit(c)) == c
    ensures Numeral(Times(v, b) + HexDigit(c), b) == Numeral(v, b) + [c]
    ensures Times(v, b) + HexDigit(c) > 0
  {
    DivMod(v, HexDigit(c), b);
    assert Times(v, b) >= b;
    hide HexDigit, Remainder, Quotient, DigitChar, IsHex, AllHex, AllDec, Times;
  }

  lemma DigitOfChar(c: char)
    requires IsHex(c) && !('A' <= c <= 'F')
    ensures DigitChar(HexDigit(c)) == c
    ensures c != '0' ==> HexDigit(c) > 0
  {
  }

  /** The longest numerals of a 16-bit word and of a byte. */
  lemma NumeralShort(v: nat)
    ensures v <= 0xffff ==> |Numeral(v, 16)| <= 4
    ensures v <= 255 ==> |Numeral(v, 10)| <= 3
  {
    if v <= 0xffff { NumeralLength(v, 16, 4); }
    if v <= 255 { NumeralLength(v, 10, 3); }
  }

  function Power(b: base, k: nat): nat {
    if k == 0 then 1 else Times(Power(b, k - 1), b)
  }

  lemma {:induction false} NumeralLength(v: nat, b: base, k: nat)
    requires 1 <= k && v < Power(b, k)
    ensures |Numeral(v, b)| <= k
  {
    if v >= b {
      assert Power(b, 1) == b;
      NumeralLength(Quotient(v, b), b, k - 1);
    }
  }

  // ----- joining pieces with a separator -----

  function Join(parts: seq<string>, sep: char): string {
    if parts == [] then ""
    else if |parts| == 1 then parts[0]
    else parts[0] + [sep] + Join(parts[1..], sep)
  }
}
