/**
 * The codec character by character and byte by byte: what a digit, a digit string and
 * the case of a text mean, which zeros are elided, and when a dotted quad is printed.
 */
module InetMeaning {
  import opened CText
  import opened Ipv6Spelling
  import opened InetPton
  import opened InetRecognition
  import opened InetCompleteness
  import opened InetNtop

  // ----- digits -----

  /** The two tables in which inet_pton6 looks a character up. */
  lemma DigitTables(c: char, i: nat)
    requires i < 16
    ensures "0123456789abcdef"[i] == c || "0123456789ABCDEF"[i] == c <==> IsHex(c) && HexDigit(c) == i
    ensures "0123456789"[i % 10] == c && i < 10 <==> IsDec(c) && HexDigit(c) == i
  {
  }

  lemma TimesBase(v: nat, b: base)
    ensures Times(v, b) == v * b
  {
  }

  /** A digit string is read by position, the most significant digit first. */
  lemma {:induction false} ValueAppend(d: string, e: string, b: base)
    requires AllHex(d) && AllHex(e)
    ensures AllHex(d + e) && Value(d + e, b) == Value(d, b) * Power(b, |e|) + Value(e, b)
    decreases |e|
  {
    if e == "" {
      assert d + e == d;
    } else {
      var front, c := e[..|e| - 1], e[|e| - 1];
      ValueAppend(d, front, b);
      ValueSnoc(d + front, c, b);
      assert d + e == (d + front) + [c];
      TimesBase(Value(d + front, b), b);
      TimesBase(Value(front, b), b);
      Distribute(Value(d, b), Power(b, |front|), Value(front, b), b);
    }
  }

  lemma Distribute(v: nat, p: nat, w: nat, b: nat)
    ensures (v * p + w) * b == v * (b * p) + w * b
  {
  }

  /** One digit is worth its place in the table. */
  lemma ValueOfDigit(c: char, b: base)
    requires IsHex(c)
    ensures Value([c], b) == HexDigit(c)
  {
    assert [c] == "" + [c];
    ValueSnoc("", c, b);
  }

  /** Any one to four hex digits are a group. */
  lemma FourDigits(d: string)
    requires AllHex(d) && 1 <= |d| <= 4
    ensures IsGroup(d)
  {
    ValueBelow(d);
  }

  lemma {:induction false} ValueBelow(d: string)
    requires AllHex(d)
    ensures Value(d, 16) < Power(16, |d|)
    ensures Power(16, 4) == 0x10000 && Power(16, 3) == 0x1000 && Power(16, 2) == 0x100 && Power(16, 1) == 16
    decreases |d|
  {
    if d != "" {
      ValueBelow(d[..|d| - 1]);
    }
  }

  /** Leading zeros do not count, however many there are. */
  lemma LeadingZero(d: string, b: base)
    requires AllHex(d)
    ensures AllHex("0" + d) && Value("0" + d, b) == Value(d, b)
  {
    ValueOfDigit('0', b);
    ValueAppend("0", d, b);
  }

  /** Eight groups may be followed by one more colon. */
  lemma TrailingColon(groups: seq<string>)
    requires |groups| == 8 && AllGroups(groups)
    ensures Parse(Join(groups, ':') + ":") == Some(GroupBytes(groups))
  {
    hide Join, GroupBytes, AllGroups, Parse;
    var p := Phrase(AsItems(groups), Nothing);
    GroupItems(groups);
    assert ItemsBytes(p.items) + [] == GroupBytes(groups);
    assert "" + (ItemsText(p.items) + "") == Join(groups, ':') + ":";
    PhraseAccepted(p);
  }

  // ----- case -----

  function Lower(c: char): char {
    if 'A' <= c <= 'F' then (c as int - 'A' as int + 'a' as int) as char else c
  }

  function Lowered(s: string): (t: string)
    ensures |t| == |s| && forall i :: 0 <= i < |s| ==> t[i] == Lower(s[i])
  {
    seq(|s|, i requires 0 <= i < |s| => Lower(s[i]))
  }

  lemma LowerDigit(c: char)
    ensures IsHex(Lower(c)) <==> IsHex(c)
    ensures IsDec(Lower(c)) <==> IsDec(c)
    ensures IsHex(c) ==> HexDigit(Lower(c)) == HexDigit(c)
    ensures IsDec(c) || !IsHex(c) ==> Lower(c) == c
    ensures Lower(c) == ':' <==> c == ':'
    ensures Lower(c) == '.' <==> c == '.'
  {
  }

  lemma LoweredFirst(s: string)
    requires s != ""
    ensures Lowered(s)[0] == Lower(s[0]) && Lowered(s)[1..] == Lowered(s[1..])
  {
  }

  lemma LoweredAppend(s: string, t: string)
    ensures Lowered(s + t) == Lowered(s) + Lowered(t)
  {
  }

  lemma {:induction false} LoweredValue(d: string, b: base)
    requires AllHex(d)
    ensures AllHex(Lowered(d)) && Value(Lowered(d), b) == Value(d, b)
    decreases |d|
  {
    hide IsHex, HexDigit, Times, Lower, IsDec;
    forall i | 0 <= i < |d| ensures IsHex(Lowered(d)[i]) {
      LowerDigit(d[i]);
    }
    if d != "" {
      var front, c := d[..|d| - 1], d[|d| - 1];
      LoweredValue(front, b);
      LowerDigit(c);
      assert Lowered(d)[..|d| - 1] == Lowered(front);
    }
  }

  lemma {:induction false} LoweredQuad(done: seq<byte>, d: string, t: string)
    requires |done| < QUAD_SIZE && (d == "" || IsOctet(d))
    ensures ScanQuad(done, d, Lowered(t)) == ScanQuad(done, d, t)
    decreases |t|
  {
    hide IsDec, IsHex, HexDigit, Lower, Value;
    if t != "" {
      LoweredFirst(t);
      LowerDigit(t[0]);
      QuadPlain(t[0]);
      if IsDec(t[0]) {
        QuadDigit(done, d, t);
        QuadDigit(done, d, Lowered(t));
        if Value(d + [t[0]], 10) <= 255 {
          LoweredQuad(done, d + [t[0]], t[1..]);
        }
      } else if t[0] == '.' && d != "" {
        QuadDot(done, d, t);
        QuadDot(done, d, Lowered(t));
        if |done| < QUAD_SIZE - 1 {
          OctetHex(d);
          LoweredQuad(done + [Value(d, 10)], "", t[1..]);
        }
      } else {
        QuadOther(done, d, t);
        QuadOther(done, d, Lowered(t));
      }
    }
  }

  lemma OctetHex(d: string)
    requires IsOctet(d)
    ensures AllHex(d)
  {
  }

  lemma QuadPlain(c: char)
    ensures !IsDec('.')
    ensures IsDec(c) ==> IsHex(c)
  {
  }

  lemma LoweredGroup(d: string)
    requires IsGroup(d)
    ensures IsGroup(Lowered(d)) && Value(Lowered(d), 16) == Value(d, 16)
  {
    LoweredValue(d, 16);
  }

  lemma LoweredEnd(out: seq<byte>, gap: Option<nat>, d: string)
    requires ScanState(out, gap, d)
    ensures ScanState(out, gap, Lowered(d)) && Finish(out, gap, Lowered(d)) == Finish(out, gap, d)
  {
    hide IsGroup, Value, Lower, Elide, WordBytes;
    if d != "" {
      LoweredGroup(d);
    }
  }

  lemma {:induction false} LoweredScan(out: seq<byte>, gap: Option<nat>, d: string, t: string)
    requires ScanState(out, gap, d)
    ensures ScanState(out, gap, Lowered(d)) && Scan(out, gap, Lowered(d), Lowered(t)) == Scan(out, gap, d, t)
    decreases |t|
  {
    hide ScanState, Scan, Finish, IsHex, IsDec, HexDigit, Value, Lower, ParseQuad, WordBytes, AllHex;
    LoweredEnd(out, gap, d);
    if t == "" {
      assert Lowered(t) == "";
      ScanEnd(out, gap, d);
      ScanEnd(out, gap, Lowered(d));
    } else {
      LoweredFirst(t);
      LowerDigit(t[0]);
      if IsHex(t[0]) {
        LoweredDigit(out, gap, d, t);
      } else if t[0] == ':' {
        LoweredColon(out, gap, d, t);
      } else if t[0] == '.' {
        ScanQuadTail(out, gap, d, t);
        ScanQuadTail(out, gap, Lowered(d), Lowered(t));
        LoweredAppend(d, t);
        LoweredParseQuad(d + t);
      } else {
        ScanOther(out, gap, d, t);
        ScanOther(out, gap, Lowered(d), Lowered(t));
      }
    }
  }

  lemma LoweredParseQuad(t: string)
    ensures ParseQuad(Lowered(t)) == ParseQuad(t)
  {
    LoweredQuad([], "", t);
  }

  lemma LoweredDigit(out: seq<byte>, gap: Option<nat>, d: string, t: string)
    requires ScanState(out, gap, d) && ScanState(out, gap, Lowered(d)) && t != "" && IsHex(t[0])
    ensures Scan(out, gap, Lowered(d), Lowered(t)) == Scan(out, gap, d, t)
    decreases |t|, 0
  {
    hide Scan, Finish, IsHex, IsDec, HexDigit, Value, Lower, AllHex, ScanState;
    var e := d + [t[0]];
    LoweredFirst(t);
    LowerDigit(t[0]);
    LoweredAppend(d, [t[0]]);
    assert Lowered([t[0]]) == [Lower(t[0])];
    ScanDigit(out, gap, d, t);
    ScanDigit(out, gap, Lowered(d), Lowered(t));
    LoweredValue(e, 16);
    if Value(e, 16) <= 0xffff {
      LoweredScan(out, gap, e, t[1..]);
    }
  }

  lemma LoweredColon(out: seq<byte>, gap: Option<nat>, d: string, t: string)
    requires ScanState(out, gap, d) && ScanState(out, gap, Lowered(d)) && t != "" && t[0] == ':'
    ensures Scan(out, gap, Lowered(d), Lowered(t)) == Scan(out, gap, d, t)
    decreases |t|, 0
  {
    hide Scan, Finish, IsHex, IsDec, HexDigit, Value, Lower, AllHex, WordBytes;
    LoweredFirst(t);
    LowerDigit(t[0]);
    ScanColon(out, gap, d, t);
    ScanColon(out, gap, Lowered(d), Lowered(t));
    assert Lowered("") == "";
    if d == "" {
      if gap.None? {
        LoweredScan(out, Some(|out|), "", t[1..]);
      }
    } else {
      LoweredGroup(d);
      if |out| + 2 <= ADDRESS_SIZE {
        LoweredScan(out + WordBytes(Value(d, 16)), gap, "", t[1..]);
      }
    }
  }

  /** The case of a text is of no account, for every text, accepted or not. */
  lemma CaseIgnored(s: string)
    ensures Parse(Lowered(s)) == Parse(s)
  {
    hide Scan, Lower, IsGroup;
    assert Lowered("") == "";
    if s == "" {
    } else {
      LoweredFirst(s);
      LowerDigit(s[0]);
      if s[0] == ':' {
        if |s| > 1 {
          LowerDigit(s[1]);
        }
        LoweredScan([], None, "", s[1..]);
      } else {
        LoweredScan([], None, "", s);
      }
    }
  }

  // ----- the run that is elided -----

  /** n words of the address, from word i on, are zero. */
  predicate ZeroWords(a: seq<byte>, i: nat, n: nat)
    requires |a| == ADDRESS_SIZE && i + n <= 8
  {
    a[2 * i..2 * (i + n)] == Zeros(2 * n)
  }

  lemma WordZero(a: seq<byte>, k: nat)
    requires |a| == ADDRESS_SIZE && k < 8
    ensures Words(a)[k] == 0 <==> a[2 * k] == 0 && a[2 * k + 1] == 0
  {
  }

  lemma ZeroWordsIff(a: seq<byte>, i: nat, n: nat)
    requires |a| == ADDRESS_SIZE && i + n <= 8
    ensures ZeroWords(a, i, n) <==> RunLength(Words(a), i) >= n
  {
    if RunLength(Words(a), i) >= n {
      ZeroBytes(a, i, n);
    } else {
      NonzeroByte(a, i, n);
    }
  }

  lemma {:induction false} ZeroBytes(a: seq<byte>, i: nat, n: nat)
    requires |a| == ADDRESS_SIZE && i + n <= 8 && RunLength(Words(a), i) >= n
    ensures ZeroWords(a, i, n)
    decreases n
  {
    hide Words, RunLength, Zeros, ZeroWords;
    if n == 0 {
      NoZeroWords(a, i);
    } else {
      var k := i + n - 1;
      ZeroBytes(a, i, n - 1);
      assert Words(a)[k] == 0;
      OneZeroWord(a, i, n - 1);
    }
  }

  lemma NoZeroWords(a: seq<byte>, i: nat)
    requires |a| == ADDRESS_SIZE && i <= 8
    ensures ZeroWords(a, i, 0)
  {
  }

  lemma OneZeroWord(a: seq<byte>, i: nat, n: nat)
    requires |a| == ADDRESS_SIZE && i + n < 8 && ZeroWords(a, i, n) && Words(a)[i + n] == 0
    ensures ZeroWords(a, i, n + 1)
  {
    hide Words, Word, Zeros;
    WordZero(a, i + n);
    TwoMore(a, 2 * i, 2 * (i + n));
  }

  lemma TwoMore(a: seq<byte>, lo: nat, hi: nat)
    requires lo <= hi && hi + 2 <= |a| && a[lo..hi] == Zeros(hi - lo) && a[hi] == 0 && a[hi + 1] == 0
    ensures a[lo..hi + 2] == Zeros(hi + 2 - lo)
  {
    var z := a[lo..hi + 2];
    assert z[..hi - lo] == a[lo..hi] && z[hi - lo] == a[hi] && z[hi - lo + 1] == a[hi + 1];
  }

  lemma NonzeroByte(a: seq<byte>, i: nat, n: nat)
    requires |a| == ADDRESS_SIZE && i + n <= 8 && RunLength(Words(a), i) < n
    ensures !ZeroWords(a, i, n)
  {
    hide Words;
    var m := RunLength(Words(a), i);
    var z := a[2 * i..2 * (i + n)];
    assert Words(a)[i + m] != 0;
    WordZero(a, i + m);
    assert z[2 * m] == a[2 * (i + m)] && z[2 * m + 1] == a[2 * (i + m) + 1];
    assert Zeros(2 * n)[2 * m] == 0 && Zeros(2 * n)[2 * m + 1] == 0;
  }

  /** Some n adjacent words are zero, the first of them before word `limit`. */
  predicate Somewhere(a: seq<byte>, n: nat, limit: nat)
    requires |a| == ADDRESS_SIZE
  {
    exists i: nat :: i < limit && i + n <= 8 && ZeroWords(a, i, n)
  }

  lemma SomewhereIff(a: seq<byte>, n: nat, limit: nat)
    requires |a| == ADDRESS_SIZE && 0 < n && limit <= 9
    ensures Somewhere(a, n, limit) <==> exists j :: 0 <= j < limit && j <= 8 && RunLength(Words(a), j) >= n
  {
    hide ZeroWords, Words;
    if Somewhere(a, n, limit) {
      var i: nat :| i < limit && i + n <= 8 && ZeroWords(a, i, n);
      ZeroWordsIff(a, i, n);
      assert RunLength(Words(a), i) >= n;
    }
    if j :| 0 <= j < limit && j <= 8 && RunLength(Words(a), j) >= n {
      ZeroWordsIff(a, j, n);
      assert ZeroWords(a, j, n);
    }
  }

  /**
   * Which zeros "::" stands for, on the bytes: none when no two adjacent words are zero,
   * and else a run of two words or more, with none that is longer and none as long before it.
   */
  lemma ElidedRun(a: seq<byte>, r: Run)
    requires |a| == ADDRESS_SIZE && (r.base == -1 || (0 <= r.base && r.base + r.len <= 8))
    ensures IsBestRun(Words(a), r) <==>
      if r.base == -1 then !Somewhere(a, 2, 9)
      else r.len >= 2 && ZeroWords(a, r.base, r.len) && !Somewhere(a, r.len + 1, 9) && !Somewhere(a, r.len, r.base)
  {
    hide ZeroWords, RunLength, Words, Somewhere;
    var w := Words(a);
    if r.base == -1 {
      SomewhereIff(a, 2, 9);
      if !Somewhere(a, 2, 9) {
        assert forall j :: 0 <= j <= |w| ==> RunLength(w, j) < 2;
      }
      if j :| 0 <= j <= |w| && RunLength(w, j) >= 2 {
        assert Somewhere(a, 2, 9);
        assert !IsBestRun(w, r);
      }
    } else if r.len >= 2 {
      ZeroWordsIff(a, r.base, r.len);
      SomewhereIff(a, r.len + 1, 9);
      SomewhereIff(a, r.len, r.base);
      assert IsBestRun(w, r) ==> ZeroWords(a, r.base, r.len);
      assert IsBestRun(w, r) ==> !Somewhere(a, r.len + 1, 9);
      assert IsBestRun(w, r) ==> !Somewhere(a, r.len, r.base);
      if ZeroWords(a, r.base, r.len) && !Somewhere(a, r.len + 1, 9) && !Somewhere(a, r.len, r.base) {
        assert RunLength(w, r.base) == r.len;
        assert forall j :: 0 <= j <= |w| ==> RunLength(w, j) <= r.len;
        assert forall j :: 0 <= j < r.base ==> RunLength(w, j) < r.len;
      }
    }
  }

  // ----- the dotted quad -----

  /** ::a.b.c.d, unless the last two words or the last but one are zero too; and ::ffff:a.b.c.d. */
  predicate Embeds(a: seq<byte>)
    requires |a| == ADDRESS_SIZE
  {
    || (a[..12] == Zeros(12) && a[12..14] != [0, 0])
    || (a[..10] == Zeros(10) && a[10..12] == [255, 255])
  }

  lemma EmbedsIff(a: seq<byte>)
    requires |a| == ADDRESS_SIZE
    ensures Embeds(a) <==> Encapsulates(Words(a), BestRun(Words(a)))
    ensures a[..12] == Zeros(12) && a[12..14] != [0, 0] ==> BestRun(Words(a)) == Run(0, 6)
    ensures a[..10] == Zeros(10) && a[10..12] == [255, 255] ==> BestRun(Words(a)) == Run(0, 5) && Words(a)[5] == 0xffff
  {
    var w := Words(a);
    assert a[..12] == a[2 * 0..2 * (0 + 6)] && a[..10] == a[2 * 0..2 * (0 + 5)];
    ZeroWordsIff(a, 0, 6);
    ZeroWordsIff(a, 0, 5);
    assert a[12..14] == [a[12], a[13]] && a[10..12] == [a[10], a[11]];
    WordZero(a, 6);
    assert w[5] == Word(a[10], a[11]);
    assert w[5] == 0xffff <==> a[10..12] == [255, 255];
    hide Words, Word, IsBestRun, BestRun;
    FirstRun(w, 6);
    FirstRun(w, 5);
  }

  /** A run of five or six words at the start, and no longer, is the best one. */
  lemma FirstRun(w: seq<nat>, n: nat)
    requires |w| == 8 && 5 <= n <= 6
    ensures RunLength(w, 0) == n <==> BestRun(w) == Run(0, n)
  {
    if RunLength(w, 0) == n {
      assert w[n] != 0;
      assert forall j :: 0 <= j <= n ==> j + RunLength(w, j) <= n;
      BestRunUnique(w, Run(0, n));
    }
  }

  /** The text of an address whose last four bytes are not printed in decimal has no dot. */
  lemma {:induction false} NoDot(parts: seq<string>)
    requires forall i :: 0 <= i < |parts| ==> AllHex(parts[i])
    ensures '.' !in Join(parts, ':')
    decreases |parts|
  {
    if parts != [] {
      JoinCons(parts, ':');
      assert '.' !in parts[0];
      NoDot(parts[1..]);
    }
  }

  lemma HexText(w: seq<nat>)
    requires IsWords(w)
    ensures '.' !in Join(HexGroups(w), ':')
  {
    var g := HexGroups(w);
    forall i | 0 <= i < |g| ensures AllHex(g[i]) {
      assert g[i] == Numeral(w[i], 16);
    }
    NoDot(g);
  }

  function DottedQuad(a: seq<byte>): string
    requires |a| == ADDRESS_SIZE
  {
    var d := (i: nat) requires 12 <= i < 16 => Numeral(a[i], 10);
    d(12) + "." + d(13) + "." + d(14) + "." + d(15)
  }

  lemma QuadIs(a: seq<byte>)
    requires |a| == ADDRESS_SIZE
    ensures Join(DecOctets(a[12..]), '.') == DottedQuad(a) && '.' in DottedQuad(a)
  {
    hide Numeral;
    var o := DecOctets(a[12..]);
    assert o == [Numeral(a[12], 10), Numeral(a[13], 10), Numeral(a[14], 10), Numeral(a[15], 10)];
    assert o[1..][1..][1..] == [o[3]] && o[1..][1..] == [o[2], o[3]] && o[1..] == [o[1], o[2], o[3]];
    assert Join(o[1..][1..][1..], '.') == o[3];
    assert Join(o[1..][1..], '.') == o[2] + "." + o[3];
    assert Join(o[1..], '.') == o[1] + "." + (o[2] + "." + o[3]);
    assert DottedQuad(a)[|o[0]|] == '.';
  }

  lemma Ffff()
    ensures Numeral(0xffff, 16) == "ffff"
  {
    var f := DigitChar(15);
    assert Numeral(15, 16) == [f] && f == 'f';
    assert Numeral(255, 16) == Numeral(15, 16) + [f];
    assert Numeral(4095, 16) == Numeral(255, 16) + [f];
    assert Numeral(65535, 16) == Numeral(4095, 16) + [f];
  }

  /** The exact texts with a dotted quad. */
  lemma QuadText(a: seq<byte>)
    requires |a| == ADDRESS_SIZE
    ensures a[..12] == Zeros(12) && a[12..14] != [0, 0] ==> CanonicalText(a) == "::" + DottedQuad(a)
    ensures a[..10] == Zeros(10) && a[10..12] == [255, 255] ==> CanonicalText(a) == "::ffff:" + DottedQuad(a)
  {
    hide Words, DottedQuad, Numeral, DecOctets, IsBestRun, BestRun;
    EmbedsIff(a);
    QuadIs(a);
    var w, q := Words(a), Join(DecOctets(a[12..]), '.');
    if a[..12] == Zeros(12) && a[12..14] != [0, 0] {
      SixZeros(a);
    } else if a[..10] == Zeros(10) && a[10..12] == [255, 255] {
      FiveZeros(a);
    }
  }

  lemma SixZeros(a: seq<byte>)
    requires |a| == ADDRESS_SIZE && BestRun(Words(a)) == Run(0, 6)
    ensures CanonicalText(a) == "::" + Join(DecOctets(a[12..]), '.')
  {
    hide Words, DecOctets, IsBestRun, BestRun, Numeral;
    var q := Join(DecOctets(a[12..]), '.');
    var g := HexGroups(Words(a)[6..6]);
    assert g == [] && DecOctets(a[12..]) != [];
    assert Join([], ':') == "" && Join([q], ':') == q;
    assert g + [q] == [q];
    assert Join([], ':') + "::" + Join([q], ':') == "::" + q;
  }

  lemma FiveZeros(a: seq<byte>)
    requires |a| == ADDRESS_SIZE && BestRun(Words(a)) == Run(0, 5) && Words(a)[5] == 0xffff
    ensures CanonicalText(a) == "::ffff:" + Join(DecOctets(a[12..]), '.')
  {
    Ffff();
    hide Words, DecOctets, IsBestRun, BestRun, Numeral;
    var q := Join(DecOctets(a[12..]), '.');
    var g := HexGroups(Words(a)[5..6]);
    assert g == ["ffff"] && DecOctets(a[12..]) != [];
    assert (g + [q])[1..] == [q];
    assert Join(g + [q], ':') == "ffff" + ":" + q;
    assert Join([], ':') + "::" + ("ffff" + ":" + q) == "::ffff:" + q;
  }

  /**
   * A dotted quad is printed exactly for ::a.b.c.d with the first two of the four bytes
   * not both zero, and for ::ffff:a.b.c.d.
   */
  lemma QuadPrintedIff(a: seq<byte>)
    requires |a| == ADDRESS_SIZE
    ensures '.' in CanonicalText(a) <==>
      || (a[..12] == Zeros(12) && a[12..14] != [0, 0])
      || (a[..10] == Zeros(10) && a[10..12] == [255, 255])
  {
    hide DottedQuad, Words, DecOctets, IsBestRun, BestRun;
    if Embeds(a) {
      QuadText(a);
      QuadIs(a);
    } else {
      EmbedsIff(a);
      PlainHex(a);
    }
  }

  lemma PlainHex(a: seq<byte>)
    requires |a| == ADDRESS_SIZE && !Encapsulates(Words(a), BestRun(Words(a)))
    ensures '.' !in CanonicalText(a)
  {
    hide Words, HexGroups, DecOctets, Join, Encapsulates, IsBestRun, BestRun, Numeral;
    var w := Words(a);
    var r := BestRun(w);
    RunFits(w);
    if r.base == -1 {
      HexText(w);
      assert HexGroups(w) + [] == HexGroups(w);
    } else {
      HexText(w[..r.base]);
      HexText(w[r.base + r.len..]);
      var left, right := HexGroups(w[..r.base]), HexGroups(w[r.base + r.len..]);
      assert right + [] == right;
      assert CanonicalText(a) == Join(left, ':') + "::" + Join(right, ':');
    }
  }

  lemma RunFits(w: seq<nat>)
    ensures var r := BestRun(w); r.base != -1 ==> 0 <= r.base && r.base + r.len <= |w|
  {
  }
}
