/**
 * The parser and the printer together: printing then parsing gives back the address,
 * the printed text is the one that RFC 5952 asks for, and printing is a normal form.
 */
module InetCodec {
  import opened CText
  import opened Ipv6Spelling
  import opened InetPton
  import opened InetRecognition
  import opened InetCompleteness
  import opened InetNtop

  // ----- printed pieces denote the bytes they came from -----

  /** Lower case and no leading zeros (sections 4.1 and 4.3 of RFC 5952). */
  predicate AllNumerals(parts: seq<string>, b: base) {
    forall i :: 0 <= i < |parts| ==> IsNumeral(parts[i], b)
  }

  lemma HexGroupsTidy(w: seq<nat>)
    requires IsWords(w)
    ensures var g := HexGroups(w); AllGroups(g) && AtMost(g, 4) && AllNumerals(g, 16)
  {
    forall i | 0 <= i < |w|
      ensures var d := Numeral(w[i], 16); IsGroup(d) && |d| <= 4 && IsNumeral(d, 16)
    {
      NumeralValue(w[i], 16);
      NumeralShort(w[i]);
    }
  }

  lemma DecOctetsTidy(b: seq<byte>)
    ensures var o := DecOctets(b); AllOctets(o) && AtMost(o, 3) && AllNumerals(o, 10)
  {
    forall i | 0 <= i < |b|
      ensures var d := Numeral(b[i], 10); IsOctet(d) && |d| <= 3 && IsNumeral(d, 10)
    {
      NumeralValue(b[i], 10);
      NumeralShort(b[i]);
    }
  }

  lemma {:induction false} HexGroupsDenote(a: seq<byte>, b: nat, e: nat)
    requires |a| == ADDRESS_SIZE && b <= e <= WORDS
    ensures AllGroups(HexGroups(Words(a)[b..e]))
    ensures GroupBytes(HexGroups(Words(a)[b..e])) == a[2 * b..2 * e]
    decreases e - b
  {
    hide Numeral, Value, Word, WordBytes, Words, IsNumeral;
    var w := Words(a);
    HexGroupsTidy(w[b..e]);
    if b < e {
      HexGroupsDenote(a, b + 1, e);
      var g, rest := HexGroups(w[b..e]), HexGroups(w[b + 1..e]);
      NumeralValue(w[b], 16);
      assert g[1..] == rest && g[0] == Numeral(w[b], 16);
      WordSplits(a[2 * b], a[2 * b + 1]);
      assert GroupBytes(g) == [a[2 * b], a[2 * b + 1]] + GroupBytes(rest);
      CutWord(a, b, e);
    }
  }

  lemma CutWord(a: seq<byte>, b: nat, e: nat)
    requires |a| == ADDRESS_SIZE && b < e <= WORDS
    ensures a[2 * b..2 * e] == [a[2 * b], a[2 * b + 1]] + a[2 * (b + 1)..2 * e]
  {
  }

  lemma WordSplits(high: byte, low: byte)
    ensures WordBytes(Word(high, low)) == [high, low]
  {
  }

  lemma {:induction false} DecOctetsDenote(b: seq<byte>)
    ensures AllOctets(DecOctets(b)) && OctetBytes(DecOctets(b)) == b
  {
    DecOctetsTidy(b);
    if b != [] {
      DecOctetsDenote(b[1..]);
      NumeralValue(b[0], 10);
      assert DecOctets(b)[1..] == DecOctets(b[1..]);
    }
  }

  lemma ZeroWords(a: seq<byte>, b: nat, e: nat)
    requires |a| == ADDRESS_SIZE && b <= e <= WORDS
    requires forall k :: b <= k < e ==> Words(a)[k] == 0
    ensures a[2 * b..2 * e] == Zeros(2 * (e - b))
  {
    forall j | 2 * b <= j < 2 * e ensures a[j] == 0 {
      assert Words(a)[j / 2] == Word(a[2 * (j / 2)], a[2 * (j / 2) + 1]) == 0;
    }
  }

  /** The canonical spelling is legal and denotes the address it was made from. */
  lemma CanonicalDenotes(a: seq<byte>)
    requires |a| == ADDRESS_SIZE
    ensures Legal(Canonical(a)) && Address(Canonical(a)) == a
  {
    hide Legal, Address, Words, HexGroups, DecOctets, RunLength, Encapsulates;
    var w := Words(a);
    var r := BestRun(w);
    if r.base == -1 {
      PlainDenotes(a);
    } else if Encapsulates(w, r) {
      EncapsulatesAt(w, r);
      EncapsulatedDenotes(a, r.len);
    } else {
      CompressedDenotes(a, r.base, r.base + r.len);
    }
  }

  lemma PlainDenotes(a: seq<byte>)
    requires |a| == ADDRESS_SIZE
    ensures var s := Plain(HexGroups(Words(a)), []); Legal(s) && Address(s) == a
  {
    HexGroupsTidy(Words(a));
    HexGroupsDenote(a, 0, WORDS);
    assert Words(a)[0..WORDS] == Words(a) && a[0..16] == a && a + [] == a;
  }

  lemma CompressedDenotes(a: seq<byte>, b: nat, e: nat)
    requires |a| == ADDRESS_SIZE && b < e <= WORDS
    requires forall k :: b <= k < e ==> Words(a)[k] == 0
    ensures var s := Compressed(HexGroups(Words(a)[..b]), HexGroups(Words(a)[e..]), []);
            Legal(s) && Address(s) == a
  {
    hide Words, GroupBytes, OctetBytes, HexGroups, AllGroups, AtMost, AllNumerals;
    var w := Words(a);
    assert w[0..b] == w[..b] && w[e..WORDS] == w[e..];
    HexGroupsTidy(w[..b]);
    HexGroupsTidy(w[e..]);
    HexGroupsDenote(a, 0, b);
    HexGroupsDenote(a, e, WORDS);
    ZeroWords(a, b, e);
    assert AllOctets([]) && AtMost([], 3) && OctetBytes([]) == [] by { NoOctetsHere(); }
    AddressIs(HexGroups(w[..b]), HexGroups(w[e..]), [], a[0..2 * b], 2 * (e - b), a[2 * e..16], []);
    CutThree(a, 2 * b, 2 * e);
  }

  lemma NoOctetsHere()
    ensures AllOctets([]) && AtMost([], 3) && OctetBytes([]) == []
  {
  }

  lemma AddressIs(left: seq<string>, right: seq<string>, quad: seq<string>,
                  l: seq<byte>, n: nat, g: seq<byte>, q: seq<byte>)
    requires AllGroups(left) && AtMost(left, 4) && AllGroups(right) && AtMost(right, 4)
    requires IsQuad(quad) && AtMost(quad, 3)
    requires |l| + n + |g| + |q| == ADDRESS_SIZE && n > 0
    requires GroupBytes(left) == l && GroupBytes(right) == g && OctetBytes(quad) == q
    ensures Legal(Compressed(left, right, quad))
    ensures Address(Compressed(left, right, quad)) == l + Zeros(n) + g + q
  {
    hide GroupBytes, OctetBytes;
    assert |l| == 2 * |left| && |g| == 2 * |right| && |q| == |quad|;
  }

  lemma CutThree(a: seq<byte>, i: nat, j: nat)
    requires |a| == ADDRESS_SIZE && i <= j <= ADDRESS_SIZE
    ensures a[0..i] + a[i..j] + a[j..16] + [] == a
  {
  }

  lemma EncapsulatedDenotes(a: seq<byte>, e: nat)
    requires |a| == ADDRESS_SIZE && 1 <= e <= 6
    requires forall k :: 0 <= k < e ==> Words(a)[k] == 0
    ensures var s := Compressed([], HexGroups(Words(a)[e..6]), DecOctets(a[12..]));
            Legal(s) && Address(s) == a
  {
    hide Words, GroupBytes, OctetBytes, HexGroups, DecOctets, AllGroups, AllOctets, AtMost, AllNumerals;
    var w := Words(a);
    HexGroupsTidy(w[e..6]);
    DecOctetsTidy(a[12..]);
    HexGroupsDenote(a, e, 6);
    DecOctetsDenote(a[12..]);
    ZeroWords(a, 0, e);
    NoGroups();
    AddressIs([], HexGroups(w[e..6]), DecOctets(a[12..]), [], 2 * e, a[2 * e..12], a[12..]);
    CutEncapsulated(a, 2 * e);
  }

  lemma NoGroups()
    ensures AllGroups([]) && AtMost([], 4) && GroupBytes([]) == []
  {
  }

  lemma CutEncapsulated(a: seq<byte>, i: nat)
    requires |a| == ADDRESS_SIZE && i <= 12
    ensures [] + a[0..i] + a[i..12] + a[12..] == a
  {
  }

  /** Round trip, for every address: the printed text parses back to the same bytes. */
  lemma PrintThenParse(a: seq<byte>)
    requires |a| == ADDRESS_SIZE
    ensures Parse(CanonicalText(a)) == Some(a)
  {
    CanonicalDenotes(a);
    EverySpellingParses(Canonical(a));
  }

  /** The same for the C functions: print into a buffer, parse it into another. */
  method CopyThroughText(src: array<byte>, text: array<char>, dst: array<byte>)
    requires src.Length == dst.Length == ADDRESS_SIZE && src != dst && text.Length >= TMP_SIZE
    modifies text, dst
    ensures dst[..] == src[..]
  {
    PrintThenParse(src[..]);
    CanonicalFits(src[..]);
    NoNul(src[..]);
    var ok := Ntop6(src, text, text.Length);
    var rc := Pton6(text[..|CanonicalText(src[..])|], dst);
  }

  // ----- a buffer of TMP_SIZE always suffices -----

  lemma {:induction false} JoinLength(parts: seq<string>, sep: char, width: nat)
    requires AtMost(parts, width)
    ensures parts == [] ==> Join(parts, sep) == ""
    ensures parts != [] ==> |Join(parts, sep)| + 1 <= (width + 1) * |parts|
  {
    if parts != [] {
      JoinLength(parts[1..], sep, width);
      assert (width + 1) * |parts| == (width + 1) * |parts[1..]| + width + 1;
    }
  }

  lemma CanonicalFits(a: seq<byte>)
    requires |a| == ADDRESS_SIZE
    ensures |CanonicalText(a)| < TMP_SIZE
  {
    CanonicalDenotes(a);
    SpellingFits(Canonical(a));
  }

  lemma SpellingFits(s: Spelling)
    requires Legal(s)
    ensures |Text(s)| < TMP_SIZE
  {
    hide Join, AllGroups, AllOctets;
    match s
    case Plain(groups, quad) =>
      PartsFit(groups, quad);
    case Compressed(left, right, quad) =>
      JoinLength(left, ':', 4);
      PartsFit(right, quad);
  }

  lemma PartsFit(groups: seq<string>, quad: seq<string>)
    requires AtMost(groups, 4) && AtMost(quad, 3) && (quad == [] || |quad| == QUAD_SIZE)
    ensures |Join(groups + QuadPart(quad), ':')| <= 5 * |groups| + (if quad == [] then 0 else 15)
  {
    hide Join;
    JoinLength(groups, ':', 4);
    JoinLength(quad, '.', 3);
    if quad == [] {
      assert groups + QuadPart(quad) == groups;
    } else {
      JoinSnoc(groups, Join(quad, '.'), ':');
    }
  }

  lemma NoNul(a: seq<byte>)
    requires |a| == ADDRESS_SIZE
    ensures '\0' !in CanonicalText(a)
  {
    CanonicalDenotes(a);
    SpellingNoNul(Canonical(a));
  }

  lemma SpellingNoNul(s: Spelling)
    requires Legal(s)
    ensures '\0' !in Text(s)
  {
    JoinNoNul(s.quad, '.');
    match s
    case Plain(groups, quad) =>
      JoinNoNul(groups + QuadPart(quad), ':');
    case Compressed(left, right, quad) =>
      JoinNoNul(left, ':');
      JoinNoNul(right + QuadPart(quad), ':');
  }

  lemma {:induction false} JoinNoNul(parts: seq<string>, sep: char)
    requires sep != '\0' && forall i :: 0 <= i < |parts| ==> '\0' !in parts[i]
    ensures '\0' !in Join(parts, sep)
  {
    if parts != [] {
      JoinNoNul(parts[1..], sep);
    }
  }

  // ----- RFC 5952, sections 4 and 5 -----

  /**
   * The recommended form: tidy numerals; "::" for the leftmost longest run of two or
   * more zero words and for nothing else; a dotted quad for ::a.b.c.d and
   * ::ffff:a.b.c.d and for nothing else.
   */
  ghost predicate Recommended(s: Spelling)
    requires Legal(s)
  {
    RecommendedFor(s, Words(Address(s)))
  }

  ghost predicate RecommendedFor(s: Spelling, w: seq<nat>)
    requires Legal(s) && |w| == WORDS
  {
    AllNumerals(s.quad, 10) &&
    match s
    case Plain(groups, quad) =>
      AllNumerals(groups, 16) && quad == [] && IsBestRun(w, Run(-1, 0))
    case Compressed(left, right, quad) =>
      var run := Run(|left|, WORDS - |left| - |right| - |quad| / 2);
      && AllNumerals(left, 16) && AllNumerals(right, 16)
      && IsBestRun(w, run)
      && (quad != [] <==> Encapsulates(w, run))
  }

  lemma CanonicalIsRecommended(a: seq<byte>)
    requires |a| == ADDRESS_SIZE
    ensures Legal(Canonical(a)) && Recommended(Canonical(a))
  {
    CanonicalDenotes(a);
    CanonicalRecommendedFor(a);
  }

  lemma CanonicalRecommendedFor(a: seq<byte>)
    requires |a| == ADDRESS_SIZE && Legal(Canonical(a))
    ensures RecommendedFor(Canonical(a), Words(a))
  {
    hide Words, RecommendedFor, Legal, IsBestRun, BestRun, HexGroups, DecOctets;
    var w := Words(a);
    var r := BestRun(w);
    if r.base == -1 {
      PlainRecommended(w);
    } else if Encapsulates(w, r) {
      EncapsulatedRecommended(w, r, a[12..]);
    } else {
      CompressedRecommended(w, r);
    }
  }

  lemma PlainRecommended(w: seq<nat>)
    requires |w| == WORDS && IsWords(w) && BestRun(w).base == -1
    requires Legal(Plain(HexGroups(w), []))
    ensures RecommendedFor(Plain(HexGroups(w), []), w)
  {
    HexGroupsTidy(w);
  }

  lemma CompressedRecommended(w: seq<nat>, r: Run)
    requires |w| == WORDS && IsWords(w) && r == BestRun(w) && r.base != -1 && !Encapsulates(w, r)
    requires Legal(Compressed(HexGroups(w[..r.base]), HexGroups(w[r.base + r.len..]), []))
    ensures RecommendedFor(Compressed(HexGroups(w[..r.base]), HexGroups(w[r.base + r.len..]), []), w)
  {
    HexGroupsTidy(w[..r.base]);
    HexGroupsTidy(w[r.base + r.len..]);
  }

  lemma EncapsulatedRecommended(w: seq<nat>, r: Run, b: seq<byte>)
    requires |w| == WORDS && IsWords(w) && r == BestRun(w) && Encapsulates(w, r) && |b| == QUAD_SIZE
    requires Legal(Compressed([], HexGroups(w[r.len..6]), DecOctets(b)))
    ensures RecommendedFor(Compressed([], HexGroups(w[r.len..6]), DecOctets(b)), w)
  {
    HexGroupsTidy(w[r.len..6]);
    DecOctetsTidy(b);
  }

  /** Tidy groups that denote words b.. of an address are the printed words. */
  lemma {:induction false} GroupsDetermined(a: seq<byte>, b: nat, g: seq<string>)
    requires |a| == ADDRESS_SIZE && b + |g| <= WORDS
    requires AllGroups(g) && AllNumerals(g, 16) && GroupBytes(g) == a[2 * b..2 * (b + |g|)]
    ensures g == HexGroups(Words(a)[b..b + |g|])
    decreases |g|
  {
    hide Value, Numeral, AllGroups, AllNumerals, GroupBytes, HexGroups, Words;
    if g == [] {
      NoGroupsDetermined(Words(a)[b..b + |g|], g);
    } else {
      FirstDetermined(a, b, g);
      GroupsDetermined(a, b + 1, g[1..]);
      HexGroupsFirst(Words(a), b, b + |g|);
      assert g == [g[0]] + g[1..];
    }
  }

  lemma NoGroupsDetermined(w: seq<nat>, g: seq<string>)
    requires |w| == |g| == 0
    ensures g == HexGroups(w)
  {
  }

  /** The first of the groups is the printed first word, and the rest denotes the rest. */
  lemma FirstDetermined(a: seq<byte>, b: nat, g: seq<string>)
    requires |a| == ADDRESS_SIZE && b + |g| <= WORDS && g != []
    requires AllGroups(g) && AllNumerals(g, 16) && GroupBytes(g) == a[2 * b..2 * (b + |g|)]
    ensures g[0] == Numeral(Words(a)[b], 16)
    ensures AllGroups(g[1..]) && AllNumerals(g[1..], 16)
    ensures GroupBytes(g[1..]) == a[2 * (b + 1)..2 * (b + 1 + |g[1..]|)]
  {
    hide Value, Numeral, IsNumeral, WordBytes, Word, Words, GroupBytes, AllGroups, AllNumerals, IsGroup;
    FirstGroup(g);
    var w := Value(g[0], 16);
    var t := a[2 * b..2 * (b + |g|)];
    assert t[..2] == [a[2 * b], a[2 * b + 1]];
    WordOfBytes(w, a[2 * b], a[2 * b + 1]);
    WordAt(a, b);
    NumeralUnique(g[0], 16);
    assert t[2..] == a[2 * (b + 1)..2 * (b + 1 + |g[1..]|)];
  }

  lemma FirstGroup(g: seq<string>)
    requires g != [] && AllGroups(g) && AllNumerals(g, 16)
    ensures AllHex(g[0]) && IsNumeral(g[0], 16) && Value(g[0], 16) <= 0xffff
    ensures AllGroups(g[1..]) && AllNumerals(g[1..], 16)
    ensures GroupBytes(g)[..2] == WordBytes(Value(g[0], 16)) && GroupBytes(g)[2..] == GroupBytes(g[1..])
  {
    hide Value, IsNumeral, WordBytes;
  }

  lemma WordAt(a: seq<byte>, b: nat)
    requires |a| == ADDRESS_SIZE && b < WORDS
    ensures Words(a)[b] == Word(a[2 * b], a[2 * b + 1])
  {
    hide Word;
  }

  lemma WordOfBytes(w: nat, high: byte, low: byte)
    requires w <= 0xffff && WordBytes(w) == [high, low]
    ensures w == Word(high, low)
  {
    assert WordBytes(w)[0] == high && WordBytes(w)[1] == low;
  }

  lemma HexGroupsFirst(w: seq<nat>, b: nat, e: nat)
    requires IsWords(w) && b < e <= |w|
    ensures HexGroups(w[b..e]) == [Numeral(w[b], 16)] + HexGroups(w[b + 1..e])
  {
    hide Numeral;
  }

  lemma {:induction false} OctetsDetermined(b: seq<byte>, o: seq<string>)
    requires AllOctets(o) && AllNumerals(o, 10) && OctetBytes(o) == b
    ensures o == DecOctets(b)
  {
    if o != [] {
      NumeralUnique(o[0], 10);
      OctetsDetermined(b[1..], o[1..]);
      assert o == [o[0]] + o[1..];
    }
  }

  lemma WholeWords(a: seq<byte>, left: seq<string>, right: seq<string>, quad: seq<string>, e: nat)
    requires Legal(Compressed(left, right, quad)) && a == Address(Compressed(left, right, quad))
    requires 2 * (e + |right|) + |quad| == ADDRESS_SIZE
    ensures GroupBytes(left) == a[2 * 0..2 * |left|]
    ensures GroupBytes(right) == a[2 * e..2 * (e + |right|)]
    ensures OctetBytes(quad) == a[2 * (e + |right|)..]
  {
    hide GroupBytes, OctetBytes, AllGroups, AtMost;
    var l, g, q := GroupBytes(left), GroupBytes(right), OctetBytes(quad);
    var z := Zeros(ADDRESS_SIZE - 2 * (|left| + |right|) - |quad|);
    assert a == l + z + g + q;
    CutFour(a, l, z, g, q);
  }

  lemma CutFour(a: seq<byte>, l: seq<byte>, z: seq<byte>, g: seq<byte>, q: seq<byte>)
    requires a == l + z + g + q
    ensures a[0..|l|] == l
    ensures a[|l| + |z|..|l| + |z| + |g|] == g
    ensures a[|l| + |z| + |g|..] == q
  {
  }

  /**
   * RFC 5952 leaves one spelling per address, and inet_ntop6 prints it: a legal
   * spelling is the recommended one exactly when it is the printed one.
   */
  lemma PrintedIffRecommended(s: Spelling)
    requires Legal(s)
    ensures Recommended(s) <==> s == Canonical(Address(s))
  {
    hide Legal, Address, Canonical, AllNumerals, IsBestRun, Words;
    var a := Address(s);
    CanonicalIsRecommended(a);
    if Recommended(s) {
      match s
      case Plain(groups, quad) =>
        RecommendedPlain(a, groups);
      case Compressed(left, right, quad) =>
        RecommendedCompressed(a, left, right, quad);
    }
  }

  lemma RecommendedPlain(a: seq<byte>, groups: seq<string>)
    requires Legal(Plain(groups, [])) && a == Address(Plain(groups, []))
    requires RecommendedFor(Plain(groups, []), Words(a))
    ensures Plain(groups, []) == Canonical(a)
  {
    hide Words, GroupBytes, HexGroups, RunLength, IsBestRun, AllNumerals;
    var w := Words(a);
    BestRunUnique(w, Run(-1, 0));
    assert GroupBytes(groups) + [] == GroupBytes(groups);
    assert a[2 * 0..2 * WORDS] == a;
    GroupsDetermined(a, 0, groups);
    assert w[0..WORDS] == w;
  }

  lemma RecommendedCompressed(a: seq<byte>, left: seq<string>, right: seq<string>, quad: seq<string>)
    requires Legal(Compressed(left, right, quad)) && a == Address(Compressed(left, right, quad))
    requires RecommendedFor(Compressed(left, right, quad), Words(a))
    ensures Compressed(left, right, quad) == Canonical(a)
  {
    hide Words, GroupBytes, OctetBytes, IsBestRun, AllNumerals, AllGroups, AllOctets, AtMost, Address, Canonical,
         Encapsulates;
    var run := Run(|left|, WORDS - |left| - |right| - |quad| / 2);
    assert IsBestRun(Words(a), run);
    assert |quad| == 2 * (|quad| / 2);
    WholeWords(a, left, right, quad, |left| + run.len);
    Determined(a, left, right, quad, run);
  }

  lemma Determined(a: seq<byte>, left: seq<string>, right: seq<string>, quad: seq<string>, run: Run)
    requires |a| == ADDRESS_SIZE && run.base == |left| && IsBestRun(Words(a), run)
    requires AllGroups(left) && AllNumerals(left, 16) && AllGroups(right) && AllNumerals(right, 16)
    requires IsQuad(quad) && AllNumerals(quad, 10) && (quad != [] <==> Encapsulates(Words(a), run))
    requires 2 * (|left| + run.len + |right|) + |quad| == ADDRESS_SIZE
    requires GroupBytes(left) == a[2 * 0..2 * |left|]
    requires var e := |left| + run.len;
             && GroupBytes(right) == a[2 * e..2 * (e + |right|)]
             && OctetBytes(quad) == a[2 * (e + |right|)..]
    ensures Compressed(left, right, quad) == Canonical(a)
  {
    hide Words, Word, GroupBytes, OctetBytes, HexGroups, DecOctets, RunLength, AllNumerals, AllGroups, AllOctets,
         Encapsulates, IsBestRun, BestRun, Canonical;
    var w, e := Words(a), |left| + run.len;
    BestRunUnique(w, run);
    GroupsDetermined(a, e, right);
    if quad == [] {
      GroupsDetermined(a, 0, left);
      assert w[e..e + |right|] == w[e..] && w[0..|left|] == w[..|left|];
      HexDetermined(a, left, right, run);
    } else {
      EncapsulatesAt(w, run);
      QuadDetermined(a, left, right, quad, run);
    }
  }

  lemma HexDetermined(a: seq<byte>, left: seq<string>, right: seq<string>, run: Run)
    requires |a| == ADDRESS_SIZE && run == BestRun(Words(a)) && !Encapsulates(Words(a), run)
    requires run.base == |left| && |left| + run.len <= WORDS
    requires left == HexGroups(Words(a)[..|left|]) && right == HexGroups(Words(a)[|left| + run.len..])
    ensures Compressed(left, right, []) == Canonical(a)
  {
    hide Words, HexGroups, DecOctets, IsBestRun, BestRun;
  }

  lemma EncapsulatesAt(w: seq<nat>, r: Run)
    requires |w| == WORDS && Encapsulates(w, r)
    ensures r.base == 0 && r.len <= 6
  {
  }

  lemma QuadDetermined(a: seq<byte>, left: seq<string>, right: seq<string>, quad: seq<string>, run: Run)
    requires |a| == ADDRESS_SIZE && run == BestRun(Words(a)) && Encapsulates(Words(a), run)
    requires |left| == run.base && |quad| == QUAD_SIZE && |right| == 6 - run.len
    requires right == HexGroups(Words(a)[run.len..6])
    requires AllOctets(quad) && AllNumerals(quad, 10) && OctetBytes(quad) == a[12..]
    ensures Compressed(left, right, quad) == Canonical(a)
  {
    OctetsDetermined(a[12..], quad);
    hide Words, HexGroups, DecOctets, IsBestRun, BestRun;
    assert left == [];
  }

  // ----- normal forms -----

  /** Parse a text and print the address again. */
  function Normalise(s: string): Option<string> {
    var a := Parse(s);
    if a.Some? then Some(CanonicalText(a.value)) else None
  }

  lemma NormaliseIdempotent(s: string)
    requires Normalise(s).Some?
    ensures Normalise(Normalise(s).value) == Normalise(s)
  {
    PrintThenParse(Parse(s).value);
  }

  /** Two accepted texts mean the same address exactly when they normalise to the same text. */
  lemma SameAddressIffSameText(s: string, t: string)
    requires Parse(s).Some? && Parse(t).Some?
    ensures Parse(s) == Parse(t) <==> Normalise(s) == Normalise(t)
  {
    PrintThenParse(Parse(s).value);
    PrintThenParse(Parse(t).value);
  }
}
