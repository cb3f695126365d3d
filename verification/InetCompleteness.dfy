/**
 * Every spelling that section 2.2 of RFC 4291 allows is accepted and decoded to the
 * address it denotes, and what "::" does in an address that is already full.
 */
module InetCompleteness {
  import opened CText
  import opened Ipv6Spelling
  import opened InetPton
  import opened InetRecognition

  function AsItems(groups: seq<string>): (items: seq<Item>)
    ensures |items| == |groups| && forall i :: 0 <= i < |items| ==> items[i] == Group(groups[i])
  {
    seq(|groups|, i requires 0 <= i < |groups| => Group(groups[i]))
  }

  /** Groups and an optional quad, colon-separated, as items and a last part. */
  function TailPhrase(groups: seq<string>, quad: seq<string>): Phrase {
    if quad != [] then Phrase(AsItems(groups), Quad(quad))
    else if groups == [] then Phrase([], Nothing)
    else Phrase(AsItems(groups[..|groups| - 1]), LastGroup(groups[|groups| - 1]))
  }

  function AsPhrase(s: Spelling): Phrase {
    match s
    case Plain(groups, quad) => TailPhrase(groups, quad)
    case Compressed(left, right, quad) =>
      var tail := TailPhrase(right, quad);
      Phrase(AsItems(left) + ([Gap] + tail.items), tail.last)
  }

  // ----- items are additive -----

  lemma {:induction false} TextAppend(a: seq<Item>, b: seq<Item>)
    ensures ItemsText(a + b) == ItemsText(a) + ItemsText(b)
  {
    hide ItemText;
    if a == [] {
      assert a + b == b;
    } else {
      assert (a + b)[1..] == a[1..] + b;
      TextAppend(a[1..], b);
      Assoc(ItemText(a[0]), ItemsText(a[1..]), ItemsText(b));
    }
  }

  lemma {:induction false} BytesAppend(a: seq<Item>, b: seq<Item>)
    requires ItemsOk(a) && ItemsOk(b)
    ensures ItemsOk(a + b)
    ensures ItemsBytes(a + b) == ItemsBytes(a) + ItemsBytes(b)
  {
    hide ItemOk, ItemBytes;
    if a == [] {
      assert a + b == b;
    } else {
      assert (a + b)[1..] == a[1..] + b;
      BytesAppend(a[1..], b);
      Assoc(ItemBytes(a[0]), ItemsBytes(a[1..]), ItemsBytes(b));
    }
  }

  lemma {:induction false} GapsAppend(a: seq<Item>, b: seq<Item>)
    requires ItemsOk(a) && ItemsOk(b) && ItemsOk(a + b)
    ensures Gaps(a + b) == Gaps(a) + Gaps(b)
    ensures Gaps(a) == 0 && Gaps(b) >= 1 ==> GapAt(a + b) == |ItemsBytes(a)| + GapAt(b)
  {
    hide ItemOk, ItemBytes;
    if a == [] {
      assert a + b == b;
    } else {
      assert (a + b)[1..] == a[1..] + b;
      GapsAppend(a[1..], b);
    }
  }

  lemma {:induction false} GroupItems(groups: seq<string>)
    requires AllGroups(groups)
    ensures ItemsOk(AsItems(groups)) && Gaps(AsItems(groups)) == 0
    ensures ItemsBytes(AsItems(groups)) == GroupBytes(groups)
    ensures ItemsText(AsItems(groups)) == if groups == [] then "" else Join(groups, ':') + ":"
  {
    if groups != [] {
      assert AsItems(groups)[1..] == AsItems(groups[1..]);
      GroupItems(groups[1..]);
      assert ItemOk(AsItems(groups)[0]);
      JoinCons(groups, ':');
      Assoc(groups[0], ":" + Join(groups[1..], ':'), ":");
      Assoc(":", Join(groups[1..], ':'), ":");
      Assoc(groups[0], ":", Join(groups[1..], ':') + ":");
    }
  }

  lemma {:induction false} GroupBytesSnoc(groups: seq<string>, d: string)
    requires AllGroups(groups) && IsGroup(d)
    ensures AllGroups(groups + [d])
    ensures GroupBytes(groups + [d]) == GroupBytes(groups) + WordBytes(Value(d, 16))
  {
    if groups == [] {
      assert ([] + [d])[1..] == [];
    } else {
      assert (groups + [d])[1..] == groups[1..] + [d];
      GroupBytesSnoc(groups[1..], d);
    }
  }

  lemma {:induction false} JoinSnoc(parts: seq<string>, d: string, sep: char)
    ensures Join(parts + [d], sep) == if parts == [] then d else Join(parts, sep) + [sep] + d
  {
    if parts != [] {
      assert (parts + [d])[1..] == parts[1..] + [d];
      JoinSnoc(parts[1..], d, sep);
    }
  }

  lemma TailReads(groups: seq<string>, quad: seq<string>)
    requires AllGroups(groups) && IsQuad(quad)
    ensures var p := TailPhrase(groups, quad);
            && ItemsOk(p.items) && LastOk(p.last) && Gaps(p.items) == 0
            && AllBytes(p) == GroupBytes(groups) + OctetBytes(quad)
            && ItemsText(p.items) + LastText(p.last) == Join(groups + QuadPart(quad), ':')
  {
    if quad != [] {
      GroupItems(groups);
      JoinSnoc(groups, Join(quad, '.'), ':');
    } else if groups != [] {
      var front, d := groups[..|groups| - 1], groups[|groups| - 1];
      assert groups == front + [d];
      GroupItems(front);
      GroupBytesSnoc(front, d);
      JoinSnoc(front, d, ':');
      assert groups + QuadPart(quad) == groups;
    }
  }

  lemma PhraseOfSpelling(s: Spelling)
    requires Legal(s)
    ensures Acceptable(AsPhrase(s))
    ensures PhraseText(AsPhrase(s)) == Text(s)
    ensures PhraseAddress(AsPhrase(s)) == Address(s)
  {
    match s
    case Plain(groups, quad) =>
      PlainPhrase(groups, quad);
    case Compressed(left, right, quad) =>
      CompressedBytes(left, right, quad);
      CompressedText(left, right, quad);
  }

  lemma PlainPhrase(groups: seq<string>, quad: seq<string>)
    requires Legal(Plain(groups, quad))
    ensures var p := TailPhrase(groups, quad);
            && Acceptable(p)
            && PhraseText(p) == Text(Plain(groups, quad))
            && PhraseAddress(p) == Address(Plain(groups, quad))
  {
    TailReads(groups, quad);
    FirstIsGroup(groups, quad);
    hide ItemsText, LastText, Join, ItemsBytes, LastBytes, Gaps, TailPhrase;
    var p := TailPhrase(groups, quad);
    assert "" + (ItemsText(p.items) + LastText(p.last)) == ItemsText(p.items) + LastText(p.last);
  }

  lemma FirstIsGroup(groups: seq<string>, quad: seq<string>)
    ensures var p := TailPhrase(groups, quad); p.items != [] ==> p.items[0].Group?
  {
  }

  /** Gap-free items, a gap, and more gap-free items. */
  function Around(a: seq<Item>, b: seq<Item>): seq<Item> {
    a + ([Gap] + b)
  }

  lemma AroundGap(a: seq<Item>, b: seq<Item>)
    requires ItemsOk(a) && ItemsOk(b) && Gaps(a) == 0 && Gaps(b) == 0
    ensures ItemsOk(Around(a, b)) && Gaps(Around(a, b)) == 1
    ensures GapAt(Around(a, b)) == |ItemsBytes(a)|
    ensures ItemsBytes(Around(a, b)) == ItemsBytes(a) + ItemsBytes(b)
  {
    var c := [Gap] + b;
    assert c[1..] == b;
    BytesAppend(a, c);
    GapsAppend(a, c);
  }

  lemma AroundText(a: seq<Item>, b: seq<Item>)
    ensures ItemsText(Around(a, b)) == ItemsText(a) + (":" + ItemsText(b))
  {
    var c := [Gap] + b;
    assert c[1..] == b;
    TextAppend(a, c);
  }

  lemma CompressedBytes(left: seq<string>, right: seq<string>, quad: seq<string>)
    requires Legal(Compressed(left, right, quad))
    ensures Acceptable(AsPhrase(Compressed(left, right, quad)))
    ensures PhraseAddress(AsPhrase(Compressed(left, right, quad))) == Address(Compressed(left, right, quad))
  {
    TailReads(right, quad);
    GroupItems(left);
    hide ItemsBytes, LastBytes, Gaps, GapAt, TailPhrase, GroupBytes, OctetBytes, Elide, AsItems;
    var tail := TailPhrase(right, quad);
    AroundGap(AsItems(left), tail.items);
    var l, g, q := GroupBytes(left), GroupBytes(right), OctetBytes(quad);
    Assoc(l, ItemsBytes(tail.items), LastBytes(tail.last));
    ElideSplit(l, g + q);
    Assoc(l + Zeros(ADDRESS_SIZE - |l| - |g + q|), g, q);
  }

  lemma ElideSplit(l: seq<byte>, r: seq<byte>)
    requires |l| + |r| < ADDRESS_SIZE
    ensures Elide(l + r, |l|) == l + Zeros(ADDRESS_SIZE - |l| - |r|) + r
  {
    assert (l + r)[..|l|] == l && (l + r)[|l|..] == r;
  }

  lemma CompressedText(left: seq<string>, right: seq<string>, quad: seq<string>)
    requires Legal(Compressed(left, right, quad))
    ensures PhraseText(AsPhrase(Compressed(left, right, quad))) == Text(Compressed(left, right, quad))
  {
    TailReads(right, quad);
    GroupItems(left);
    AroundFirst(left, TailPhrase(right, quad).items);
    NoJoin();
    hide ItemsText, LastText, Join, TailPhrase, QuadPart, AsItems;
    var tail := TailPhrase(right, quad);
    AroundText(AsItems(left), tail.items);
    var lead := if left == [] then ":" else "";
    Assemble(lead, ItemsText(AsItems(left)), ItemsText(tail.items), LastText(tail.last),
             Join(left, ':'), Join(right + QuadPart(quad), ':'));
  }

  lemma NoJoin()
    ensures Join([], ':') == ""
  {
  }

  lemma AroundFirst(left: seq<string>, b: seq<Item>)
    ensures var items := Around(AsItems(left), b); items != [] && (items[0].Gap? <==> left == [])
  {
  }

  lemma Assemble(lead: string, l: string, b: string, c: string, joined: string, rest: string)
    requires b + c == rest
    requires (lead == "" && l == joined + ":") || (lead == ":" && l == "" && joined == "")
    ensures lead + ((l + (":" + b)) + c) == joined + "::" + rest
  {
    assert lead + ((l + (":" + b)) + c) == (lead + l) + ":" + (b + c);
    assert lead + l == joined + ":";
    assert joined + ":" + ":" == joined + "::";
  }

  /** Completeness: every legal spelling is parsed to the address it denotes. */
  lemma EverySpellingParses(s: Spelling)
    requires Legal(s)
    ensures Parse(Text(s)) == Some(Address(s))
  {
    PhraseOfSpelling(s);
    PhraseAccepted(AsPhrase(s));
  }

  // ----- "::" in a full address -----

  /** The header comment's claim: a gap in a full address is silently ignored. */
  predicate GapIgnored(p: Phrase)
    requires Acceptable(p) && Gaps(p.items) == 1 && |AllBytes(p)| == ADDRESS_SIZE
  {
    Parse(PhraseText(p)) == Some(AllBytes(p))
  }

  /** It holds exactly when only zeros follow the gap: the shift clears what it moves onto itself. */
  lemma GapIgnoredIff(p: Phrase)
    requires Acceptable(p) && Gaps(p.items) == 1 && |AllBytes(p)| == ADDRESS_SIZE
    ensures GapIgnored(p) <==> forall k :: GapAt(p.items) <= k < ADDRESS_SIZE ==> AllBytes(p)[k] == 0
  {
    PhraseAccepted(p);
    var full, g := AllBytes(p), GapAt(p.items);
    var a := Elide(full, g);
    forall k | g <= k < ADDRESS_SIZE ensures a[k] == 0 {}
    if forall k :: g <= k < ADDRESS_SIZE ==> full[k] == 0 {
      assert a == full;
    }
  }

  /** 1:2:3:4:5:6:7::8 loses its last group. */
  lemma GapNotIgnored(s: string, t: string)
    requires s == "1:2:3:4:5:6:7::8" && t == "1:2:3:4:5:6:7:8"
    ensures Parse(s) == Some([0, 1, 0, 2, 0, 3, 0, 4, 0, 5, 0, 6, 0, 7, 0, 0])
    ensures Parse(t) == Some([0, 1, 0, 2, 0, 3, 0, 4, 0, 5, 0, 6, 0, 7, 0, 8])
  {
    var g := OneToSeven();
    OneDigit('8');
    WithoutGap(g, "8");
    WithGap(g, "8");
    assert Join(g, ':') + ":" + "8" == t && Join(g, ':') + "::" + "8" == s;
    assert GroupBytes(g) + [0, 8] == [0, 1, 0, 2, 0, 3, 0, 4, 0, 5, 0, 6, 0, 7, 0, 8];
    assert GroupBytes(g) + Zeros(2) == [0, 1, 0, 2, 0, 3, 0, 4, 0, 5, 0, 6, 0, 7, 0, 0];
  }

  lemma WithoutGap(g: seq<string>, d: string)
    requires |g| == 7 && AllGroups(g) && IsGroup(d)
    ensures Parse(Join(g, ':') + ":" + d) == Some(GroupBytes(g) + WordBytes(Value(d, 16)))
  {
    hide Parse, Value, Join, ItemsText, ItemsBytes, Gaps, GroupBytes;
    GroupItems(g);
    var p := Phrase(AsItems(g), LastGroup(d));
    PhraseAccepted(p);
    assert p.items[0] == Group(g[0]);
    assert "" + ((Join(g, ':') + ":") + d) == Join(g, ':') + ":" + d;
  }

  lemma WithGap(g: seq<string>, d: string)
    requires |g| == 7 && AllGroups(g) && IsGroup(d)
    ensures Parse(Join(g, ':') + "::" + d) == Some(GroupBytes(g) + Zeros(2))
  {
    NoItems();
    hide Parse, Value, Join, ItemsText, ItemsBytes, Gaps, GapAt, GroupBytes;
    GroupItems(g);
    AroundGap(AsItems(g), []);
    AroundText(AsItems(g), []);
    var p := Phrase(Around(AsItems(g), []), LastGroup(d));
    assert p.items[0] == Group(g[0]);
    assert "" + d == d;
    Assemble("", Join(g, ':') + ":", "", d, Join(g, ':'), d);
    PhraseAccepted(p);
    assert GroupBytes(g) + [] == GroupBytes(g);
    assert AllBytes(p)[..14] == GroupBytes(g);
  }

  lemma NoItems()
    ensures ItemsText([]) == "" && ItemsBytes([]) == [] && Gaps([]) == 0
  {
  }

  lemma OneDigit(c: char)
    requires IsHex(c)
    ensures IsGroup([c]) && WordBytes(Value([c], 16)) == [0, HexDigit(c)]
  {
    assert [c] == "" + [c];
    ValueSnoc("", c, 16);
  }

  lemma DigitThen(c: char, rest: seq<string>)
    requires IsHex(c) && AllGroups(rest) && rest != []
    ensures AllGroups([[c]] + rest)
    ensures Join([[c]] + rest, ':') == [c] + ":" + Join(rest, ':')
    ensures GroupBytes([[c]] + rest) == [0, HexDigit(c)] + GroupBytes(rest)
  {
    OneDigit(c);
    assert ([[c]] + rest)[1..] == rest;
  }

  lemma FourToSeven() returns (g: seq<string>)
    ensures |g| == 4 && AllGroups(g)
    ensures Join(g, ':') == "4:5:6:7"
    ensures GroupBytes(g) == [0, 4, 0, 5, 0, 6, 0, 7]
  {
    OneDigit('7');
    g := ["7"];
    assert g[1..] == [] && GroupBytes(g) == [0, 7] && Join(g, ':') == "7";
    hide Join, GroupBytes, Value, AllGroups;
    DigitThen('6', g); g := [['6']] + g;
    DigitThen('5', g); g := [['5']] + g;
    DigitThen('4', g); g := [['4']] + g;
  }

  lemma OneToSeven() returns (g: seq<string>)
    ensures |g| == 7 && AllGroups(g) && g[0] == "1"
    ensures Join(g, ':') == "1:2:3:4:5:6:7"
    ensures GroupBytes(g) == [0, 1, 0, 2, 0, 3, 0, 4, 0, 5, 0, 6, 0, 7]
  {
    hide Join, GroupBytes, Value, AllGroups, IsHex, HexDigit;
    g := FourToSeven();
    Digits123();
    DigitThen('3', g); g := [['3']] + g;
    DigitThen('2', g); g := [['2']] + g;
    DigitThen('1', g); g := [['1']] + g;
  }

  lemma Digits123()
    ensures IsHex('1') && IsHex('2') && IsHex('3')
    ensures HexDigit('1') == 1 && HexDigit('2') == 2 && HexDigit('3') == 3
  {
  }
}
