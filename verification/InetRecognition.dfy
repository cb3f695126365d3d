/**
 * Exactly which texts the parser accepts and what it makes of them: every legal
 * spelling of RFC 4291, and nothing outside the grammar of phrases.
 */
module InetRecognition {
  import opened CText
  import opened Ipv6Spelling
  import opened InetPton

  // ----- dotted quads -----

  /** Digits that keep the open octet below 256 are simply collected. */
  lemma {:induction false} ScanOctetDigits(done: seq<byte>, d: string, e: string, t: string)
    requires |done| < QUAD_SIZE && AllDec(d) && AllDec(e) && (d + e == "" || IsOctet(d + e))
    ensures d == "" || IsOctet(d)
    ensures ScanQuad(done, d, e + t) == ScanQuad(done, d + e, t)
    decreases |e|
  {
    assert AllHex(d + e);
    ValuePrefix(d, e, 10);
    hide Value, HexDigit, IsHex;
    if e == "" {
      assert e + t == t && d + e == d;
    } else {
      var c := e[0];
      assert (e + t)[0] == c && (e + t)[1..] == e[1..] + t;
      assert d + [c] + e[1..] == d + e;
      ScanOctetDigits(done, d + [c], e[1..], t);
    }
  }

  lemma OctetBytesCons(octets: seq<string>)
    requires octets != [] && AllOctets(octets)
    ensures OctetBytes(octets) == [Value(octets[0], 10)] + OctetBytes(octets[1..])
  {
  }

  lemma JoinCons(parts: seq<string>, sep: char)
    requires parts != []
    ensures Join(parts, sep) ==
      parts[0] + (if |parts| == 1 then "" else [sep] + Join(parts[1..], sep))
  {
    if |parts| > 1 {
      assert parts[0] + [sep] + Join(parts[1..], sep) == parts[0] + ([sep] + Join(parts[1..], sep));
    }
  }

  /** A list of octets joined by dots is read octet by octet. */
  lemma {:induction false} QuadAccepted(done: seq<byte>, octets: seq<string>)
    requires octets != [] && |done| + |octets| == QUAD_SIZE && AllOctets(octets)
    ensures ScanQuad(done, "", Join(octets, '.')) == Some(done + OctetBytes(octets))
    decreases |octets|
  {
    hide Join, OctetBytes, Value, IsDec, ScanQuad;
    var d := octets[0];
    var t := if |octets| == 1 then "" else "." + Join(octets[1..], '.');
    JoinCons(octets, '.');
    OctetBytesCons(octets);
    assert "" + d == d;
    ScanOctetDigits(done, "", d, t);
    if |octets| == 1 {
      NoOctets(octets[1..]);
      assert d + "" == d && [Value(d, 10)] + [] == [Value(d, 10)];
      QuadEnd(done, d);
    } else {
      assert t[0] == '.' && t[1..] == Join(octets[1..], '.');
      QuadDot(done, d, t);
      QuadAccepted(done + [Value(d, 10)], octets[1..]);
      Assoc(done, [Value(d, 10)], OctetBytes(octets[1..]));
    }
  }

  lemma NoOctets(octets: seq<string>)
    requires octets == []
    ensures OctetBytes(octets) == []
  {
  }

  /** Whatever the quad scanner accepts is a list of octets joined by dots. */
  lemma {:induction false} QuadSound(done: seq<byte>, d: string, t: string) returns (octets: seq<string>)
    requires |done| < QUAD_SIZE && (d == "" || IsOctet(d)) && ScanQuad(done, d, t).Some?
    ensures octets != [] && |done| + |octets| == QUAD_SIZE && AllOctets(octets)
    ensures d + t == Join(octets, '.')
    decreases |t|
  {
    hide Value, IsDec, Join, ScanQuad;
    if t == "" {
      QuadEnd(done, d);
      octets := [d];
      JoinCons(octets, '.');
      assert d + t == d && d + "" == d;
    } else if IsDec(t[0]) {
      QuadDigit(done, d, t);
      octets := QuadSound(done, d + [t[0]], t[1..]);
      Shift(d, t);
    } else if t[0] == '.' && d != "" {
      QuadDot(done, d, t);
      var rest := QuadSound(done + [Value(d, 10)], "", t[1..]);
      octets := [d] + rest;
      JoinCons(octets, '.');
      assert octets[1..] == rest && "" + t[1..] == t[1..];
      assert t == "." + t[1..];
    } else {
      QuadOther(done, d, t);
    }
  }

  /** inet_pton4 accepts exactly four dot-separated decimal numbers below 256, leading zeros allowed. */
  lemma QuadRecognition(t: string)
    ensures ParseQuad(t).Some? <==>
      exists o: seq<string> :: |o| == QUAD_SIZE && AllOctets(o) && Join(o, '.') == t
    ensures forall o: seq<string> :: |o| == QUAD_SIZE && AllOctets(o) && Join(o, '.') == t ==>
      ParseQuad(t) == Some(OctetBytes(o))
  {
    forall o: seq<string> | |o| == QUAD_SIZE && AllOctets(o) && Join(o, '.') == t
      ensures ParseQuad(t) == Some(OctetBytes(o))
    {
      QuadAccepted([], o);
      assert [] + OctetBytes(o) == OctetBytes(o);
    }
    if ParseQuad(t).Some? {
      var o := QuadSound([], "", t);
      assert "" + t == t;
    }
  }

  // ----- phrases -----

  lemma {:induction false} ScanGroupDigits(out: seq<byte>, gap: Option<nat>, d: string, e: string, t: string)
    requires |out| <= ADDRESS_SIZE && (gap.Some? ==> gap.value <= |out|)
    requires AllHex(d) && AllHex(e) && Value(d + e, 16) <= 0xffff
    ensures d == "" || IsGroup(d)
    ensures d + e == "" || IsGroup(d + e)
    ensures Scan(out, gap, d, e + t) == Scan(out, gap, d + e, t)
    decreases |e|
  {
    ValuePrefix(d, e, 16);
    if e == "" {
      assert e + t == t && d + e == d;
    } else {
      var c := e[0];
      assert (e + t)[0] == c && (e + t)[1..] == e[1..] + t;
      assert d + [c] + e[1..] == d + e;
      ScanGroupDigits(out, gap, d + [c], e[1..], t);
    }
  }

  lemma OpenGroup(out: seq<byte>, gap: Option<nat>, e: string, t: string)
    requires |out| <= ADDRESS_SIZE && (gap.Some? ==> gap.value <= |out|) && IsGroup(e)
    ensures Scan(out, gap, "", e + t) == Scan(out, gap, e, t)
  {
    assert "" + e == e;
    ScanGroupDigits(out, gap, "", e, t);
  }

  /** The scanner's gap after the items. */
  function GapAfter(out: nat, gap: Option<nat>, items: seq<Item>): Option<nat>
    requires ItemsOk(items)
  {
    if Gaps(items) == 0 then gap else Some(out + GapAt(items))
  }

  lemma ReadGroup(out: seq<byte>, gap: Option<nat>, e: string, rest: string)
    requires |out| + 2 <= ADDRESS_SIZE && (gap.Some? ==> gap.value <= |out|) && IsGroup(e)
    ensures Scan(out, gap, "", (e + ":") + rest) == Scan(out + WordBytes(Value(e, 16)), gap, "", rest)
  {
    hide Scan, Value;
    var t := ":" + rest;
    assert t[0] == ':' && t[1..] == rest;
    Assoc(e, ":", rest);
    OpenGroup(out, gap, e, t);
    ScanColon(out, gap, e, t);
  }

  lemma ReadGap(out: seq<byte>, rest: string)
    requires |out| <= ADDRESS_SIZE
    ensures Scan(out, None, "", ":" + rest) == Scan(out + [], Some(|out|), "", rest)
  {
    hide Scan;
    var t := ":" + rest;
    assert t[0] == ':' && t[1..] == rest;
    assert out + [] == out;
    ScanColon(out, None, "", t);
  }

  lemma ReadItem(out: seq<byte>, gap: Option<nat>, it: Item, rest: string)
    requires gap.Some? ==> gap.value <= |out| && it.Group?
    requires ItemOk(it) && |out| + |ItemBytes(it)| <= ADDRESS_SIZE
    ensures Scan(out, gap, "", ItemText(it) + rest) ==
      Scan(out + ItemBytes(it), if it.Gap? then Some(|out|) else gap, "", rest)
  {
    hide Scan, Value;
    match it
    case Group(e) => ReadGroup(out, gap, e, rest);
    case Gap => ReadGap(out, rest);
  }

  lemma Assoc<T>(x: seq<T>, y: seq<T>, z: seq<T>)
    ensures (x + y) + z == x + (y + z)
  {
  }

  lemma ItemsCons(items: seq<Item>)
    requires items != [] && ItemsOk(items)
    ensures ItemOk(items[0]) && ItemsOk(items[1..])
    ensures ItemsText(items) == ItemText(items[0]) + ItemsText(items[1..])
    ensures ItemsBytes(items) == ItemBytes(items[0]) + ItemsBytes(items[1..])
    ensures Gaps(items) == (if items[0].Gap? then 1 else 0) + Gaps(items[1..])
    ensures Gaps(items) >= 1 ==> GapAt(items) == if items[0].Gap? then 0 else 2 + GapAt(items[1..])
  {
    hide ItemOk, ItemText, ItemBytes;
  }

  /** The items of a phrase are read one by one, as long as their bytes fit. */
  lemma {:induction false} ItemsRead(out: seq<byte>, gap: Option<nat>, items: seq<Item>, t: string)
    requires gap.Some? ==> gap.value <= |out|
    requires ItemsOk(items) && |out| + |ItemsBytes(items)| <= ADDRESS_SIZE
    requires Gaps(items) + (if gap.Some? then 1 else 0) <= 1
    ensures Scan(out, gap, "", ItemsText(items) + t) ==
            Scan(out + ItemsBytes(items), GapAfter(|out|, gap, items), "", t)
    decreases |items|
  {
    hide Scan, ItemsText, ItemsBytes, Gaps, GapAt, ItemsOk, ItemOk, ItemText, ItemBytes;
    if items == [] {
      ItemsNil(out, t);
    } else {
      var it, rest := items[0], items[1..];
      ItemsCons(items);
      Assoc(ItemText(it), ItemsText(rest), t);
      Assoc(out, ItemBytes(it), ItemsBytes(rest));
      ReadItem(out, gap, it, ItemsText(rest) + t);
      ItemsRead(out + ItemBytes(it), if it.Gap? then Some(|out|) else gap, rest, t);
    }
  }

  lemma ItemsNil(out: seq<byte>, t: string)
    ensures ItemsText([]) + t == t && out + ItemsBytes([]) == out && Gaps([]) == 0
  {
  }

  lemma LastRead(out: seq<byte>, gap: Option<nat>, last: Last)
    requires LastOk(last) && |out| + |LastBytes(last)| <= ADDRESS_SIZE
    requires gap.Some? ==> gap.value <= |out|
    ensures Scan(out, gap, "", LastText(last)) == Finish(out + LastBytes(last), gap, "")
  {
    match last
    case Nothing =>
      assert out + LastBytes(last) == out;
    case LastGroup(d) =>
      assert d + "" == d;
      OpenGroup(out, gap, d, "");
    case Quad(octets) =>
      QuadRead(out, gap, octets);
  }

  lemma QuadRead(out: seq<byte>, gap: Option<nat>, octets: seq<string>)
    requires |octets| == QUAD_SIZE && AllOctets(octets) && |out| + QUAD_SIZE <= ADDRESS_SIZE
    requires gap.Some? ==> gap.value <= |out|
    ensures Scan(out, gap, "", Join(octets, '.')) == Finish(out + OctetBytes(octets), gap, "")
  {
    var e := octets[0];
    var t := "." + Join(octets[1..], '.');
    JoinCons(octets, '.');
    OctetAsGroup(e);
    OpenGroup(out, gap, e, t);
    QuadAccepted([], octets);
    hide Scan, ScanQuad, Join, OctetBytes, Finish, Value;
    assert [] + OctetBytes(octets) == OctetBytes(octets);
    ScanQuadTail(out, gap, e, t);
  }

  /** The decimal digits of an octet, misread as hex, still fit a group. */
  lemma OctetAsGroup(e: string)
    requires IsOctet(e)
    ensures IsGroup(e)
  {
    OctetMisread(e);
  }

  lemma {:induction false} OctetMisread(e: string)
    requires AllDec(e)
    ensures Value(e, 10) <= 255 ==> Value(e, 16) <= 0x299
    ensures Value(e, 10) <= 25 ==> Value(e, 16) <= 0x29
    ensures Value(e, 10) <= 2 ==> Value(e, 16) <= 2
    ensures Value(e, 10) <= 0 ==> Value(e, 16) <= 0
  {
    if e != "" {
      OctetMisread(e[..|e| - 1]);
    }
  }

  /** Every acceptable phrase is accepted, as the address it stands for. */
  lemma PhraseAccepted(p: Phrase)
    requires Acceptable(p)
    ensures Parse(PhraseText(p)) == Some(PhraseAddress(p))
  {
    ParseSkips(p);
    hide Parse, Scan;
    ItemsRead([], None, p.items, LastText(p.last));
    hide ItemsText, LastText;
    assert [] + ItemsBytes(p.items) == ItemsBytes(p.items);
    LastRead(ItemsBytes(p.items), GapAfter(0, None, p.items), p.last);
  }

  /** The leading :: is handled before the scan. */
  lemma ParseSkips(p: Phrase)
    requires ItemsOk(p.items) && LastOk(p.last)
    ensures Parse(PhraseText(p)) == Scan([], None, "", ItemsText(p.items) + LastText(p.last))
  {
    var t := ItemsText(p.items) + LastText(p.last);
    hide Scan;
    if p.items != [] && p.items[0].Gap? {
      GapStarts(p);
      assert PhraseText(p) == ":" + t;
      assert (":" + t)[1..] == t;
    } else {
      NoLeadingColon(p);
      assert PhraseText(p) == "" + t == t;
    }
  }

  lemma GapStarts(p: Phrase)
    requires p.items != [] && p.items[0].Gap?
    ensures var t := ItemsText(p.items) + LastText(p.last); t != "" && t[0] == ':'
  {
    Assoc(":", ItemsText(p.items[1..]), LastText(p.last));
  }

  lemma NoLeadingColon(p: Phrase)
    requires ItemsOk(p.items) && LastOk(p.last)
    requires p.items == [] || p.items[0].Group?
    ensures var t := ItemsText(p.items) + LastText(p.last); t == "" || t[0] != ':'
  {
    if p.items == [] {
      assert "" + LastText(p.last) == LastText(p.last);
      if p.last.Quad? {
        JoinCons(p.last.octets, '.');
        assert IsOctet(p.last.octets[0]);
      }
    } else {
      var d := p.items[0].digits;
      assert ItemOk(p.items[0]);
      assert (ItemsText(p.items) + LastText(p.last))[0] == d[0];
    }
  }

  /** The phrase `p` accounts for the open digits and the rest of the text. */
  ghost predicate ReadsBack(out: nat, gap: bool, text: string, p: Phrase) {
    && ItemsOk(p.items) && LastOk(p.last)
    && text == ItemsText(p.items) + LastText(p.last)
    && Gaps(p.items) + (if gap then 1 else 0) <= 1
    && out + |AllBytes(p)| <= ADDRESS_SIZE
    && (!gap && Gaps(p.items) == 0 ==> out + |AllBytes(p)| == ADDRESS_SIZE)
  }

  lemma ConsItem(out: nat, gap: bool, it: Item, text: string, q: Phrase)
    requires ItemOk(it) && (gap ==> it.Group?)
    requires ReadsBack(out + |ItemBytes(it)|, gap || it.Gap?, text, q)
    ensures ReadsBack(out, gap, ItemText(it) + text, Phrase([it] + q.items, q.last))
  {
    var items := [it] + q.items;
    assert items[0] == it && items[1..] == q.items;
    ItemsCons(items);
    hide ItemText, ItemBytes, ItemsText, ItemsBytes, Gaps, LastText, LastBytes;
    Assoc(ItemText(it), ItemsText(q.items), LastText(q.last));
  }

  lemma LastOnly(out: nat, gap: bool, last: Last)
    requires LastOk(last) && out + |LastBytes(last)| <= ADDRESS_SIZE
    requires !gap ==> out + |LastBytes(last)| == ADDRESS_SIZE
    ensures ReadsBack(out, gap, LastText(last), Phrase([], last))
  {
  }

  lemma ColonSplit(d: string, t: string)
    requires t != "" && t[0] == ':'
    ensures d + t == ItemText(if d == "" then Gap else Group(d)) + t[1..]
  {
    assert t == ":" + t[1..];
  }

  lemma LastSound(out: nat, gap: bool, d: string) returns (p: Phrase)
    requires d == "" || IsGroup(d)
    requires out + (if d == "" then 0 else 2) <= ADDRESS_SIZE
    requires !gap ==> out + (if d == "" then 0 else 2) == ADDRESS_SIZE
    ensures ReadsBack(out, gap, d + "", p)
  {
    assert d + "" == d;
    var last := if d == "" then Nothing else LastGroup(d);
    LastOnly(out, gap, last);
    p := Phrase([], last);
  }

  lemma FinishSound(out: seq<byte>, gap: Option<nat>, d: string)
    requires ScanState(out, gap, d) && Finish(out, gap, d).Some?
    ensures |out| + (if d == "" then 0 else 2) <= ADDRESS_SIZE
    ensures gap == None ==> |out| + (if d == "" then 0 else 2) == ADDRESS_SIZE
  {
  }

  /** Whatever the scanner accepts can be read back as items and a last part. */
  lemma {:induction false} ScanSound(out: seq<byte>, gap: Option<nat>, d: string, t: string) returns (p: Phrase)
    requires ScanState(out, gap, d) && Scan(out, gap, d, t).Some?
    ensures ReadsBack(|out|, gap.Some?, d + t, p)
    decreases |t|
  {
    hide Scan, Finish, ReadsBack, Value, HexDigit, ItemText, IsHex, ParseQuad;
    if t == "" {
      ScanEnd(out, gap, d);
      FinishSound(out, gap, d);
      p := LastSound(|out|, gap.Some?, d);
    } else if IsHex(t[0]) {
      ScanDigit(out, gap, d, t);
      p := ScanSound(out, gap, d + [t[0]], t[1..]);
      Shift(d, t);
    } else if t[0] == ':' {
      var it, u := if d == "" then Gap else Group(d), t[1..];
      assert "" + u == u;
      ColonSplit(d, t);
      ScanColon(out, gap, d, t);
      assert d == "" ==> out + ItemBytes(it) == out;
      var q := ScanSound(out + ItemBytes(it), if d == "" then Some(|out|) else gap, "", u);
      ConsItem(|out|, gap.Some?, it, u, q);
      p := Phrase([it] + q.items, q.last);
    } else if t[0] == '.' {
      ScanQuadTail(out, gap, d, t);
      p := QuadTailSound(out, gap, d + t);
    } else {
      ScanOther(out, gap, d, t);
    }
  }

  lemma Shift(d: string, t: string)
    requires t != ""
    ensures (d + [t[0]]) + t[1..] == d + t
  {
  }

  lemma QuadTailSound(out: seq<byte>, gap: Option<nat>, t: string) returns (p: Phrase)
    requires |out| + QUAD_SIZE <= ADDRESS_SIZE && (gap.Some? ==> gap.value <= |out|)
    requires ParseQuad(t).Some? && Finish(out + ParseQuad(t).value, gap, "").Some?
    ensures ReadsBack(|out|, gap.Some?, t, p)
  {
    FinishSound(out + ParseQuad(t).value, gap, "");
    var octets := QuadSound([], "", t);
    assert "" + t == t;
    LastOnly(|out|, gap.Some?, Quad(octets));
    p := Phrase([], Quad(octets));
  }

  /** inet_pton6 accepts exactly the texts of the acceptable phrases. */
  lemma Recognition(s: string)
    ensures Parse(s).Some? <==> exists p :: Acceptable(p) && PhraseText(p) == s
    ensures forall p :: Acceptable(p) && PhraseText(p) == s ==> Parse(s) == Some(PhraseAddress(p))
  {
    forall p | Acceptable(p) && PhraseText(p) == s
      ensures Parse(s) == Some(PhraseAddress(p))
    {
      PhraseAccepted(p);
    }
    if Parse(s).Some? {
      var p := ParseSound(s);
    }
  }

  lemma ParseSound(s: string) returns (p: Phrase)
    requires Parse(s).Some?
    ensures Acceptable(p) && PhraseText(p) == s
  {
    var t := if s != "" && s[0] == ':' then s[1..] else s;
    assert "" + t == t;
    p := ScanSound([], None, "", t);
    hide Scan, Parse, ItemsText, LastText;
    if p.items == [] || p.items[0].Group? {
      NoLeadingColon(p);
      assert s == "" + t;
    } else {
      GapStarts(p);
      assert s == ":" + t;
    }
  }
}
