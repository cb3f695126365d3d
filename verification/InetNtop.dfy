/**
 * The address printer, compat/inet_ntop.c: inet_ntop4 and inet_ntop6 as loops that
 * write through a buffer, proved against the canonical spelling of the address.
 */
module InetNtop {
  import opened CText
  import opened Ipv6Spelling
  import opened InetRecognition
  import opened InetCompleteness

  const WORDS := 8
  /** sizeof "ffff:ffff:ffff:ffff:ffff:ffff:255.255.255.255" */
  const TMP_SIZE := 46

  // ----- words and runs of zeros -----

  predicate IsWords(w: seq<nat>) {
    forall i :: 0 <= i < |w| ==> w[i] <= 0xffff
  }

  function Word(high: byte, low: byte): (w: nat)
    ensures w <= 0xffff
  {
    (high as int) * 256 + low as int
  }

  /** The bytes of an address as eight 16-bit words. */
  function Words(a: seq<byte>): (w: seq<nat>)
    requires |a| == ADDRESS_SIZE
    ensures |w| == WORDS && IsWords(w)
    ensures forall i :: 0 <= i < WORDS ==> w[i] == Word(a[2 * i], a[2 * i + 1])
  {
    seq(WORDS, i requires 0 <= i < WORDS => Word(a[2 * i], a[2 * i + 1]))
  }

  /** How many zero words start at index i. */
  function RunLength(w: seq<nat>, i: nat): (n: nat)
    requires i <= |w|
    ensures i + n <= |w|
    ensures forall k :: i <= k < i + n ==> w[k] == 0
    ensures i + n < |w| ==> w[i + n] != 0
    decreases |w| - i
  {
    if i == |w| || w[i] != 0 then 0 else 1 + RunLength(w, i + 1)
  }

  /** A stretch of words; base -1 stands for none. */
  datatype Run = Run(base: int, len: nat)

  /**
   * Sections 4.2.2 and 4.2.3 of RFC 5952: the leftmost among the longest runs of
   * zero words, provided it has two words or more.
   */
  ghost predicate IsBestRun(w: seq<nat>, r: Run) {
    if r.base == -1 then forall j :: 0 <= j <= |w| ==> RunLength(w, j) < 2
    else
      && 0 <= r.base <= |w|
      && r.len == RunLength(w, r.base) >= 2
      && (forall j :: 0 <= j <= |w| ==> RunLength(w, j) <= r.len)
      && (forall j :: 0 <= j < r.base ==> RunLength(w, j) < r.len)
  }

  function BestFrom(w: seq<nat>, i: nat): (r: Run)
    requires i <= |w|
    ensures forall j :: i <= j <= |w| ==> RunLength(w, j) <= r.len
    ensures r.base == -1 <==> r.len == 0
    ensures r.base != -1 ==> i <= r.base <= |w| && r.len == RunLength(w, r.base)
    ensures forall j :: i <= j < r.base ==> RunLength(w, j) < r.len
    decreases |w| - i
  {
    if i == |w| then Run(-1, 0)
    else
      var rest, here := BestFrom(w, i + 1), RunLength(w, i);
      if here >= rest.len && here > 0 then Run(i, here) else rest
  }

  function BestRun(w: seq<nat>): (r: Run)
    ensures IsBestRun(w, r) && (r.base == -1 ==> r.len == 0)
  {
    var r := BestFrom(w, 0);
    if r.len < 2 then Run(-1, 0) else r
  }

  lemma BestRunUnique(w: seq<nat>, r: Run)
    requires IsBestRun(w, r)
    ensures r.base == BestRun(w).base
    ensures r.base != -1 ==> r == BestRun(w)
  {
    var s := BestRun(w);
    if r.base != -1 {
      assert RunLength(w, r.base) == r.len;
    }
    if s.base != -1 {
      assert RunLength(w, s.base) == s.len;
    }
  }

  // ----- the canonical spelling -----

  function HexGroups(w: seq<nat>): (g: seq<string>)
    requires IsWords(w)
    ensures |g| == |w| && forall i :: 0 <= i < |g| ==> g[i] == Numeral(w[i], 16)
  {
    seq(|w|, i requires 0 <= i < |w| => Numeral(w[i], 16))
  }

  function DecOctets(b: seq<byte>): (o: seq<string>)
    ensures |o| == |b| && forall i :: 0 <= i < |o| ==> o[i] == Numeral(b[i], 10)
  {
    seq(|b|, i requires 0 <= i < |b| => Numeral(b[i], 10))
  }

  /** ::a.b.c.d and ::ffff:a.b.c.d, the addresses printed with a dotted quad. */
  predicate Encapsulates(w: seq<nat>, r: Run)
    requires |w| == WORDS
  {
    r.base == 0 && (r.len == 6 || (r.len == 5 && w[5] == 0xffff))
  }

  function Canonical(a: seq<byte>): Spelling
    requires |a| == ADDRESS_SIZE
  {
    var w := Words(a);
    var r := BestRun(w);
    if r.base == -1 then Plain(HexGroups(w), [])
    else if Encapsulates(w, r) then Compressed([], HexGroups(w[r.len..6]), DecOctets(a[12..]))
    else Compressed(HexGroups(w[..r.base]), HexGroups(w[r.base + r.len..]), [])
  }

  function CanonicalText(a: seq<byte>): string
    requires |a| == ADDRESS_SIZE
  {
    Text(Canonical(a))
  }

  // ----- the text as it grows, word by word -----

  /** What the loop appends for word i; `quad` is the dotted quad of the last two words. */
  function Piece(w: seq<nat>, quad: string, r: Run, i: nat): string
    requires |w| == WORDS && i < WORDS
  {
    if r.base != -1 && r.base <= i < r.base + r.len then (if i == r.base then ":" else "")
    else if Encapsulates(w, r) && i >= 6 then (if i == 6 then ":" + quad else "")
    else (if i != 0 then ":" else "") + Numeral(w[i], 16)
  }

  function Format(w: seq<nat>, quad: string, r: Run, i: nat): string
    requires |w| == WORDS && i <= WORDS
  {
    if i == 0 then "" else Format(w, quad, r, i - 1) + Piece(w, quad, r, i - 1)
  }

  function Trailer(r: Run): string {
    if r.base != -1 && r.base + r.len == WORDS then ":" else ""
  }

  /** Words b up to i in hex, colon-separated. */
  function HexText(w: seq<nat>, b: nat, i: nat): string
    requires IsWords(w) && b <= i <= |w|
  {
    Join(HexGroups(w[b..i]), ':')
  }

  lemma HexTextSnoc(w: seq<nat>, b: nat, i: nat)
    requires IsWords(w) && b <= i < |w|
    ensures HexText(w, b, i + 1) ==
      if b == i then Numeral(w[i], 16) else HexText(w, b, i) + (":" + Numeral(w[i], 16))
  {
    hide Join, Numeral;
    var g, n := HexGroups(w[b..i]), Numeral(w[i], 16);
    assert HexGroups(w[b..i + 1]) == g + [n];
    JoinSnoc(g, n, ':');
    Assoc(Join(g, ':'), ":", n);
  }

  /** Before the run the text is the first words, colon-separated. */
  lemma {:induction false} FormatLeft(w: seq<nat>, quad: string, r: Run, i: nat)
    requires |w| == WORDS && IsWords(w) && i <= WORDS && (r.base == -1 || i <= r.base)
    ensures Format(w, quad, r, i) == HexText(w, 0, i)
  {
    hide Numeral;
    if i > 0 {
      FormatLeft(w, quad, r, i - 1);
      HexTextSnoc(w, 0, i - 1);
      assert "" + ("" + Numeral(w[0], 16)) == Numeral(w[0], 16);
    }
  }

  /** Inside the run one colon is added, at its start. */
  lemma {:induction false} FormatInside(w: seq<nat>, quad: string, r: Run, i: nat)
    requires |w| == WORDS && IsWords(w)
    requires 0 <= r.base && r.base + r.len <= WORDS && r.base < i <= r.base + r.len
    ensures Format(w, quad, r, i) == HexText(w, 0, r.base) + ":"
  {
    hide Numeral, HexText;
    if i == r.base + 1 {
      FormatLeft(w, quad, r, r.base);
    } else {
      FormatInside(w, quad, r, i - 1);
      var t := Format(w, quad, r, i - 1);
      assert t + "" == t;
    }
  }

  lemma FormatNext(w: seq<nat>, quad: string, r: Run, i: nat)
    requires |w| == WORDS && IsWords(w) && i < WORDS && 0 <= r.base && r.len >= 1 && r.base + r.len <= i
    requires Encapsulates(w, r) ==> i < 6
    ensures Format(w, quad, r, i + 1) == Format(w, quad, r, i) + (":" + Numeral(w[i], 16))
  {
    hide Numeral;
  }

  /** After the run come a colon and the remaining words, colon-separated. */
  lemma {:induction false} FormatRight(w: seq<nat>, quad: string, r: Run, i: nat)
    requires |w| == WORDS && IsWords(w)
    requires 0 <= r.base && r.len >= 1 && r.base + r.len < i <= WORDS
    requires Encapsulates(w, r) ==> i <= 6
    ensures Format(w, quad, r, i) == HexText(w, 0, r.base) + "::" + HexText(w, r.base + r.len, i)
  {
    hide Format, HexText, Numeral, Encapsulates;
    var e, l, n := r.base + r.len, HexText(w, 0, r.base), Numeral(w[i - 1], 16);
    HexTextSnoc(w, e, i - 1);
    FormatNext(w, quad, r, i - 1);
    if i == e + 1 {
      FormatInside(w, quad, r, i - 1);
      Glue1(l, n);
    } else {
      FormatRight(w, quad, r, i - 1);
      Assoc(l + "::", HexText(w, e, i - 1), ":" + n);
    }
  }

  lemma Glue1(l: string, n: string)
    ensures (l + ":") + (":" + n) == l + "::" + n
  {
  }

  /** The whole text is the canonical spelling. */
  lemma FormatIsCanonical(a: seq<byte>)
    requires |a| == ADDRESS_SIZE
    ensures var w, quad := Words(a), Join(DecOctets(a[12..]), '.');
            Format(w, quad, BestRun(w), WORDS) + Trailer(BestRun(w)) == CanonicalText(a)
  {
    var w, quad := Words(a), Join(DecOctets(a[12..]), '.');
    var r := BestRun(w);
    if r.base == -1 {
      FormatLeft(w, quad, r, WORDS);
      assert w[0..WORDS] == w;
      assert HexGroups(w) + QuadPart([]) == HexGroups(w);
      assert Join(HexGroups(w), ':') + "" == Join(HexGroups(w), ':');
    } else if Encapsulates(w, r) {
      FormatEncapsulated(w, DecOctets(a[12..]), r);
    } else {
      FormatCompressed(w, quad, r);
    }
  }

  lemma FormatCompressed(w: seq<nat>, quad: string, r: Run)
    requires |w| == WORDS && IsWords(w) && 0 <= r.base && r.len >= 1 && r.base + r.len <= WORDS
    requires !Encapsulates(w, r)
    ensures Format(w, quad, r, WORDS) + Trailer(r) ==
      Text(Compressed(HexGroups(w[..r.base]), HexGroups(w[r.base + r.len..]), []))
  {
    NoJoin();
    hide Format, Join, Encapsulates, HexGroups;
    var e := r.base + r.len;
    assert w[0..r.base] == w[..r.base] && w[e..WORDS] == w[e..];
    var right := HexGroups(w[e..]);
    assert right + QuadPart([]) == right;
    if e == WORDS {
      assert right == [];
      FormatInside(w, quad, r, WORDS);
      Glue1(HexText(w, 0, r.base), "");
      assert ":" + "" == ":";
    } else {
      FormatRight(w, quad, r, WORDS);
      var t := Format(w, quad, r, WORDS);
      assert t + "" == t;
    }
  }

  lemma FormatQuad(w: seq<nat>, q: string, r: Run)
    requires |w| == WORDS && IsWords(w) && Encapsulates(w, r)
    ensures Format(w, q, r, WORDS) + Trailer(r) == Format(w, q, r, 6) + (":" + q)
  {
    hide Numeral;
    assert Format(w, q, r, 7) == Format(w, q, r, 6) + (":" + q);
    assert Format(w, q, r, 8) == Format(w, q, r, 7) + "";
  }

  lemma FormatEncapsulated(w: seq<nat>, octets: seq<string>, r: Run)
    requires |w| == WORDS && IsWords(w) && Encapsulates(w, r) && |octets| == QUAD_SIZE
    ensures Format(w, Join(octets, '.'), r, WORDS) + Trailer(r) ==
      Text(Compressed([], HexGroups(w[r.len..6]), octets))
  {
    NoJoin();
    hide Format, Join;
    var q := Join(octets, '.');
    FormatQuad(w, q, r);
    var right := HexGroups(w[r.len..6]);
    assert HexGroups(w[0..0]) == [];
    JoinSnoc(right, q, ':');
    assert QuadPart(octets) == [q];
    if r.len == 6 {
      assert right == [];
      FormatInside(w, q, r, 6);
      Glue1("", q);
    } else {
      FormatRight(w, q, r, 6);
      var t := Join(right, ':');
      Assoc("" + "::", t, ":" + q);
      Assoc(t, ":", q);
    }
  }

  // ----- the C functions -----

  /** sprintf(tmp + tp, ...) of a finished text: its characters and a NUL. */
  method Put(tmp: array<char>, tp: nat, text: string) returns (end: nat)
    requires tp + |text| + 1 <= tmp.Length
    modifies tmp
    ensures end == tp + |text| && tmp[end] == '\0'
    ensures tmp[..end] == old(tmp[..tp]) + text
    ensures forall k :: end < k < tmp.Length ==> tmp[k] == old(tmp[k])
  {
    var i := 0;
    while i < |text|
      invariant i <= |text|
      invariant tmp[..tp + i] == old(tmp[..tp]) + text[..i]
      invariant forall k :: tp + i <= k < tmp.Length ==> tmp[k] == old(tmp[k])
    {
      ghost var before := tmp[..tp + i];
      tmp[tp + i] := text[i];
      assert tmp[..tp + i + 1] == before + [text[i]];
      i := i + 1;
    }
    end := tp + |text|;
    ghost var before := tmp[..end];
    tmp[end] := '\0';
    assert tmp[..end] == before;
  }

  /** *tp++ = c */
  method PutChar(tmp: array<char>, tp: nat, c: char) returns (end: nat)
    requires tp < tmp.Length
    modifies tmp
    ensures end == tp + 1 && tmp[..end] == old(tmp[..tp]) + [c]
  {
    ghost var before := tmp[..tp];
    tmp[tp] := c;
    end := tp + 1;
    assert tmp[..end] == before + [c];
  }

  /** inet_ntop4(src + from, dst + at, size) */
  method Ntop4(src: array<byte>, from: nat, dst: array<char>, at: nat, size: nat) returns (ok: bool)
    requires from + QUAD_SIZE <= src.Length && at + size <= dst.Length
    modifies dst
    ensures var text := Join(DecOctets(src[from..from + QUAD_SIZE]), '.');
            && (ok <==> |text| < size)
            && (ok ==> dst[..at + |text|] == old(dst[..at]) + text && dst[at + |text|] == '\0')
            && (ok ==> forall k :: at + |text| < k < dst.Length ==> dst[k] == old(dst[k]))
    ensures !ok ==> dst[..] == old(dst[..])
  {
    var text := Join(DecOctets(src[from..from + QUAD_SIZE]), '.');
    if |text| >= size {
      return false;
    }
    var end := Put(dst, at, text);
    return true;
  }

  /** The search of inet_ntop6 for the run to elide, one pass over the words. */
  method FindRun(words: array<nat>) returns (best: Run)
    ensures IsBestRun(words[..], best)
  {
    ghost var w := words[..];
    best := Run(-1, 0);
    var cur := Run(-1, 0);
    var i := 0;
    while i < words.Length
      invariant 0 <= i <= words.Length
      invariant cur.base != -1 ==>
        0 <= cur.base < i && cur.len == i - cur.base && forall k :: cur.base <= k < i ==> w[k] == 0
      invariant Best(w, if cur.base == -1 then i else cur.base, best)
    {
      if words[i] == 0 {
        if cur.base == -1 {
          cur := Run(i, 1);
        } else {
          cur := Run(cur.base, cur.len + 1);
        }
      } else {
        ghost var from := if cur.base == -1 then i else cur.base;
        Close(w, from, i, best);
        if cur.base != -1 {
          if best.base == -1 || cur.len > best.len {
            best := cur;
          }
          cur := Run(-1, cur.len);
        }
      }
      i := i + 1;
    }
    ghost var from := if cur.base == -1 then i else cur.base;
    Close(w, from, i, best);
    if cur.base != -1 {
      if best.base == -1 || cur.len > best.len {
        best := cur;
      }
    }
    Finished(w, best);
    if best.base != -1 && best.len < 2 {
      best := Run(-1, best.len);
    }
  }

  /** `best` is the leftmost longest run among those starting before `limit`. */
  ghost predicate Best(w: seq<nat>, limit: nat, best: Run)
    requires limit <= |w|
  {
    && (forall j :: 0 <= j < limit ==> RunLength(w, j) <= best.len)
    && (best.base == -1 ==> best.len == 0)
    && (best.base != -1 ==> 0 <= best.base < limit && best.len == RunLength(w, best.base) >= 1)
    && (forall j :: 0 <= j < best.base ==> RunLength(w, j) < best.len)
  }

  /** A stretch of zeros that ends at e competes with the best run so far. */
  lemma Close(w: seq<nat>, b: nat, e: nat, best: Run)
    requires b <= e <= |w| && Best(w, b, best)
    requires forall k :: b <= k < e ==> w[k] == 0
    requires e == |w| || w[e] != 0
    ensures var best' := if b < e && (best.base == -1 || e - b > best.len) then Run(b, e - b) else best;
            Best(w, e, best') && (e < |w| ==> Best(w, e + 1, best'))
  {
    RunsWithin(w, b, e);
  }

  lemma Finished(w: seq<nat>, best: Run)
    requires Best(w, |w|, best)
    ensures IsBestRun(w, if best.len < 2 then Run(-1, best.len) else best)
  {
    assert RunLength(w, |w|) == 0;
  }

  /** The runs starting inside a stretch of zeros all end with it. */
  lemma {:induction false} RunsWithin(w: seq<nat>, b: nat, e: nat)
    requires b <= e <= |w|
    requires forall k :: b <= k < e ==> w[k] == 0
    requires e == |w| || w[e] != 0
    ensures forall j :: b <= j <= e ==> RunLength(w, j) == e - j
    decreases e - b
  {
    if b < e {
      RunsWithin(w, b + 1, e);
    }
  }

  /** inet_ntop6(src, dst, size): false stands for the NULL result. */
  method Ntop6(src: array<byte>, dst: array<char>, size: nat) returns (ok: bool)
    requires src.Length == ADDRESS_SIZE && size <= dst.Length
    modifies dst
    ensures ok <==> |CanonicalText(src[..])| + 1 <= size
    ensures ok ==> dst[..|CanonicalText(src[..])|] == CanonicalText(src[..])
    ensures ok ==> dst[|CanonicalText(src[..])|] == '\0'
    ensures !ok ==> dst[..] == old(dst[..])
    ensures ok ==> forall k :: |CanonicalText(src[..])| < k < dst.Length ==> dst[k] == old(dst[k])
  {
    ghost var a := src[..];
    var words := LoadWords(src);
    var best := FindRun(words);
    BestRunUnique(words[..], best);
    var tmp := new char[TMP_SIZE];
    var tp := FormatWords(src, words, best, tmp, BestRun(words[..]));
    FormatIsCanonical(a);
    ok := Deliver(tmp, tp, best, dst, size);
  }

  /** The end of inet_ntop6: the trailing colon, the NUL, the overflow check and the copy. */
  method Deliver(tmp: array<char>, end: nat, best: Run, dst: array<char>, size: nat) returns (ok: bool)
    requires tmp != dst && end + 2 <= tmp.Length && size <= dst.Length
    modifies tmp, dst
    ensures var text := old(tmp[..end]) + Trailer(best);
            && (ok <==> |text| + 1 <= size)
            && (ok ==> dst[..|text|] == text && dst[|text|] == '\0')
            && (ok ==> forall k :: |text| < k < dst.Length ==> dst[k] == old(dst[k]))
    ensures !ok ==> dst[..] == old(dst[..])
  {
    ghost var text := tmp[..end] + Trailer(best);
    var tp := end;
    if best.base != -1 && best.base + best.len == WORDS {
      tp := PutChar(tmp, tp, ':');
    }
    assert tmp[..tp] == text;
    tp := PutChar(tmp, tp, '\0');
    if tp > size {
      return false;
    }
    assert tmp[..tp][..tp - 1] == text;
    var e := Put(dst, 0, tmp[..tp - 1]);
    return true;
  }

  /** The preprocessing loop of inet_ntop6: bytes into words. */
  method LoadWords(src: array<byte>) returns (words: array<nat>)
    requires src.Length == ADDRESS_SIZE
    ensures fresh(words) && words[..] == Words(src[..])
  {
    words := new nat[WORDS](_ => 0);
    var i := 0;
    while i < ADDRESS_SIZE
      invariant 0 <= i <= ADDRESS_SIZE
      invariant forall k :: 0 <= k < i / 2 ==> words[k] == Word(src[2 * k], src[2 * k + 1])
      invariant i % 2 == 1 ==> words[i / 2] == Word(src[i - 1], 0)
      invariant forall k :: (i + 1) / 2 <= k < WORDS ==> words[k] == 0
    {
      words[i / 2] := words[i / 2] + (if i % 2 == 0 then Word(src[i], 0) else src[i]);
      i := i + 1;
    }
  }

  /** The formatting loop of inet_ntop6. */
  method FormatWords(src: array<byte>, words: array<nat>, best: Run, tmp: array<char>, ghost r: Run)
    returns (tp: nat)
    requires src.Length == ADDRESS_SIZE && words.Length == WORDS && IsWords(words[..])
    requires tmp.Length == TMP_SIZE
    requires best.base == r.base && (r.base != -1 ==> best == r)
    modifies tmp
    ensures tp <= 5 * WORDS
    ensures tmp[..tp] == Format(words[..], Join(DecOctets(src[12..]), '.'), r, WORDS)
  {
    hide Join, DecOctets, Numeral, IsWords, Piece, Format, Encapsulates;
    NoFormat();
    ghost var w, quad := words[..], Join(DecOctets(src[12..]), '.');
    tp := 0;
    var i := 0;
    while i < WORDS
      invariant 0 <= i <= WORDS && tp <= 5 * i
      invariant Encapsulates(w, r) ==> r.base == 0 && 5 <= r.len <= 6 && i <= 6 && tp <= (if i <= r.len then 1 else 7)
      invariant tmp[..tp] == Format(w, quad, r, i)
    {
      FormatRound(w, quad, best, r, i);
      // The run prints as one colon, at its first word.
      if best.base != -1 && i >= best.base && i < best.base + best.len {
        if i == best.base {
          tp := PutChar(tmp, tp, ':');
        }
        i := i + 1;
        continue;
      }
      var stop;
      tp, stop := FormatWord(src, words, best, tmp, tp, i);
      if stop {
        FormatStops(w, quad, r);
        return;
      }
      i := i + 1;
    }
  }

  /** One round of the formatting loop outside the run; `stop` is its break. */
  method FormatWord(src: array<byte>, words: array<nat>, best: Run, tmp: array<char>, at: nat, i: nat)
    returns (tp: nat, stop: bool)
    requires src.Length == ADDRESS_SIZE && words.Length == WORDS && IsWords(words[..])
    requires tmp.Length == TMP_SIZE && i < WORDS && at <= 5 * i
    requires best.base == -1 || !(best.base <= i < best.base + best.len)
    requires Encapsulates(words[..], best) ==> i <= 6 && at <= 7
    modifies tmp
    ensures tp <= 5 * WORDS && (!stop ==> tp <= at + 5)
    ensures stop <==> i == 6 && Encapsulates(words[..], best)
    ensures tmp[..tp] == old(tmp[..at]) + Piece(words[..], Join(DecOctets(src[12..]), '.'), best, i)
  {
    tp, stop := at, false;
    ghost var before, lead := tmp[..at], if i != 0 then ":" else "";
    // Every word but the first has a colon before it.
    if i != 0 {
      tp := PutChar(tmp, tp, ':');
    }
    assert tmp[..tp] == before + lead;
    // The last two words of ::a.b.c.d and ::ffff:a.b.c.d print as a quad.
    if i == 6 && best.base == 0 && (best.len == 6 || (best.len == 5 && words[5] == 0xffff)) {
      QuadShort(src[12..]);
      assert src[12..12 + QUAD_SIZE] == src[12..];
      var ok := Ntop4(src, 12, tmp, tp, TMP_SIZE - tp);
      tp := tp + |Join(DecOctets(src[12..12 + QUAD_SIZE]), '.')|;
      Assoc(before, lead, Join(DecOctets(src[12..]), '.'));
      stop := true;
      return;
    }
    NumeralShort(words[i]);
    tp := Put(tmp, tp, Numeral(words[i], 16));
    Assoc(before, lead, Numeral(words[i], 16));
  }

  lemma NoFormat()
    ensures forall w: seq<nat>, quad: string, r: Run :: |w| == WORDS ==> Format(w, quad, r, 0) == ""
    ensures forall w: seq<nat>, r: Run :: |w| == WORDS && Encapsulates(w, r) ==> r.base == 0 && 5 <= r.len <= 6
  {
  }

  /** What a round appends; the best run found and the run it stands for agree on it. */
  lemma FormatRound(w: seq<nat>, quad: string, best: Run, r: Run, i: nat)
    requires |w| == WORDS && i < WORDS && best.base == r.base && (r.base != -1 ==> best == r)
    ensures Format(w, quad, r, i + 1) == Format(w, quad, r, i) + Piece(w, quad, best, i)
    ensures Encapsulates(w, best) == Encapsulates(w, r)
    ensures r.base != -1 && r.base <= i < r.base + r.len ==>
      Format(w, quad, r, i + 1) == Format(w, quad, r, i) + if i == r.base then ":" else ""
    ensures r.base != -1 && r.base < i < r.base + r.len ==> Format(w, quad, r, i + 1) == Format(w, quad, r, i)
  {
    hide Numeral;
  }

  lemma FormatStops(w: seq<nat>, quad: string, r: Run)
    requires |w| == WORDS && Encapsulates(w, r)
    ensures Format(w, quad, r, WORDS) == Format(w, quad, r, 6) + Piece(w, quad, r, 6)
  {
    assert Format(w, quad, r, 8) == Format(w, quad, r, 7) + "";
  }

  lemma QuadShort(b: seq<byte>)
    requires |b| == QUAD_SIZE
    ensures |Join(DecOctets(b), '.')| <= 15
  {
    var o := DecOctets(b);
    NumeralShort(b[0]); NumeralShort(b[1]); NumeralShort(b[2]); NumeralShort(b[3]);
    assert |o[1..]| == 3 && |o[1..][1..]| == 2 && |o[1..][1..][1..]| == 1;
    assert o[1..][1..][1..][0] == o[3] && o[1..][1..][0] == o[2] && o[1..][0] == o[1];
    assert |Join(o[1..][1..][1..], '.')| == |o[3]|;
    assert |Join(o[1..][1..], '.')| == |o[2]| + 1 + |o[3]|;
  }
}
