/**
 * The address parser, compat/inet_pton.c: inet_pton4 and inet_pton6 as loops over
 * the text and a scratch buffer, proved against two scanners on values.
 */
module InetPton {
  import opened CText
  import opened Ipv6Spelling

  // ----- the scanners -----

  /** `done` holds the closed octets, `d` the digits of the open one, `t` the rest of the text. */
  function ScanQuad(done: seq<byte>, d: string, t: string): (r: Option<seq<byte>>)
    requires |done| < QUAD_SIZE && (d == "" || IsOctet(d))
    ensures r.Some? ==> |r.value| == QUAD_SIZE
    decreases |t|
  {
    if t == "" then
      if d != "" && |done| == QUAD_SIZE - 1 then Some(done + [Value(d, 10)]) else None
    else if IsDec(t[0]) then
      ValueSnoc(d, t[0], 10);
      if Value(d + [t[0]], 10) > 255 then None else ScanQuad(done, d + [t[0]], t[1..])
    else if t[0] == '.' && d != "" then
      if |done| == QUAD_SIZE - 1 then None else ScanQuad(done + [Value(d, 10)], "", t[1..])
    else None
  }

  function ParseQuad(t: string): (r: Option<seq<byte>>)
    ensures r.Some? ==> |r.value| == QUAD_SIZE
  {
    ScanQuad([], "", t)
  }

  /** What is made of the bytes `out`, the gap and the open digits when the text ends. */
  function Finish(out: seq<byte>, gap: Option<nat>, d: string): (r: Option<seq<byte>>)
    requires |out| <= ADDRESS_SIZE && (gap.Some? ==> gap.value <= |out|) && (d == "" || IsGroup(d))
    ensures r.Some? ==> |r.value| == ADDRESS_SIZE
  {
    if d != "" && |out| + 2 > ADDRESS_SIZE then None
    else
      var full := if d == "" then out else out + WordBytes(Value(d, 16));
      if gap.Some? then Some(Elide(full, gap.value))
      else if |full| == ADDRESS_SIZE then Some(full)
      else None
  }

  /** `d` holds the digits since the last colon, `t` the rest of the text. */
  function Scan(out: seq<byte>, gap: Option<nat>, d: string, t: string): (r: Option<seq<byte>>)
    requires |out| <= ADDRESS_SIZE && (gap.Some? ==> gap.value <= |out|) && (d == "" || IsGroup(d))
    ensures r.Some? ==> |r.value| == ADDRESS_SIZE
    decreases |t|
  {
    if t == "" then Finish(out, gap, d)
    else if IsHex(t[0]) then
      ValueSnoc(d, t[0], 16);
      if Value(d + [t[0]], 16) > 0xffff then None else Scan(out, gap, d + [t[0]], t[1..])
    else if t[0] == ':' then
      if d == "" then
        if gap.Some? then None else Scan(out, Some(|out|), "", t[1..])
      else if |out| + 2 > ADDRESS_SIZE then None
      else Scan(out + WordBytes(Value(d, 16)), gap, "", t[1..])
    else if t[0] == '.' && |out| + QUAD_SIZE <= ADDRESS_SIZE && ParseQuad(d + t).Some? then
      Finish(out + ParseQuad(d + t).value, gap, "")
    else None
  }

  function Parse(s: string): (r: Option<seq<byte>>)
    ensures r.Some? ==> |r.value| == ADDRESS_SIZE
  {
    if s != "" && s[0] == ':' then
      if |s| == 1 || s[1] != ':' then None else Scan([], None, "", s[1..])
    else Scan([], None, "", s)
  }

  // ----- the C functions -----

  /**
   * inet_pton4(src, dst), with src the text from `start` and dst the buffer at `at`.
   * The buffer is not touched unless the result is 1.
   */
  method Pton4(src: cstring, start: nat, dst: array<byte>, at: nat) returns (rc: int)
    requires start <= |src| && at + QUAD_SIZE <= dst.Length
    modifies dst
    ensures rc == (if ParseQuad(src[start..]).Some? then 1 else 0)
    ensures rc == 1 ==>
      dst[..] == old(dst[..at]) + ParseQuad(src[start..]).value + old(dst[at + QUAD_SIZE..])
    ensures rc == 0 ==> dst[..] == old(dst[..])
  {
    var tmp := new byte[QUAD_SIZE];
    var sawDigit, octets, tp, i := false, 0, 0, start;
    tmp[0] := 0;
    ghost var d := "";
    hide ScanQuad, Value, HexDigit, IsDec;
    while i < |src|
      invariant start <= i <= |src| && tp < QUAD_SIZE && fresh(tmp)
      invariant octets == tp + (if sawDigit then 1 else 0)
      invariant sawDigit <==> d != ""
      invariant d == "" || IsOctet(d)
      invariant tmp[tp] == if d == "" then 0 else Value(d, 10)
      invariant ScanQuad(tmp[..tp], d, src[i..]) == ParseQuad(src[start..])
      invariant unchanged(dst)
    {
      var ch := src[i];
      ghost var t := src[i..];
      assert t[0] == ch && t[1..] == src[i + 1..];
      i := i + 1;
      if IsDec(ch) {
        QuadDigit(tmp[..tp], d, t);
        var next := tmp[tp] * 10 + HexDigit(ch);
        if next > 255 {
          return 0;
        }
        ghost var done := tmp[..tp];
        tmp[tp] := next;
        assert tmp[..tp] == done;
        d := d + [ch];
        if !sawDigit {
          octets := octets + 1;
          if octets > 4 {
            return 0;
          }
          sawDigit := true;
        }
      } else if ch == '.' && sawDigit {
        QuadDot(tmp[..tp], d, t);
        if octets == 4 {
          return 0;
        }
        ghost var done := tmp[..tp];
        assert tmp[..tp + 1] == done + [Value(d, 10)];
        tp := tp + 1;
        tmp[tp] := 0;
        assert tmp[..tp] == done + [Value(d, 10)];
        sawDigit := false;
        d := "";
      } else {
        QuadOther(tmp[..tp], d, t);
        return 0;
      }
    }
    assert src[i..] == "";
    QuadEnd(tmp[..tp], d);
    if octets < 4 {
      return 0;
    }
    assert tmp[..] == tmp[..tp] + [tmp[tp]];
    forall k | 0 <= k < QUAD_SIZE {
      dst[at + k] := tmp[k];
    }
    return 1;
  }

  // One lemma for each way the quad scanner consumes a character.

  lemma QuadDigit(done: seq<byte>, d: string, t: string)
    requires |done| < QUAD_SIZE && (d == "" || IsOctet(d)) && t != "" && IsDec(t[0])
    ensures IsHex(t[0]) && AllDec(d + [t[0]]) && AllHex(d + [t[0]])
    ensures Value(d + [t[0]], 10) == (if d == "" then 0 else Value(d, 10)) * 10 + HexDigit(t[0])
    ensures ScanQuad(done, d, t) ==
      if Value(d + [t[0]], 10) > 255 then None else ScanQuad(done, d + [t[0]], t[1..])
  {
    ValueSnoc(d, t[0], 10);
    hide HexDigit, Value;
  }

  lemma QuadDot(done: seq<byte>, d: string, t: string)
    requires |done| < QUAD_SIZE && IsOctet(d) && t != "" && t[0] == '.'
    ensures ScanQuad(done, d, t) ==
      if |done| == QUAD_SIZE - 1 then None else ScanQuad(done + [Value(d, 10)], "", t[1..])
  {
    hide HexDigit, Value;
  }

  lemma QuadOther(done: seq<byte>, d: string, t: string)
    requires |done| < QUAD_SIZE && (d == "" || IsOctet(d)) && t != "" && !IsDec(t[0])
    requires t[0] != '.' || d == ""
    ensures ScanQuad(done, d, t) == None
  {
    hide HexDigit, Value;
  }

  lemma QuadEnd(done: seq<byte>, d: string)
    requires |done| < QUAD_SIZE && (d == "" || IsOctet(d))
    ensures ScanQuad(done, d, "") ==
      if d != "" && |done| == QUAD_SIZE - 1 then Some(done + [Value(d, 10)]) else None
  {
  }

  /**
   * The shift that inet_pton6 does by hand: the bytes from `colonp` up to `tp` go to
   * the end of the buffer, one at a time and last first, each leaving a zero behind.
   */
  method ShiftTail(tmp: array<byte>, colonp: nat, tp: nat)
    requires tmp.Length == ADDRESS_SIZE && colonp <= tp <= ADDRESS_SIZE
    requires forall k :: tp <= k < ADDRESS_SIZE ==> tmp[k] == 0
    modifies tmp
    ensures tmp[..] == Elide(old(tmp[..tp]), colonp)
  {
    hide Elide;
    var endp := ADDRESS_SIZE;
    var n := tp - colonp;
    var i := 1;
    while i <= n
      invariant 1 <= i <= n + 1
      invariant forall k :: 0 <= k < tp - (i - 1) ==> tmp[k] == old(tmp[k])
      invariant forall k :: tp - (i - 1) <= k < endp - (i - 1) ==> tmp[k] == 0
      invariant forall k :: endp - (i - 1) <= k < endp ==>
                  tmp[k] == if tp == endp then 0 else old(tmp[k - (endp - tp)])
    {
      tmp[endp - i] := tmp[colonp + n - i];
      tmp[colonp + n - i] := 0;
      i := i + 1;
    }
    ElideAt(old(tmp[..tp]), colonp, tmp[..]);
  }

  lemma ElideAt(full: seq<byte>, gap: nat, a: seq<byte>)
    requires gap <= |full| <= ADDRESS_SIZE == |a|
    requires forall k :: 0 <= k < gap ==> a[k] == full[k]
    requires forall k :: gap <= k < gap + (ADDRESS_SIZE - |full|) ==> a[k] == 0
    requires forall k :: gap + (ADDRESS_SIZE - |full|) <= k < ADDRESS_SIZE ==>
               a[k] == if |full| == ADDRESS_SIZE then 0 else full[k - (ADDRESS_SIZE - |full|)]
    ensures a == Elide(full, gap)
  {
  }

  /** Appends a finished group to the buffer, high byte first. */
  method StoreGroup(tmp: array<byte>, tp: nat, val: nat)
    requires tp + 2 <= tmp.Length && val <= 0xffff
    modifies tmp
    ensures tmp[..tp + 2] == old(tmp[..tp]) + WordBytes(val)
    ensures forall k :: tp + 2 <= k < tmp.Length ==> tmp[k] == old(tmp[k])
  {
    tmp[tp] := val / 256 % 256;
    tmp[tp + 1] := val % 256;
  }

  // One lemma for each way the scanner consumes a character.

  ghost predicate ScanState(out: seq<byte>, gap: Option<nat>, d: string) {
    |out| <= ADDRESS_SIZE && (gap.Some? ==> gap.value <= |out|) && (d == "" || IsGroup(d))
  }

  lemma NoDigits()
    ensures AllHex("") && ScanState([], None, "")
  {
  }

  lemma ScanDigit(out: seq<byte>, gap: Option<nat>, d: string, t: string)
    requires ScanState(out, gap, d) && t != "" && IsHex(t[0])
    ensures AllHex(d + [t[0]])
    ensures Value(d + [t[0]], 16) <= 0xffff ==> ScanState(out, gap, d + [t[0]])
    ensures Value(d + [t[0]], 16) == (if d == "" then 0 else Value(d, 16)) * 16 + HexDigit(t[0])
    ensures Scan(out, gap, d, t) ==
      if Value(d + [t[0]], 16) > 0xffff then None else Scan(out, gap, d + [t[0]], t[1..])
  {
    ValueSnoc(d, t[0], 16);
  }

  lemma ScanColon(out: seq<byte>, gap: Option<nat>, d: string, t: string)
    requires ScanState(out, gap, d) && t != "" && t[0] == ':'
    ensures Scan(out, gap, d, t) ==
      if d == "" then (if gap.Some? then None else Scan(out, Some(|out|), "", t[1..]))
      else if |out| + 2 > ADDRESS_SIZE then None
      else Scan(out + WordBytes(Value(d, 16)), gap, "", t[1..])
  {
  }

  lemma ScanQuadTail(out: seq<byte>, gap: Option<nat>, d: string, t: string)
    requires ScanState(out, gap, d) && t != "" && t[0] == '.'
    ensures Scan(out, gap, d, t) ==
      if |out| + QUAD_SIZE <= ADDRESS_SIZE && ParseQuad(d + t).Some?
      then Finish(out + ParseQuad(d + t).value, gap, "") else None
  {
  }

  lemma ScanOther(out: seq<byte>, gap: Option<nat>, d: string, t: string)
    requires ScanState(out, gap, d) && t != "" && !IsHex(t[0]) && t[0] != ':' && t[0] != '.'
    ensures Scan(out, gap, d, t) == None
  {
  }

  lemma ScanEnd(out: seq<byte>, gap: Option<nat>, d: string)
    requires ScanState(out, gap, d)
    ensures Scan(out, gap, d, "") == Finish(out, gap, d)
  {
  }

  /** inet_pton6(src, dst). The destination is not touched unless the result is 1. */
  method Pton6(src: cstring, dst: array<byte>) returns (rc: int)
    requires dst.Length >= ADDRESS_SIZE
    modifies dst
    ensures rc == (if Parse(src).Some? then 1 else 0)
    ensures rc == 1 ==> dst[..] == Parse(src).value + old(dst[ADDRESS_SIZE..])
    ensures rc == 0 ==> dst[..] == old(dst[..])
  {
    var tmp := new byte[ADDRESS_SIZE](_ => 0);
    var i := 0;
    // The first of two leading colons is skipped, a single one is an error.
    if i < |src| && src[i] == ':' {
      i := i + 1;
      if !(i < |src| && src[i] == ':') {
        return 0;
      }
    }
    assert Scan([], None, "", src[i..]) == Parse(src) by {
      assert i == 0 ==> src[i..] == src;
    }
    hide Scan, Parse, Finish, Elide;
    var ok, tp, colonp, sawXdigit, val;
    ghost var d;
    ok, tp, colonp, sawXdigit, val, d := ScanText(src, i, tmp);
    if !ok {
      return 0;
    }
    rc := Conclude(src, tmp, tp, colonp, sawXdigit, val, d, dst);
  }

  /** The scanning loop of inet_pton6; the result is false where the C function returns 0. */
  method ScanText(src: cstring, start: nat, tmp: array<byte>)
    returns (ok: bool, tp: nat, colonp: Option<nat>, sawXdigit: bool, val: nat, ghost d: string)
    requires start <= |src| && tmp.Length == ADDRESS_SIZE
    requires forall k :: 0 <= k < ADDRESS_SIZE ==> tmp[k] == 0
    modifies tmp
    ensures !ok ==> Scan([], None, "", src[start..]) == None
    ensures ok ==> tp <= ADDRESS_SIZE && ScanState(tmp[..tp], colonp, d)
    ensures ok ==> (sawXdigit <==> d != "") && (d != "" ==> val == Value(d, 16))
    ensures ok ==> forall k :: tp <= k < ADDRESS_SIZE ==> tmp[k] == 0
    ensures ok ==> Scan([], None, "", src[start..]) == Finish(tmp[..tp], colonp, d)
  {
    hide Scan, ParseQuad, ScanQuad, Finish, Value, HexDigit, Elide, IsHex, WordBytes, IsGroup, AllHex, AllDec;
    NoDigits();
    ghost var all := Scan([], None, "", src[start..]);
    var endp, i, curtok := ADDRESS_SIZE, start, start;
    ok, tp, colonp, sawXdigit, val, d := true, 0, None, false, 0, "";
    while i < |src|
      invariant curtok <= i <= |src| && tp <= endp && ok
      invariant d == src[curtok..i]
      invariant ScanState(tmp[..tp], colonp, d)
      invariant AllHex(d) && (sawXdigit <==> d != "")
      invariant if d == "" then val == 0 else val == Value(d, 16)
      invariant forall k :: tp <= k < endp ==> tmp[k] == 0
      invariant Scan(tmp[..tp], colonp, d, src[i..]) == all
    {
      var ch := src[i];
      ghost var t := src[i..];
      assert t[0] == ch && t[1..] == src[i + 1..];
      i := i + 1;
      if IsHex(ch) {
        ScanDigit(tmp[..tp], colonp, d, t);
        val := val * 16 + HexDigit(ch);
        if val > 0xffff {
          ok := false;
          return;
        }
        sawXdigit := true;
        d := d + [ch];
        continue;
      }
      if ch == ':' {
        ScanColon(tmp[..tp], colonp, d, t);
        curtok := i;
        if !sawXdigit {
          if colonp.Some? {
            ok := false;
            return;
          }
          colonp := Some(tp);
          continue;
        }
        if tp + 2 > endp {
          ok := false;
          return;
        }
        StoreGroup(tmp, tp, val);
        tp := tp + 2;
        sawXdigit, d := false, "";
        val := 0;
        continue;
      }
      ok, tp := QuadTail(src, curtok, i - 1, tmp, tp, colonp, d);
      sawXdigit, d := false, "";
      return;
    }
    ScanEnd(tmp[..tp], colonp, d);
    assert src[i..] == "";
  }

  /** What the scanning loop does with a character that is neither a digit nor a colon. */
  method QuadTail(src: cstring, curtok: nat, at: nat, tmp: array<byte>, tp: nat,
                  ghost colonp: Option<nat>, ghost d: string)
    returns (ok: bool, end: nat)
    requires curtok <= at < |src| && tmp.Length == ADDRESS_SIZE && tp <= ADDRESS_SIZE
    requires d == src[curtok..at] && ScanState(tmp[..tp], colonp, d)
    requires !IsHex(src[at]) && src[at] != ':'
    requires forall k :: tp <= k < ADDRESS_SIZE ==> tmp[k] == 0
    modifies tmp
    ensures !ok ==> Scan(old(tmp[..tp]), colonp, d, src[at..]) == None
    ensures ok ==> tp <= end <= ADDRESS_SIZE && forall k :: end <= k < ADDRESS_SIZE ==> tmp[k] == 0
    ensures ok ==> Scan(old(tmp[..tp]), colonp, d, src[at..]) == Finish(tmp[..end], colonp, "")
  {
    hide Scan, ParseQuad, ScanQuad, Finish, Value, HexDigit, IsHex;
    end := tp;
    if src[at] == '.' {
      ScanQuadTail(tmp[..tp], colonp, d, src[at..]);
      assert src[curtok..] == d + src[at..];
      if tp + QUAD_SIZE <= ADDRESS_SIZE {
        var rc := Pton4(src, curtok, tmp, tp);
        if rc > 0 {
          return true, tp + QUAD_SIZE;
        }
      }
    } else {
      ScanOther(tmp[..tp], colonp, d, src[at..]);
    }
    ok := false;
  }

  /** The part of inet_pton6 after its scanning loop. */
  method Conclude(ghost src: cstring, tmp: array<byte>, end: nat, colonp: Option<nat>,
                  sawXdigit: bool, val: nat, ghost d: string, dst: array<byte>)
    returns (rc: int)
    requires tmp != dst && tmp.Length == ADDRESS_SIZE <= dst.Length && end <= ADDRESS_SIZE
    requires colonp.Some? ==> colonp.value <= end
    requires forall k :: end <= k < ADDRESS_SIZE ==> tmp[k] == 0
    requires sawXdigit <==> d != ""
    requires d == "" || (IsGroup(d) && val == Value(d, 16))
    requires Finish(tmp[..end], colonp, d) == Parse(src)
    modifies tmp, dst
    ensures rc == (if Parse(src).Some? then 1 else 0)
    ensures rc == 1 ==> dst[..] == Parse(src).value + old(dst[ADDRESS_SIZE..])
    ensures rc == 0 ==> dst[..] == old(dst[..])
  {
    var tp, endp := end, ADDRESS_SIZE;
    if sawXdigit {
      if tp + 2 > endp {
        return 0;
      }
      StoreGroup(tmp, tp, val);
      tp := tp + 2;
    }
    if colonp.Some? {
      ShiftTail(tmp, colonp.value, tp);
      tp := endp;
    }
    if tp != endp {
      return 0;
    }
    assert tmp[..tp] == tmp[..];
    assert tmp[..] == Parse(src).value;
    forall k | 0 <= k < ADDRESS_SIZE {
      dst[k] := tmp[k];
    }
    return 1;
  }
}
