/**
 * What the text of an IPv6 address means, independently of how it is parsed:
 * the spellings of section 2.2 of RFC 4291 with their addresses, and the larger
 * grammar of everything that the parser of inet_pton.c lets through.
 */
module Ipv6Spelling {
  import opened CText

  const ADDRESS_SIZE := 16
  const QUAD_SIZE := 4

  function Zeros(n: nat): (z: seq<byte>)
    ensures |z| == n && forall i :: 0 <= i < n ==> z[i] == 0
  {
    seq(n, _ => 0)
  }

  // ----- pieces -----

  predicate IsGroup(d: string) {
    d != "" && AllHex(d) && Value(d, 16) <= 0xffff
  }

  predicate IsOctet(d: string) {
    d != "" && AllDec(d) && Value(d, 10) <= 255
  }

  predicate AllGroups(groups: seq<string>) {
    forall i :: 0 <= i < |groups| ==> IsGroup(groups[i])
  }

  predicate AllOctets(octets: seq<string>) {
    forall i :: 0 <= i < |octets| ==> IsOctet(octets[i])
  }

  /** No part is written with more than `width` characters. */
  predicate AtMost(parts: seq<string>, width: nat) {
    forall i :: 0 <= i < |parts| ==> |parts[i]| <= width
  }

  /** The two bytes of a 16-bit group, high byte first. */
  function WordBytes(w: nat): (b: seq<byte>)
    requires w <= 0xffff
    ensures |b| == 2
  {
    [w / 256, w % 256]
  }

  function GroupBytes(groups: seq<string>): (b: seq<byte>)
    requires AllGroups(groups)
    ensures |b| == 2 * |groups|
  {
    if groups == [] then [] else WordBytes(Value(groups[0], 16)) + GroupBytes(groups[1..])
  }

  function OctetBytes(octets: seq<string>): (b: seq<byte>)
    requires AllOctets(octets)
    ensures |b| == |octets|
  {
    if octets == [] then [] else [Value(octets[0], 10)] + OctetBytes(octets[1..])
  }

  /** A dotted quad is absent, or four octets. */
  predicate IsQuad(quad: seq<string>) {
    (quad == [] || |quad| == QUAD_SIZE) && AllOctets(quad)
  }

  // ----- RFC 4291, section 2.2 -----

  /** x:x:x:x:x:x:x:x, or left::right; either may end in d.d.d.d. */
  datatype Spelling =
    | Plain(groups: seq<string>, quad: seq<string>)
    | Compressed(left: seq<string>, right: seq<string>, quad: seq<string>)

  predicate Legal(s: Spelling) {
    && IsQuad(s.quad)
    && AtMost(s.quad, 3)
    && match s {
         case Plain(groups, quad) =>
           && AllGroups(groups) && AtMost(groups, 4)
           && 2 * |groups| + |quad| == ADDRESS_SIZE
         case Compressed(left, right, quad) =>
           && AllGroups(left) && AtMost(left, 4)
           && AllGroups(right) && AtMost(right, 4)
           && 2 * (|left| + |right|) + |quad| < ADDRESS_SIZE
       }
  }

  /** The dotted quad as the last colon-separated part, when there is one. */
  function QuadPart(quad: seq<string>): seq<string> {
    if quad == [] then [] else [Join(quad, '.')]
  }

  function Text(s: Spelling): string {
    match s
    case Plain(groups, quad) => Join(groups + QuadPart(quad), ':')
    case Compressed(left, right, quad) =>
      Join(left, ':') + "::" + Join(right + QuadPart(quad), ':')
  }

  function Address(s: Spelling): (a: seq<byte>)
    requires Legal(s)
    ensures |a| == ADDRESS_SIZE
  {
    match s
    case Plain(groups, quad) => GroupBytes(groups) + OctetBytes(quad)
    case Compressed(left, right, quad) =>
      GroupBytes(left)
      + Zeros(ADDRESS_SIZE - 2 * (|left| + |right|) - |quad|)
      + GroupBytes(right) + OctetBytes(quad)
  }

  // ----- everything the parser accepts -----

  /** A run of digits closed by a colon, or a colon closing no digits. */
  datatype Item = Group(digits: string) | Gap

  /** What follows the last colon. */
  datatype Last = Nothing | LastGroup(digits: string) | Quad(octets: seq<string>)

  datatype Phrase = Phrase(items: seq<Item>, last: Last)

  function ItemText(it: Item): string {
    match it
    case Group(d) => d + ":"
    case Gap => ":"
  }

  function ItemsText(items: seq<Item>): string {
    if items == [] then "" else ItemText(items[0]) + ItemsText(items[1..])
  }

  function LastText(last: Last): string {
    match last
    case Nothing => ""
    case LastGroup(d) => d
    case Quad(octets) => Join(octets, '.')
  }

  /** A leading gap is written with one more colon in front. */
  function PhraseText(p: Phrase): string {
    (if p.items != [] && p.items[0].Gap? then ":" else "") + (ItemsText(p.items) + LastText(p.last))
  }

  function Gaps(items: seq<Item>): nat {
    if items == [] then 0 else (if items[0].Gap? then 1 else 0) + Gaps(items[1..])
  }

  predicate ItemOk(it: Item) {
    it.Group? ==> IsGroup(it.digits)
  }

  predicate ItemsOk(items: seq<Item>) {
    forall i :: 0 <= i < |items| ==> ItemOk(items[i])
  }

  function ItemBytes(it: Item): (b: seq<byte>)
    requires ItemOk(it)
    ensures |b| == if it.Group? then 2 else 0
  {
    match it
    case Group(d) => WordBytes(Value(d, 16))
    case Gap => []
  }

  function ItemsBytes(items: seq<Item>): (b: seq<byte>)
    requires ItemsOk(items)
  {
    if items == [] then [] else ItemBytes(items[0]) + ItemsBytes(items[1..])
  }

  /** How many bytes stand before the first gap. */
  function GapAt(items: seq<Item>): (k: nat)
    requires ItemsOk(items) && Gaps(items) >= 1
    ensures k <= |ItemsBytes(items)|
  {
    if items[0].Gap? then 0 else 2 + GapAt(items[1..])
  }

  predicate LastOk(last: Last) {
    match last
    case Nothing => true
    case LastGroup(d) => IsGroup(d)
    case Quad(octets) => |octets| == QUAD_SIZE && AllOctets(octets)
  }

  function LastBytes(last: Last): seq<byte>
    requires LastOk(last)
  {
    match last
    case Nothing => []
    case LastGroup(d) => WordBytes(Value(d, 16))
    case Quad(octets) => OctetBytes(octets)
  }

  function AllBytes(p: Phrase): seq<byte>
    requires ItemsOk(p.items) && LastOk(p.last)
  {
    ItemsBytes(p.items) + LastBytes(p.last)
  }

  /** At most one gap; 16 bytes in all, or at most 16 around a gap. */
  predicate Acceptable(p: Phrase) {
    && ItemsOk(p.items) && LastOk(p.last)
    && Gaps(p.items) <= 1
    && (if Gaps(p.items) == 0 then |AllBytes(p)| == ADDRESS_SIZE else |AllBytes(p)| <= ADDRESS_SIZE)
  }

  /**
   * The address left behind by moving what follows the gap to the end.
   * With nothing elided, the move overwrites what follows the gap with zeros.
   */
  function Elide(full: seq<byte>, gap: nat): (a: seq<byte>)
    requires gap <= |full| <= ADDRESS_SIZE
    ensures |a| == ADDRESS_SIZE
  {
    if |full| == ADDRESS_SIZE then full[..gap] + Zeros(ADDRESS_SIZE - gap)
    else full[..gap] + Zeros(ADDRESS_SIZE - |full|) + full[gap..]
  }

  function PhraseAddress(p: Phrase): (a: seq<byte>)
    requires Acceptable(p)
    ensures |a| == ADDRESS_SIZE
  {
    if Gaps(p.items) == 0 then AllBytes(p) else Elide(AllBytes(p), GapAt(p.items))
  }
}
