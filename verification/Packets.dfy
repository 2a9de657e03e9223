/** Direction choice and flow-key construction of `handle_ip_packet` (src/entry/iftop.c).

    A packet is a parsed IP header.  An address is the number held in the zeroed union of
    `addr_pair`; an IPv4 address is therefore its 32-bit value, zero-extended. */
module Packets {
  import opened Prelude

  type Addr = nat

  datatype Family = Unspecified | Inet | Inet6

  /** `addr_pair`: the key of a flow. */
  datatype AddrPair = AddrPair(
    family: Family, protocol: nat, srcPort: nat, src: Addr, dstPort: nat, dst: Addr)

  /** The all-zero key left behind by `memset`. */
  const ZERO_PAIR := AddrPair(Unspecified, 0, 0, 0, 0, 0)

  const TCP := 6
  const UDP := 17

  /** The fields read from a captured packet.  `ports` holds whatever follows the IP header and
      `lengthField` is Total Length for IPv4 and Payload Length otherwise. */
  datatype Packet = Packet(
    version: nat, protocol: nat, src: Addr, dst: Addr,
    srcPort: nat, dstPort: nat, lengthField: nat)

  /** What the link layer knows about the direction. */
  datatype HwDir = HwOut | HwIn | HwUnknown

  /** The membership test of a net filter; module NetMask says which test each mask gives. */
  type Net = Addr -> bool

  /** The globals and options that decide the direction. */
  datatype Settings = Settings(
    ownAddr4: Option<Addr>, ownAddr6: Option<Addr>,
    netFilter4: Option<Net>, netFilter6: Option<Net>,
    choosy: bool, linkLocal: bool)

  /** The outcome of the direction choice: `outgoing` is the C variable `direction`. */
  datatype Choice = Dropped | Kept(pair: AddrPair, outgoing: bool)

  /** An accounted packet: the flow, the column of the flow record (`sent` or `recv`), the column
      of the grand totals (`outgoing`), and the bytes. */
  datatype Verdict = Verdict(key: AddrPair, sent: bool, outgoing: bool, bytes: nat)

  /** `IN6_IS_ADDR_LINKLOCAL`: the ten leading bits of fe80::/10. */
  predicate IsLinkLocal(a: Addr) {
    a / 0x40_0000_0000_0000_0000_0000_0000_0000 == 0x3fa
  }

  predicate IsIp(p: Packet) {
    p.version == 4 || p.version == 6
  }

  /** `assign_addr_pair` */
  function AssignAddrPair(p: Packet, flip: bool): AddrPair {
    if !IsIp(p) then ZERO_PAIR
    else
      var hasPorts := p.protocol == TCP || p.protocol == UDP;
      var sp := if hasPorts then p.srcPort else 0;
      var dp := if hasPorts then p.dstPort else 0;
      var family := if p.version == 4 then Inet else Inet6;
      if flip
      then AddrPair(family, 0, dp, p.dst, sp, p.src)
      else AddrPair(family, 0, sp, p.src, dp, p.dst)
  }

  function OwnAddr(s: Settings, p: Packet): Option<Addr> {
    if p.version == 4 then s.ownAddr4 else s.ownAddr6
  }

  function NetFilter(s: Settings, p: Packet): Option<Net> {
    if p.version == 4 then s.netFilter4 else s.netFilter6
  }

  /** Net filter off: hardware direction, then own address, then numerical order (IPv4 only). */
  function ChooseUnfiltered(s: Settings, hw: HwDir, p: Packet): Choice
    requires IsIp(p)
  {
    if hw == HwOut then Kept(AssignAddrPair(p, false), true)
    else if hw == HwIn then Kept(AssignAddrPair(p, true), false)
    else if OwnAddr(s, p) == Some(p.src) then Kept(AssignAddrPair(p, false), true)
    else if OwnAddr(s, p) == Some(p.dst) then Kept(AssignAddrPair(p, true), false)
    else if s.choosy then Dropped
    else if p.version == 4 && p.src < p.dst then Kept(AssignAddrPair(p, true), false)
    else if p.version == 4 then Kept(AssignAddrPair(p, false), false)
    else Kept(ZERO_PAIR, false)
  }

  /** Net filter on: exactly one end must be inside the network. */
  function ChooseFiltered(n: Net, p: Packet): Choice {
    if n(p.src) && !n(p.dst) then Kept(AssignAddrPair(p, false), true)
    else if n(p.dst) && !n(p.src) then Kept(AssignAddrPair(p, true), false)
    else Dropped
  }

  function Choose(s: Settings, hw: HwDir, p: Packet): Choice {
    if !IsIp(p) then Kept(ZERO_PAIR, false)
    else if NetFilter(s, p).Some? then ChooseFiltered(NetFilter(s, p).value, p)
    else ChooseUnfiltered(s, hw, p)
  }

  function PacketBytes(p: Packet): nat {
    if p.version == 4 then p.lengthField else p.lengthField + 40
  }

  /** `handle_ip_packet` up to the point where counters change; `None` is a junked packet. */
  function Classify(s: Settings, hw: HwDir, p: Packet): Option<Verdict> {
    var c := Choose(s, hw, p);
    if c.Dropped? then None
    else if p.version == 6 && !s.linkLocal && (IsLinkLocal(p.dst) || IsLinkLocal(p.src)) then None
    else
      var key := if IsIp(p) then c.pair.(protocol := p.protocol) else c.pair;
      Some(Verdict(key, IsIp(p) && p.src == key.src, c.outgoing, PacketBytes(p)))
  }

  // ---- What a verdict says about the packet ----

  /** The unfiltered packet whose direction neither the hardware nor the own address gives away. */
  predicate ThirdParty(s: Settings, hw: HwDir, p: Packet) {
    && IsIp(p) && NetFilter(s, p).None? && hw == HwUnknown
    && OwnAddr(s, p) != Some(p.src) && OwnAddr(s, p) != Some(p.dst)
  }

  /** fe80::/10 as a range of addresses. */
  lemma LinkLocalRange(a: Addr)
    ensures IsLinkLocal(a) <==>
            0xfe80_0000_0000_0000_0000_0000_0000_0000 <= a < 0xfec0_0000_0000_0000_0000_0000_0000_0000
  {
  }

  /** The flow runs the way of the packet; ports count for TCP and UDP only. */
  ghost predicate Along(k: AddrPair, p: Packet) {
    && k.src == p.src && k.dst == p.dst
    && k.srcPort == (if p.protocol == 6 || p.protocol == 17 then p.srcPort else 0)
    && k.dstPort == (if p.protocol == 6 || p.protocol == 17 then p.dstPort else 0)
  }

  /** The flow runs against the packet. */
  ghost predicate Against(k: AddrPair, p: Packet) {
    && k.src == p.dst && k.dst == p.src
    && k.srcPort == (if p.protocol == 6 || p.protocol == 17 then p.dstPort else 0)
    && k.dstPort == (if p.protocol == 6 || p.protocol == 17 then p.srcPort else 0)
  }

  /** IPv6 with a link-local end, while the option that admits such packets is off. */
  ghost predicate Refused(s: Settings, p: Packet) {
    p.version == 6 && !s.linkLocal && (IsLinkLocal(p.src) || IsLinkLocal(p.dst))
  }

  /** With a net filter on, a packet is accepted exactly when one end and not the other is inside the
      network.  Its flow runs from inside to outside, and it counts as sent and outgoing exactly when it
      comes from inside. */
  lemma FilteredVerdict(s: Settings, hw: HwDir, p: Packet, inside: Net)
    requires IsIp(p) && (p.version == 4 ==> s.netFilter4 == Some(inside)) && (p.version == 6 ==> s.netFilter6 == Some(inside))
    ensures var c := Classify(s, hw, p);
            && (c.Some? <==> inside(p.src) != inside(p.dst) && !Refused(s, p))
            && (c.Some? ==> var v := c.value;
                 && inside(v.key.src) && !inside(v.key.dst)
                 && (v.outgoing <==> inside(p.src)) && (v.sent <==> inside(p.src))
                 && (if inside(p.src) then Along(v.key, p) else Against(v.key, p)))
  {
    assert NetFilter(s, p) == Some(inside);
    assert inside(p.src) != inside(p.dst) ==> p.src != p.dst;
    assert Choose(s, hw, p) == ChooseFiltered(inside, p);
  }

  /** Without one, the direction comes from the hardware, else from the own address, else from the order
      of the addresses: the flow then runs from the larger one, or has no addresses at all for IPv6, and
      the packet counts as incoming. */
  lemma UnfilteredVerdict(s: Settings, hw: HwDir, p: Packet)
    requires IsIp(p) && (if p.version == 4 then s.netFilter4.None? else s.netFilter6.None?)
    ensures var own := if p.version == 4 then s.ownAddr4 else s.ownAddr6;
            var leaves := hw == HwOut || (hw == HwUnknown && own == Some(p.src));
            var arrives := hw == HwIn || (hw == HwUnknown && own == Some(p.dst) && !leaves);
            var c := Classify(s, hw, p);
            && (c.Some? <==> !Refused(s, p) && (leaves || arrives || !s.choosy))
            && (c.Some? ==> var v := c.value;
                 && (v.outgoing <==> leaves)
                 && (leaves ==> v.sent && Along(v.key, p))
                 && (arrives ==> (v.sent <==> p.src == p.dst) && Against(v.key, p))
                 && (!leaves && !arrives && p.version == 4 ==>
                       (v.sent <==> p.src >= p.dst) && if p.src >= p.dst then Along(v.key, p) else Against(v.key, p))
                 && (!leaves && !arrives && p.version == 6 ==>
                       (v.sent <==> p.src == 0) && v.key == ZERO_PAIR.(protocol := p.protocol)))
  {
  }

  /** The rest of a verdict: bytes including the header, protocol and address family.  Whatever is not IP
      is counted under one empty key. */
  lemma VerdictFields(s: Settings, hw: HwDir, p: Packet)
    requires Classify(s, hw, p).Some?
    ensures var v := Classify(s, hw, p).value;
            && v.bytes == (if p.version == 4 then p.lengthField else p.lengthField + 40)
            && (IsIp(p) ==> v.key.protocol == p.protocol)
            && (v.key.family == Inet ==> p.version == 4) && (v.key.family == Inet6 ==> p.version == 6)
            && (v.key.family == Unspecified <==> !IsIp(p) || (ThirdParty(s, hw, p) && p.version == 6))
            && (!IsIp(p) ==> v.key == AddrPair(Unspecified, 0, 0, 0, 0, 0) && !v.sent && !v.outgoing)
  {
  }

  // ---- Direction laws ----

  /** A check on the packet alone that tells when the flow column and the totals column differ. */
  predicate ColumnsDisagree(s: Settings, hw: HwDir, p: Packet) {
    if ThirdParty(s, hw, p) then
      if p.version == 4 then p.src >= p.dst else p.src == 0
    else
      IsIp(p) && NetFilter(s, p).None? && hw == HwIn && p.src == p.dst
  }

  /** A packet lands in the same column of its flow and of the totals exactly when
      `ColumnsDisagree` is false. */
  lemma ColumnsAgreeExactly(s: Settings, hw: HwDir, p: Packet)
    requires Classify(s, hw, p).Some?
    ensures var v := Classify(s, hw, p).value;
            (v.sent == v.outgoing) <==> !ColumnsDisagree(s, hw, p)
  {
    var v := Classify(s, hw, p).value;
    if IsIp(p) && NetFilter(s, p).Some? {
      assert v.outgoing <==> NetFilter(s, p).value(p.src);
    }
  }

  /** What the totals count as outgoing, the flow counts as sent. */
  lemma OutgoingIsSent(s: Settings, hw: HwDir, p: Packet)
    requires Classify(s, hw, p).Some? && Classify(s, hw, p).value.outgoing
    ensures Classify(s, hw, p).value.sent
  {
  }

  /** With both net filters on, the two columns always agree. */
  lemma FiltersMakeColumnsAgree(s: Settings, hw: HwDir, p: Packet)
    requires s.netFilter4.Some? && s.netFilter6.Some?
    requires Classify(s, hw, p).Some?
    ensures var v := Classify(s, hw, p).value; v.sent == v.outgoing
  {
    ColumnsAgreeExactly(s, hw, p);
  }

  /** With filters off the columns can differ: an IPv4 packet between two other machines whose
      source is numerically larger is `sent` in its flow and `recv` in the totals. */
  lemma ColumnsCanDiffer()
    ensures var s := Settings(None, None, None, None, false, false);
            var p := Packet(4, TCP, 2, 1, 10, 20, 100);
            Classify(s, HwUnknown, p) == Some(Verdict(AddrPair(Inet, TCP, 10, 2, 20, 1), true, false, 100))
  {
  }

  function Reply(p: Packet): Packet {
    p.(src := p.dst, dst := p.src, srcPort := p.dstPort, dstPort := p.srcPort)
  }

  function Opposite(hw: HwDir): HwDir {
    match hw
    case HwOut => HwIn
    case HwIn => HwOut
    case HwUnknown => HwUnknown
  }

  /** The condition under which a packet and its reply form one two-way flow. */
  predicate HasTwoWayFlow(s: Settings, hw: HwDir, p: Packet) {
    && IsIp(p)
    && p.src != p.dst
    && (ThirdParty(s, hw, p) && p.version == 6 ==> p.src == 0 || p.dst == 0)
  }

  /** Flipping a packet and not flipping its reply give the same key. */
  lemma FlippedReplyHasSameKey(p: Packet, flip: bool)
    ensures AssignAddrPair(p, flip) == AssignAddrPair(Reply(p), !flip)
  {
  }

  lemma UnfilteredReplyLaw(s: Settings, hw: HwDir, p: Packet)
    requires IsIp(p) && NetFilter(s, p).None?
    ensures var c := ChooseUnfiltered(s, hw, p);
            var r := ChooseUnfiltered(s, Opposite(hw), Reply(p));
            && (c.Kept? <==> r.Kept?)
            && (c.Kept? ==> var sent, replied := c.pair.src == p.src, r.pair.src == p.dst;
                 (c.pair == r.pair && sent != replied) <==> HasTwoWayFlow(s, hw, p))
  {
    FlippedReplyHasSameKey(p, true);
    FlippedReplyHasSameKey(p, false);
  }

  /** Packet and reply are accepted or junked together; when accepted they share a flow and fill
      opposite columns of it exactly when `HasTwoWayFlow` holds. */
  lemma ReplyLaw(s: Settings, hw: HwDir, p: Packet)
    ensures Classify(s, hw, p).Some? <==> Classify(s, Opposite(hw), Reply(p)).Some?
    ensures Classify(s, hw, p).Some? ==>
              var v := Classify(s, hw, p).value;
              var r := Classify(s, Opposite(hw), Reply(p)).value;
              (v.key == r.key && v.sent != r.sent) <==> HasTwoWayFlow(s, hw, p)
  {
    if !IsIp(p) {
      assert Choose(s, hw, p) == Choose(s, Opposite(hw), Reply(p)) == Kept(ZERO_PAIR, false);
    } else if NetFilter(s, p).Some? {
      var n := NetFilter(s, p).value;
      assert ChooseFiltered(n, p).Kept? ==> n(p.src) != n(p.dst);
      FlippedReplyHasSameKey(p, ChooseFiltered(n, p).Kept? && n(p.src));
    } else {
      UnfilteredReplyLaw(s, hw, p);
    }
  }

  /** The reply law can fail: a packet that a machine sends to itself, on an interface that knows its
      direction, counts as sent, and so does its reply; and IPv6 packets between two other machines all
      fall into one flow without addresses, always as received. */
  lemma ReplyCanMiss()
    ensures var s := Settings(None, None, None, None, false, false);
            var loop := Packet(4, TCP, 1, 1, 10, 20, 100);
            var v, r := Classify(s, HwOut, loop), Classify(s, HwIn, Reply(loop));
            v.Some? && r.Some? && v.value.key == r.value.key && v.value.sent && r.value.sent
    ensures var s := Settings(None, None, None, None, false, false);
            var other := Packet(6, TCP, 2, 1, 10, 20, 100);
            var v, r := Classify(s, HwUnknown, other), Classify(s, HwUnknown, Reply(other));
            v.Some? && r.Some? && v.value.key == r.value.key && !v.value.sent && !r.value.sent
  {
    assert !IsLinkLocal(1) && !IsLinkLocal(2);
  }
}
