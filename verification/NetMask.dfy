/** Net filters: the mask arithmetic of src/config/options.c and the tests of src/entry/iftop.c.
    A machine word is its bits, most significant first, in host byte order. */
module NetMask {
  import opened Prelude
  import P = Packets

  type Word = seq<bool>

  function Ones(n: nat): (w: Word)
    ensures |w| == n && forall i | 0 <= i < n :: w[i]
  {
    seq(n, _ => true)
  }

  function Zeros(n: nat): (w: Word)
    ensures |w| == n && forall i | 0 <= i < n :: !w[i]
  {
    seq(n, _ => false)
  }

  /** `w >> k` on an unsigned word */
  function ShiftRight(w: Word, k: nat): Word {
    seq(|w|, i requires 0 <= i < |w| => i >= k && w[i - k])
  }

  /** `w << k`, truncated to the word */
  function ShiftLeft(w: Word, k: nat): Word {
    seq(|w|, i requires 0 <= i < |w| => i + k < |w| && w[i + k])
  }

  /** `~w` */
  function Complement(w: Word): Word {
    seq(|w|, i requires 0 <= i < |w| => !w[i])
  }

  /** `v & w` */
  function And(v: Word, w: Word): Word
    requires |v| == |w|
  {
    seq(|v|, i requires 0 <= i < |v| => v[i] && w[i])
  }

  // ---- IPv4 ----

  /** The mask for a prefix length; a shift by the width of the word is undefined in C, hence the
      special case. */
  function Mask4(p: nat): (m: Word)
    requires p <= 32
    ensures |m| == 32
  {
    if p == 32 then Ones(32) else Complement(ShiftRight(Ones(32), p))
  }

  /** What the mask becomes: a length above 32 is reported, and leaves the mask that was there. */
  function NewMask4(was: Word, p: nat): (m: Word)
    requires |was| == 32
    ensures |m| == 32
  {
    if p <= 32 then Mask4(p) else was
  }

  /** The options of the IPv4 filter that a numeric mask sets. */
  datatype Filter4 = Filter4(on: bool, net: Word, mask: Word)

  /** The numeric branch of `options_config_get_net_filter`, for the address `net` just read.  The filter
      is switched on whatever the length. */
  method SetPrefix4(f: Filter4, net: Word, p: nat) returns (r: Filter4)
    requires |net| == |f.mask| == 32
    ensures r.on && |r.mask| == 32 && r.net == And(net, r.mask)
    ensures forall i | 0 <= i < 32 :: r.mask[i] <==> if p <= 32 then i < p else f.mask[i]
  {
    r := f.(on := false, net := net);
    if p <= 32 {
      if p == 32 {
        r := r.(mask := Ones(32));
      } else {
        r := r.(mask := Complement(ShiftRight(Ones(32), p)));
      }
    }
    r := r.(on := true);
    r := r.(net := And(r.net, r.mask));
  }

  /** `in_filter_net`, with `netfilternet` masked as the option parser leaves it. */
  predicate InNet4(net: Word, mask: Word, a: Word)
    requires |net| == |mask| == |a| == 32
  {
    And(a, mask) == And(net, mask)
  }

  /** A filter looks at exactly the bits set in its mask. */
  lemma InNetBits4(net: Word, mask: Word, a: Word)
    requires |net| == |mask| == |a| == 32
    ensures InNet4(net, mask, a) <==> forall i | 0 <= i < 32 && mask[i] :: a[i] == net[i]
  {
    if InNet4(net, mask, a) {
      forall i | 0 <= i < 32 && mask[i]
        ensures a[i] == net[i]
      {
        assert And(a, mask)[i] == And(net, mask)[i];
      }
    }
  }

  lemma MaskBits4(p: nat)
    requires p <= 32
    ensures forall i | 0 <= i < 32 :: Mask4(p)[i] <==> i < p
  {
  }

  /** For every prefix length from 0 to 32 the filter accepts exactly the addresses that share the first
      `p` bits of the configured network; for a larger one it goes by the bits of the previous mask. */
  lemma PrefixMask4(net: Word, was: Word, a: Word, p: nat)
    requires |net| == |was| == |a| == 32
    ensures InNet4(net, NewMask4(was, p), a) <==>
            if p <= 32 then a[..p] == net[..p] else forall i | 0 <= i < 32 && was[i] :: a[i] == net[i]
  {
    InNetBits4(net, NewMask4(was, p), a);
    if p <= 32 {
      MaskBits4(p);
      assert a[..p] == net[..p] ==> forall i | 0 <= i < p :: a[i] == a[..p][i] == net[..p][i] == net[i];
    }
  }

  /** Starting from the default mask 255.255.255.0, a length that is too large means 24. */
  lemma DefaultMeansPrefix4(net: Word, a: Word, p: nat)
    requires |net| == |a| == 32
    ensures var q := if p <= 32 then p else 24;
            InNet4(net, NewMask4(Mask4(24), p), a) <==> a[..q] == net[..q]
  {
    PrefixMask4(net, Mask4(24), a, p);
    PrefixMask4(net, Mask4(24), a, 24);
  }

  // ---- IPv6, byte by byte ----

  const BYTES := 16

  /** An address or mask: sixteen bytes. */
  type Bytes = b: seq<Word> | |b| == BYTES && forall j | 0 <= j < BYTES :: |b[j]| == 8
    witness seq(BYTES, _ => Zeros(8))

  function Partial(r: nat): (w: Word)
    requires 0 < r < 8
    ensures |w| == 8 && forall i | 0 <= i < 8 :: w[i] <==> i < r
  {
    ShiftLeft(Ones(8), 8 - r)
  }

  function MaskByte(m: Bytes, p: nat, j: nat): (w: Word)
    requires p <= 128 && j < BYTES
    ensures |w| == 8
  {
    if j < p / 8 then Ones(8) else if j == p / 8 && p % 8 > 0 then Partial(p % 8) else m[j]
  }

  /** What the mask becomes: bytes past the prefix keep whatever they held. */
  function Mask6(m: Bytes, p: nat): (r: Bytes)
    requires p <= 128
    ensures forall j | 0 <= j < BYTES :: r[j] == MaskByte(m, p, j)
  {
    var r := seq(BYTES, j requires 0 <= j < BYTES => MaskByte(m, p, j));
    assert forall j | 0 <= j < BYTES :: r[j] == MaskByte(m, p, j);
    r
  }

  /** The byte loops of `options_config_get_net_filter6`, on the mask in place.  `on` is whether the
      filter is switched on; a length outside 1 to 128 leaves everything as it was. */
  method SetPrefix6(mask: array<Word>, p: nat) returns (on: bool)
    requires mask.Length == BYTES && forall j | 0 <= j < BYTES :: |mask[j]| == 8
    modifies mask
    ensures on <==> 1 <= p <= 128
    ensures mask[..] == if on then Mask6(old(mask[..]), p) else old(mask[..])
  {
    if p > 128 || p < 1 {
      return false;
    }
    var full, remainder := p / 8, p % 8;
    var j := 0;
    while j < full
      invariant 0 <= j <= full <= BYTES
      invariant forall i | 0 <= i < BYTES :: mask[i] == if i < j then Ones(8) else old(mask[i])
    {
      mask[j] := Ones(8);
      j := j + 1;
    }
    if remainder > 0 {
      mask[full] := Partial(remainder);
    }
    return true;
  }

  /** The masked comparison of `handle_ip_packet` against the masked network. */
  predicate InNet6(net: Bytes, mask: Bytes, a: Bytes) {
    forall j | 0 <= j < BYTES :: And(a[j], mask[j]) == And(net[j], mask[j])
  }

  /** Bit `i` of an address, counted from the most significant one. */
  predicate Bit6(a: Bytes, i: nat)
    requires i < 128
  {
    a[i / 8][i % 8]
  }

  ghost predicate SharesPrefix6(a: Bytes, b: Bytes, p: nat)
    requires p <= 128
  {
    forall i: nat | i < p :: Bit6(a, i) == Bit6(b, i)
  }

  /** No bit of the mask is left over past the prefix. */
  ghost predicate NothingStale(m: Bytes, p: nat)
    requires p <= 128
  {
    forall i: nat | p <= i < 128 && i / 8 >= (p + 7) / 8 :: !Bit6(m, i)
  }

  lemma MaskBits6(m: Bytes, p: nat, i: nat)
    requires p <= 128 && i < 128
    ensures i < p ==> Bit6(Mask6(m, p), i)
    ensures p <= i && i / 8 < (p + 7) / 8 ==> !Bit6(Mask6(m, p), i)
    ensures i / 8 >= (p + 7) / 8 ==> Bit6(Mask6(m, p), i) == Bit6(m, i)
  {
  }

  /** A filter looks at exactly the bits set in its mask. */
  lemma InNetBits6(net: Bytes, mask: Bytes, a: Bytes)
    ensures InNet6(net, mask, a) <==> forall i: nat | i < 128 && Bit6(mask, i) :: Bit6(a, i) == Bit6(net, i)
  {
    if InNet6(net, mask, a) {
      forall i: nat | i < 128 && Bit6(mask, i)
        ensures Bit6(a, i) == Bit6(net, i)
      {
        assert And(a[i / 8], mask[i / 8])[i % 8] == And(net[i / 8], mask[i / 8])[i % 8];
      }
    }
    if forall i: nat | i < 128 && Bit6(mask, i) :: Bit6(a, i) == Bit6(net, i) {
      forall j, k | 0 <= j < BYTES && 0 <= k < 8
        ensures And(a[j], mask[j])[k] == And(net[j], mask[j])[k]
      {
        assert (8 * j + k) / 8 == j && (8 * j + k) % 8 == k;
        assert Bit6(mask, 8 * j + k) ==> Bit6(a, 8 * j + k) == Bit6(net, 8 * j + k);
      }
    }
  }

  lemma PrefixMask6(net: Bytes, m: Bytes, a: Bytes, p: nat)
    requires p <= 128 && NothingStale(m, p)
    ensures InNet6(net, Mask6(m, p), a) <==> SharesPrefix6(a, net, p)
  {
    InNetBits6(net, Mask6(m, p), a);
    forall i: nat | i < 128
      ensures Bit6(Mask6(m, p), i) <==> i < p
    {
      MaskBits6(m, p, i);
    }
  }

  /** `net` with bit `i` flipped. */
  function Flip(net: Bytes, i: nat): Bytes
    requires i < 128
  {
    net[i / 8 := net[i / 8][i % 8 := !net[i / 8][i % 8]]]
  }

  /** With a stale bit in the mask, the network with that bit flipped shares the prefix and is refused. */
  lemma StaleBitRefuses(net: Bytes, m: Bytes, p: nat, i: nat)
    requires p <= i < 128 && i / 8 >= (p + 7) / 8 && Bit6(m, i)
    ensures SharesPrefix6(Flip(net, i), net, p) && !InNet6(net, Mask6(m, p), Flip(net, i))
  {
    MaskBits6(m, p, i);
    InNetBits6(net, Mask6(m, p), Flip(net, i));
    assert Bit6(Flip(net, i), i) != Bit6(net, i);
    forall k: nat | k < p
      ensures Bit6(Flip(net, i), k) == Bit6(net, k)
    {
      assert k / 8 < (p + 7) / 8 <= i / 8;
    }
  }

  /** Starting from a mask `m`, the filter means the prefix exactly when `m` has no bit set past it. */
  lemma PrefixMeaningExactly(net: Bytes, m: Bytes, p: nat)
    requires p <= 128
    ensures (forall a: Bytes :: InNet6(net, Mask6(m, p), a) <==> SharesPrefix6(a, net, p)) <==> NothingStale(m, p)
  {
    if NothingStale(m, p) {
      forall a: Bytes
        ensures InNet6(net, Mask6(m, p), a) <==> SharesPrefix6(a, net, p)
      {
        PrefixMask6(net, m, a, p);
      }
    } else {
      var i: nat :| p <= i < 128 && i / 8 >= (p + 7) / 8 && Bit6(m, i);
      StaleBitRefuses(net, m, p, i);
      assert !(InNet6(net, Mask6(m, p), Flip(net, i)) <==> SharesPrefix6(Flip(net, i), net, p));
    }
  }

  /** The default mask ffff::. */
  function DefaultMask6(): Bytes {
    [Ones(8), Ones(8), Zeros(8), Zeros(8), Zeros(8), Zeros(8), Zeros(8), Zeros(8),
     Zeros(8), Zeros(8), Zeros(8), Zeros(8), Zeros(8), Zeros(8), Zeros(8), Zeros(8)]
  }

  /** Starting from the default mask, a prefix length means the prefix exactly from 9 upwards: for 1 to 8
      the second byte of ffff:: survives and is compared as well. */
  lemma DefaultMeansPrefixExactly(net: Bytes, p: nat)
    requires 1 <= p <= 128
    ensures (forall a: Bytes :: InNet6(net, Mask6(DefaultMask6(), p), a) <==> SharesPrefix6(a, net, p)) <==> p >= 9
  {
    PrefixMeaningExactly(net, DefaultMask6(), p);
    if p < 9 {
      assert 8 / 8 >= (p + 7) / 8 && Bit6(DefaultMask6(), 8);
    } else {
      assert forall i: nat | 16 <= i < 128 :: !Bit6(DefaultMask6(), i);
    }
  }

  // ---- What a prefix does to packets ----

  /** The low `n` bits of an address. */
  function Bits(a: nat, n: nat): (w: Word)
    ensures |w| == n
  {
    if n == 0 then [] else Bits(a / 2, n - 1) + [a % 2 == 1]
  }

  /** The sixteen bytes of an IPv6 address. */
  function BytesOf(a: nat): Bytes {
    var w := Bits(a, 128);
    seq(BYTES, j requires 0 <= j < BYTES => w[8 * j..8 * j + 8])
  }

  lemma BytesHoldBits(a: nat, i: nat)
    requires i < 128
    ensures Bit6(BytesOf(a), i) == Bits(a, 128)[i]
  {
    assert i == 8 * (i / 8) + i % 8;
  }

  /** With an IPv4 net filter of prefix length `len`, a packet is counted exactly when one end shares the
      first `len` bits with the network and the other does not, and as outgoing when that is the source. */
  lemma Prefix4Verdict(s: P.Settings, hw: P.HwDir, p: P.Packet, inside: P.Net, net: Word, was: Word, len: nat)
    requires p.version == 4 && s.netFilter4 == Some(inside) && |net| == |was| == 32 && len <= 32
    requires forall a :: inside(a) == InNet4(net, NewMask4(was, len), Bits(a, 32))
    ensures var fromInside, toInside := Bits(p.src, 32)[..len] == net[..len], Bits(p.dst, 32)[..len] == net[..len];
            var c := P.Classify(s, hw, p);
            && (c.Some? <==> fromInside != toInside)
            && (c.Some? ==> (c.value.outgoing <==> fromInside) && (c.value.sent <==> fromInside))
  {
    P.FilteredVerdict(s, hw, p, inside);
    PrefixMask4(net, was, Bits(p.src, 32), len);
    PrefixMask4(net, was, Bits(p.dst, 32), len);
  }

  /** The same for IPv6, for a mask that had no bit set past the prefix. */
  lemma Prefix6Verdict(s: P.Settings, hw: P.HwDir, p: P.Packet, inside: P.Net, net: Bytes, was: Bytes, len: nat)
    requires p.version == 6 && s.netFilter6 == Some(inside) && 1 <= len <= 128 && NothingStale(was, len)
    requires forall a :: inside(a) == InNet6(net, Mask6(was, len), BytesOf(a))
    ensures var fromInside, toInside := SharesPrefix6(BytesOf(p.src), net, len), SharesPrefix6(BytesOf(p.dst), net, len);
            var c := P.Classify(s, hw, p);
            && (c.Some? <==> fromInside != toInside && !P.Refused(s, p))
            && (c.Some? ==> (c.value.outgoing <==> fromInside) && (c.value.sent <==> fromInside))
  {
    P.FilteredVerdict(s, hw, p, inside);
    PrefixMask6(net, was, BytesOf(p.src), len);
    PrefixMask6(net, was, BytesOf(p.dst), len);
  }
}
