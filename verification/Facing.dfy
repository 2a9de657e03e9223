/** Which way flows run when the net filters are on: a law about whole runs of src/entry/iftop.c. */
module Facing {
  import opened Prelude
  import opened Packets
  import opened Ledger
  import opened Refinement

  /** Every arrival of the run was classified with the net filters `n4` and `n6` on. */
  ghost predicate FilteredBy(evs: seq<Event>, n4: Net, n6: Net) {
    forall e | e in evs && e.Arrival? :: e.settings.netFilter4 == Some(n4) && e.settings.netFilter6 == Some(n6)
  }

  lemma {:induction false} SeenFlowsFaceOut(evs: seq<Event>, n4: Net, n6: Net, k: AddrPair)
    requires FilteredBy(evs, n4, n6) && Age(evs, k).Some?
    ensures k.family == Inet ==> n4(k.src) && !n4(k.dst)
    ensures k.family == Inet6 ==> n6(k.src) && !n6(k.dst)
  {
    var e := Last(evs);
    if e.Accounted().Some? && e.Accounted().value.key == k {
      assert e in evs;
      VerdictFields(e.settings, e.hw, e.packet);
      if IsIp(e.packet) {
        FilteredVerdict(e.settings, e.hw, e.packet, if e.packet.version == 4 then n4 else n6);
      }
    } else {
      assert forall x | x in Front(evs) :: x in evs;
      SeenFlowsFaceOut(Front(evs), n4, n6, k);
    }
  }

  /** While both net filters stay on, every flow on record runs from inside its network to outside. */
  lemma {:induction false} FlowsFaceOut(evs: seq<Event>, n4: Net, n6: Net, k: AddrPair)
    requires FilteredBy(evs, n4, n6) && k in Run(evs).flows
    ensures k.family == Inet ==> n4(k.src) && !n4(k.dst)
    ensures k.family == Inet6 ==> n6(k.src) && !n6(k.dst)
  {
    RingRefinesLog(evs, k);
    SeenFlowsFaceOut(evs, n4, n6, k);
  }
}
