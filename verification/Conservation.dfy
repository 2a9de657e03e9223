/** No byte is lost: in every reachable state of the ledger the flows together hold what the grand totals
    hold, slot by slot, although idle flows are deleted on the way (src/entry/iftop.c). */
module Conservation {
  import opened Prelude
  import opened Packets
  import opened Ledger
  import opened Refinement
  import opened Sums
  import Ring

  /** Slot `slot` of column `out` of every flow. */
  function FlowSlots(flows: map<AddrPair, Hist>, out: bool, slot: int): map<AddrPair, int>
    requires 0 <= slot < HISTORY_LENGTH && SizedFlows(flows)
  {
    map k | k in flows :: flows[k].Slots(out)[slot]
  }

  /** Bytes that landed in column `out` of whichever flow, exactly `age` rotations ago. */
  function LoggedFlows(evs: seq<Event>, out: bool, age: nat): nat {
    if evs == [] then 0
    else if Last(evs).Rotation? then
      if age == 0 then 0 else LoggedFlows(Front(evs), out, age - 1)
    else
      var v := Last(evs).Accounted();
      LoggedFlows(Front(evs), out, age) +
      if age == 0 && v.Some? && v.value.sent == out then v.value.bytes else 0
  }

  /** Bytes of accounted packets that `ColumnsDisagree` singles out, exactly `age` rotations ago. */
  function Stray(evs: seq<Event>, age: nat): nat {
    if evs == [] then 0
    else if Last(evs).Rotation? then
      if age == 0 then 0 else Stray(Front(evs), age - 1)
    else
      var e := Last(evs);
      Stray(Front(evs), age) +
      if age == 0 && e.Accounted().Some? && ColumnsDisagree(e.settings, e.hw, e.packet)
      then e.Accounted().value.bytes else 0
  }

  lemma FlowSlotsAfterArrival(s: State, v: Verdict, out: bool, slot: int)
    requires s.Sized() && 0 <= slot < HISTORY_LENGTH
    ensures Sum(FlowSlots(Account(s, v).flows, out, slot)) ==
            Sum(FlowSlots(s.flows, out, slot)) + if v.sent == out && slot == s.pos then v.bytes else 0
  {
    var before := FlowSlots(s.flows, out, slot);
    var h := Account(s, v).flows[v.key];
    assert FlowSlots(Account(s, v).flows, out, slot) == before[v.key := h.Slots(out)[slot]];
    SumUpdate(before, v.key, h.Slots(out)[slot]);
  }

  /** When the deletion test holds, every slot but the one being recycled is zero: the rotation that drops
      the record would have left nothing in it. */
  lemma ExpiredFlowIsEmpty(evs: seq<Event>, k: AddrPair, out: bool)
    requires k in Run(evs).flows
    requires Run(evs).flows[k].lastWrite == NextSlot(Run(evs).pos)
    ensures Run(evs).flows[k].ClearSlot(NextSlot(Run(evs).pos)).Slots(out) == ZeroSlots()
  {
    var s := Run(evs);
    var col, next := s.flows[k].Slots(out), NextSlot(s.pos);
    RingRefinesLog(evs, k);
    Ring.BackExpires(HISTORY_LENGTH, s.pos, Age(evs, k).value);
    forall i | 0 <= i < HISTORY_LENGTH && i != next
      ensures col[i] == 0
    {
      var age := Ring.Ahead(HISTORY_LENGTH, i, s.pos);
      Ring.BackCovers(HISTORY_LENGTH, s.pos, i);
      Ring.BackExpires(HISTORY_LENGTH, s.pos, age);
      SilentSinceLastPacket(evs, k, out, age);
      assert col[Slot(s.pos, age)] == Logged(evs, k, out, age);
    }
  }

  /** A rotation moves every slot one age back, provided the flows it deletes held only zeros. */
  lemma FlowSlotsAfterRotation(s: State, out: bool, age: nat)
    requires s.Sized() && 0 < age < HISTORY_LENGTH
    requires forall k | k in s.flows && s.flows[k].lastWrite == Rotated(s).pos ::
               s.flows[k].Slots(out)[Slot(s.pos, age - 1)] == 0
    ensures Sum(FlowSlots(Rotated(s).flows, out, Slot(Rotated(s).pos, age))) ==
            Sum(FlowSlots(s.flows, out, Slot(s.pos, age - 1)))
  {
    var r := Rotated(s);
    var before := FlowSlots(s.flows, out, Slot(s.pos, age - 1));
    var after := FlowSlots(r.flows, out, Slot(r.pos, age));
    var gone := set k | k in s.flows && s.flows[k].lastWrite == r.pos;
    SumDropZeros(before, gone);
    forall k | k in after
      ensures after[k] == before[k]
    {
      RingAfterRotation(s.flows[k].Slots(out), s.pos, age);
    }
    assert after == before - gone;
  }

  lemma FlowsAfterRotation(evs: seq<Event>, out: bool, age: nat)
    requires age < HISTORY_LENGTH
    ensures var s := Run(evs);
            Sum(FlowSlots(Rotated(s).flows, out, Slot(Rotated(s).pos, age))) ==
            if age == 0 then 0 else Sum(FlowSlots(s.flows, out, Slot(s.pos, age - 1)))
  {
    var s := Run(evs);
    if age == 0 {
      Ring.BackOfNow(HISTORY_LENGTH, Rotated(s).pos, 0);
      SumZero(FlowSlots(Rotated(s).flows, out, Rotated(s).pos));
    } else {
      forall k | k in s.flows && s.flows[k].lastWrite == Rotated(s).pos
        ensures s.flows[k].Slots(out)[Slot(s.pos, age - 1)] == 0
      {
        ExpiredFlowIsEmpty(evs, k, out);
        Ring.BackExpires(HISTORY_LENGTH, s.pos, age - 1);
        assert s.flows[k].ClearSlot(Rotated(s).pos).Slots(out)[Slot(s.pos, age - 1)] == 0;
      }
      FlowSlotsAfterRotation(s, out, age);
    }
  }

  /** Deletion loses nothing: in every run and for every slot, the live flows together still hold
      every byte logged for that slot, column by column. */
  lemma {:induction false} FlowsHoldEveryByte(evs: seq<Event>, out: bool, age: nat)
    requires age < HISTORY_LENGTH
    ensures Sum(FlowSlots(Run(evs).flows, out, Slot(Run(evs).pos, age))) == LoggedFlows(evs, out, age)
  {
    if evs == [] {
      SumZero(FlowSlots(Run(evs).flows, out, Slot(0, age)));
    } else {
      var s := Run(Front(evs));
      if Last(evs).Rotation? {
        if age > 0 {
          FlowsHoldEveryByte(Front(evs), out, age - 1);
        }
        FlowsAfterRotation(Front(evs), out, age);
      } else {
        FlowsHoldEveryByte(Front(evs), out, age);
        Ring.BackOfNow(HISTORY_LENGTH, s.pos, age);
        if Last(evs).Accounted().Some? {
          FlowSlotsAfterArrival(s, Last(evs).Accounted().value, out, Slot(s.pos, age));
        }
      }
    }
  }

  /** A packet that counts as outgoing in the totals always sits in the `sent` column of its flow,
      so stray bytes only ever move from the totals' `recv` to a flow's `sent`. */
  lemma {:induction false} StrayBytesMoveOneWay(evs: seq<Event>, age: nat)
    ensures LoggedFlows(evs, true, age) == LoggedTotal(evs, true, age) + Stray(evs, age)
    ensures LoggedFlows(evs, false, age) + Stray(evs, age) == LoggedTotal(evs, false, age)
  {
    if evs == [] {
    } else {
      if Last(evs).Rotation? {
        if age > 0 {
          StrayBytesMoveOneWay(Front(evs), age - 1);
        }
      } else {
        StrayBytesMoveOneWay(Front(evs), age);
        var e := Last(evs);
        if e.Accounted().Some? {
          ColumnsAgreeExactly(e.settings, e.hw, e.packet);
          if e.Accounted().value.outgoing {
            OutgoingIsSent(e.settings, e.hw, e.packet);
          }
        }
      }
    }
  }

  /** Conservation in every reachable state, for every slot: flows and totals hold the same bytes
      together, and column by column they differ by exactly the stray bytes of that slot. */
  lemma SlotConservation(evs: seq<Event>, age: nat)
    requires age < HISTORY_LENGTH
    ensures var s := Run(evs);
            var slot := Slot(s.pos, age);
            var sent := Sum(FlowSlots(s.flows, true, slot));
            var recv := Sum(FlowSlots(s.flows, false, slot));
            && sent + recv == s.totals.sent[slot] + s.totals.recv[slot]
            && sent == s.totals.sent[slot] + Stray(evs, age)
            && recv + Stray(evs, age) == s.totals.recv[slot]
  {
    FlowsHoldEveryByte(evs, true, age);
    FlowsHoldEveryByte(evs, false, age);
    TotalsRefineLog(evs, true, age);
    TotalsRefineLog(evs, false, age);
    StrayBytesMoveOneWay(evs, age);
  }

  /** Every arrival of the run was classified with both net filters on. */
  ghost predicate AlwaysFiltered(evs: seq<Event>) {
    forall e | e in evs && e.Arrival? :: e.settings.netFilter4.Some? && e.settings.netFilter6.Some?
  }

  /** With both net filters on throughout, no byte is ever stray. */
  lemma {:induction false} FilteredRunsHaveNoStrays(evs: seq<Event>, age: nat)
    requires AlwaysFiltered(evs)
    ensures Stray(evs, age) == 0
  {
    if evs == [] {
    } else {
      assert Last(evs) in evs;
      assert AlwaysFiltered(Front(evs));
      if Last(evs).Arrival? {
        FilteredRunsHaveNoStrays(Front(evs), age);
      } else if age > 0 {
        FilteredRunsHaveNoStrays(Front(evs), age - 1);
      }
    }
  }
}
