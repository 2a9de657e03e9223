/** The ledger refines the packet log: what the ring, the lazy deletion and the running totals hold in every
    run of src/entry/iftop.c. */
module Refinement {
  import opened Prelude
  import opened Packets
  import opened Ledger
  import Ring

  // ---- Ring arithmetic ----

  /** Zeroing the slot that the clock advances to moves every other slot one age back. */
  lemma RingAfterRotation(col: seq<int>, pos: int, age: nat)
    requires |col| == HISTORY_LENGTH && 0 <= pos < HISTORY_LENGTH && age < HISTORY_LENGTH
    ensures var next := NextSlot(pos);
            col[next := 0][Slot(next, age)] == if age == 0 then 0 else col[Slot(pos, age - 1)]
  {
    if age > 0 {
      Ring.BackShifts(HISTORY_LENGTH, pos, age);
    }
  }

  /** Adding at the current slot changes age zero only. */
  lemma RingAfterAdd(col: seq<int>, pos: int, age: nat, n: int)
    requires |col| == HISTORY_LENGTH && 0 <= pos < HISTORY_LENGTH && age < HISTORY_LENGTH
    ensures col[pos := col[pos] + n][Slot(pos, age)] == col[Slot(pos, age)] + if age == 0 then n else 0
  {
    Ring.BackOfNow(HISTORY_LENGTH, pos, age);
  }

  // ---- Refinement ----

  /** The ring of a column read backwards from `pos` is the log of that column. */
  ghost predicate ColumnMatches(col: seq<int>, pos: int, evs: seq<Event>, k: AddrPair, out: bool)
    requires |col| == HISTORY_LENGTH && 0 <= pos < HISTORY_LENGTH
  {
    forall age: nat | age < HISTORY_LENGTH :: col[Slot(pos, age)] == Logged(evs, k, out, age)
  }

  ghost predicate FlowMatches(h: Hist, pos: int, evs: seq<Event>, k: AddrPair)
    requires h.Sized() && 0 <= pos < HISTORY_LENGTH
  {
    && Recent(evs, k)
    && h.lastWrite == Slot(pos, Age(evs, k).value)
    && (forall out :: ColumnMatches(h.Slots(out), pos, evs, k, out))
    && (forall out :: h.Lifetime(out) == LifetimeBytes(evs, k, out))
  }

  /** Nothing is logged more recently than the last packet. */
  lemma {:induction false} SilentSinceLastPacket(evs: seq<Event>, k: AddrPair, out: bool, age: nat)
    requires Age(evs, k).None? || age < Age(evs, k).value
    ensures Logged(evs, k, out, age) == 0
  {
    if evs == [] {
    } else {
      if Last(evs).Rotation? {
        if age > 0 {
          SilentSinceLastPacket(Front(evs), k, out, age - 1);
        }
      } else {
        SilentSinceLastPacket(Front(evs), k, out, age);
      }
    }
  }

  /** A flow that has been silent for a full window has no lifetime bytes. */
  lemma {:induction false} LifetimeIsForgotten(evs: seq<Event>, k: AddrPair, out: bool)
    requires !Recent(evs, k)
    ensures LifetimeBytes(evs, k, out) == 0
  {
    if evs == [] {
    } else {
      if !Recent(Front(evs), k) {
        LifetimeIsForgotten(Front(evs), k, out);
      }
    }
  }

  lemma ColumnAfterRotation(col: seq<int>, pos: int, evs: seq<Event>, k: AddrPair, out: bool)
    requires evs != [] && Last(evs).Rotation?
    requires |col| == HISTORY_LENGTH && 0 <= pos < HISTORY_LENGTH
    requires ColumnMatches(col, pos, Front(evs), k, out)
    ensures var next := NextSlot(pos);
            ColumnMatches(col[next := 0], next, evs, k, out)
  {
    var next := NextSlot(pos);
    forall age: nat | age < HISTORY_LENGTH
      ensures col[next := 0][Slot(next, age)] == Logged(evs, k, out, age)
    {
      RingAfterRotation(col, pos, age);
    }
  }

  /** Appending an event that is not a rotation changes a column at the current slot only. */
  lemma ColumnAfterArrival(col: seq<int>, pos: int, evs: seq<Event>, k: AddrPair, out: bool)
    requires evs != [] && Last(evs).Arrival?
    requires |col| == HISTORY_LENGTH && 0 <= pos < HISTORY_LENGTH
    requires ColumnMatches(col, pos, Front(evs), k, out)
    ensures ColumnMatches(
              if Hits(Last(evs), k, out) then col[pos := col[pos] + Last(evs).Accounted().value.bytes] else col,
              pos, evs, k, out)
  {
    forall age: nat | age < HISTORY_LENGTH
      ensures (Slot(pos, age) == pos <==> age == 0)
    {
      Ring.BackOfNow(HISTORY_LENGTH, pos, age);
    }
  }

  /** A record created now, all zero, matches the log of a flow silent for a full window. */
  lemma ZeroRecordMatches(pos: int, evs: seq<Event>, k: AddrPair, out: bool)
    requires 0 <= pos < HISTORY_LENGTH && !Recent(evs, k)
    ensures ColumnMatches(ZeroSlots(), pos, evs, k, out)
    ensures LifetimeBytes(evs, k, out) == 0
  {
    forall age: nat | age < HISTORY_LENGTH
      ensures Logged(evs, k, out, age) == 0
    {
      SilentSinceLastPacket(evs, k, out, age);
    }
    LifetimeIsForgotten(evs, k, out);
  }

  ghost predicate FlowRefined(s: State, evs: seq<Event>, k: AddrPair)
    requires s.Sized()
  {
    && (k in s.flows <==> Recent(evs, k))
    && (k in s.flows ==> FlowMatches(s.flows[k], s.pos, evs, k))
  }

  lemma FlowAfterRotation(s: State, evs: seq<Event>, k: AddrPair)
    requires s.Sized() && evs != [] && Last(evs).Rotation?
    requires FlowRefined(s, Front(evs), k)
    ensures FlowRefined(Rotated(s), evs, k)
  {
    if k in s.flows {
      var age := Age(Front(evs), k).value;
      Ring.BackExpires(HISTORY_LENGTH, s.pos, age);
      if age + 1 < HISTORY_LENGTH {
        Ring.BackShifts(HISTORY_LENGTH, s.pos, age + 1);
        forall out: bool
          ensures ColumnMatches(Rotated(s).flows[k].Slots(out), Rotated(s).pos, evs, k, out)
        {
          ColumnAfterRotation(s.flows[k].Slots(out), s.pos, evs, k, out);
        }
      }
    }
  }

  lemma RecordMatches(s: State, evs: seq<Event>, k: AddrPair, out: bool)
    requires s.Sized() && FlowRefined(s, evs, k)
    ensures ColumnMatches(RecordOf(s, k).Slots(out), s.pos, evs, k, out)
    ensures RecordOf(s, k).Lifetime(out) == LifetimeBytes(evs, k, out)
  {
    if k !in s.flows {
      ZeroRecordMatches(s.pos, evs, k, out);
    }
  }

  lemma FlowAfterOwnPacket(s: State, evs: seq<Event>, k: AddrPair)
    requires s.Sized() && evs != [] && Last(evs).Accounted().Some?
    requires Last(evs).Accounted().value.key == k
    requires FlowRefined(s, Front(evs), k)
    ensures FlowRefined(Account(s, Last(evs).Accounted().value), evs, k)
  {
    var h := Account(s, Last(evs).Accounted().value).flows[k];
    Ring.BackOfNow(HISTORY_LENGTH, s.pos, 0);
    forall out: bool
      ensures ColumnMatches(h.Slots(out), s.pos, evs, k, out)
      ensures h.Lifetime(out) == LifetimeBytes(evs, k, out)
    {
      RecordMatches(s, Front(evs), k, out);
      ColumnAfterArrival(RecordOf(s, k).Slots(out), s.pos, evs, k, out);
    }
  }

  lemma FlowAfterOtherArrival(s: State, evs: seq<Event>, k: AddrPair)
    requires s.Sized() && evs != [] && Last(evs).Arrival?
    requires Last(evs).Accounted().Some? ==> Last(evs).Accounted().value.key != k
    requires FlowRefined(s, Front(evs), k)
    ensures FlowRefined(Step(s, Last(evs)), evs, k)
  {
    if k in s.flows {
      forall out: bool
        ensures ColumnMatches(s.flows[k].Slots(out), s.pos, evs, k, out)
      {
        ColumnAfterArrival(s.flows[k].Slots(out), s.pos, evs, k, out);
      }
    }
  }

  /** In every run, for every flow: it has a record exactly when it was seen within the last
      HISTORY_LENGTH slots, and then every slot of both columns holds the bytes logged that many
      rotations ago. */
  lemma {:induction false} RingRefinesLog(evs: seq<Event>, k: AddrPair)
    ensures FlowRefined(Run(evs), evs, k)
  {
    if evs == [] {
    } else {
      RingRefinesLog(Front(evs), k);
      if Last(evs).Rotation? {
        FlowAfterRotation(Run(Front(evs)), evs, k);
      } else if Last(evs).Accounted().Some? && Last(evs).Accounted().value.key == k {
        FlowAfterOwnPacket(Run(Front(evs)), evs, k);
      } else {
        FlowAfterOtherArrival(Run(Front(evs)), evs, k);
      }
    }
  }

  /** The clock is the number of rotations and `history_len` the number of slots in use. */
  lemma {:induction false} ClockCountsRotations(evs: seq<Event>)
    ensures Run(evs).pos == Rotations(evs) % HISTORY_LENGTH
    ensures Run(evs).len == if Rotations(evs) + 1 < HISTORY_LENGTH then Rotations(evs) + 1 else HISTORY_LENGTH
  {
    if evs == [] {
    } else {
      var s := Run(Front(evs));
      ClockCountsRotations(Front(evs));
      assert Run(evs) == Step(s, Last(evs));
      Ring.ClockStep(HISTORY_LENGTH, Rotations(Front(evs)));
    }
  }

  lemma TotalsAfterRotation(s: State, out: bool, age: nat)
    requires s.Sized() && age < HISTORY_LENGTH
    ensures Rotated(s).totals.Slots(out)[Slot(Rotated(s).pos, age)] ==
            if age == 0 then 0 else s.totals.Slots(out)[Slot(s.pos, age - 1)]
  {
    RingAfterRotation(s.totals.Slots(out), s.pos, age);
  }

  lemma TotalsAfterArrival(s: State, v: Verdict, out: bool, age: nat)
    requires s.Sized() && age < HISTORY_LENGTH
    ensures Account(s, v).totals.Slots(out)[Slot(s.pos, age)] ==
            s.totals.Slots(out)[Slot(s.pos, age)] + if age == 0 && v.outgoing == out then v.bytes else 0
  {
    RingAfterAdd(s.totals.Slots(out), s.pos, age, v.bytes);
  }

  /** The grand totals are a ring over the log too. */
  lemma {:induction false} TotalsRefineLog(evs: seq<Event>, out: bool, age: nat)
    requires age < HISTORY_LENGTH
    ensures Run(evs).totals.Slots(out)[Slot(Run(evs).pos, age)] == LoggedTotal(evs, out, age)
  {
    if evs == [] {
    } else {
      var s := Run(Front(evs));
      assert Run(evs) == Step(s, Last(evs));
      if Last(evs).Rotation? {
        TotalsAfterRotation(s, out, age);
        if age > 0 {
          TotalsRefineLog(Front(evs), out, age - 1);
        }
      } else {
        TotalsRefineLog(Front(evs), out, age);
        if Last(evs).Accounted().Some? {
          TotalsAfterArrival(s, Last(evs).Accounted().value, out, age);
        }
      }
    }
  }

  /** The cumulative totals are never reset. */
  lemma {:induction false} LifetimeTotals(evs: seq<Event>, out: bool)
    ensures Run(evs).totals.Lifetime(out) == GrandTotal(evs, out)
  {
    if evs == [] {
    } else {
      LifetimeTotals(Front(evs), out);
    }
  }

  // ---- When flows disappear ----

  /** No packet of flow `k` is accounted in `tail`. */
  ghost predicate Silent(tail: seq<Event>, k: AddrPair) {
    forall e | e in tail && e.Accounted().Some? :: e.Accounted().value.key != k
  }

  lemma {:induction false} AgeCountsRotations(evs: seq<Event>, tail: seq<Event>, k: AddrPair)
    requires Age(evs, k) == Some(0) && Silent(tail, k)
    ensures Age(evs + tail, k) == Some(Rotations(tail))
  {
    if tail == [] {
      assert evs + tail == evs;
    } else {
      assert Front(evs + tail) == evs + Front(tail);
      assert Last(evs + tail) == Last(tail) && Last(tail) in tail;
      AgeCountsRotations(evs, Front(tail), k);
    }
  }

  /** After the last packet of a flow, its record survives exactly HISTORY_LENGTH - 1 rotations:
      never fewer, never more. */
  lemma ExpiresAtLastRotation(evs: seq<Event>, tail: seq<Event>, k: AddrPair)
    requires Age(evs, k) == Some(0) && Silent(tail, k)
    ensures k in Run(evs + tail).flows <==> Rotations(tail) <= 39
  {
    AgeCountsRotations(evs, tail, k);
    RingRefinesLog(evs + tail, k);
  }

  /** A flow that comes back after a full window of silence, or is seen for the first time, gets a record
      that holds its new packet and nothing else, in whatever state the run has left the ring. */
  lemma ReturnsAfresh(evs: seq<Event>, e: Event, k: AddrPair)
    requires !Recent(evs, k) && e.Accounted().Some? && e.Accounted().value.key == k
    ensures var v := e.Accounted().value;
            var s := Run(evs + [e]);
            && k in s.flows
            && s.flows[k] == ZeroHist().(lastWrite := s.pos).Add(v.sent, s.pos, v.bytes)
            && Logged(evs + [e], k, v.sent, 0) == LifetimeBytes(evs + [e], k, v.sent) == v.bytes
  {
    assert Front(evs + [e]) == evs && Last(evs + [e]) == e;
    RingRefinesLog(evs, k);
    var out := e.Accounted().value.sent;
    SilentSinceLastPacket(evs, k, out, 0);
    LifetimeIsForgotten(evs, k, out);
  }
}
