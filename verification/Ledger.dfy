/** The flow ledger of src/entry/iftop.c as a state machine over packets and rotations, and the plain
    packet log that it is compared with.

    The ledger keeps HISTORY_LENGTH slots per flow in a ring, zeroes one slot per rotation and
    drops idle flows lazily.  The log semantics below knows nothing of rings, slots or deletion:
    it only counts how many rotations ago each packet was seen. */
module Ledger {
  import opened Prelude
  import opened Packets
  import Ring

  const HISTORY_LENGTH := 40
  const HISTORY_DIVISIONS := 3

  /** `history_type` without the process-attribution fields. */
  datatype Hist = Hist(
    recv: seq<int>, sent: seq<int>, totalRecv: int, totalSent: int, lastWrite: int)
  {
    function Slots(out: bool): (col: seq<int>)
      ensures Sized() ==> |col| == HISTORY_LENGTH
    {
      if out then sent else recv
    }

    function Lifetime(out: bool): int {
      if out then totalSent else totalRecv
    }

    predicate Sized() {
      |recv| == HISTORY_LENGTH && |sent| == HISTORY_LENGTH
    }

    /** `sent[slot] += n; total_sent += n` or the same for `recv` */
    function Add(out: bool, slot: int, n: nat): Hist
      requires Sized() && 0 <= slot < HISTORY_LENGTH
    {
      if out then this.(sent := sent[slot := sent[slot] + n], totalSent := totalSent + n)
      else this.(recv := recv[slot := recv[slot] + n], totalRecv := totalRecv + n)
    }

    function ClearSlot(slot: int): Hist
      requires Sized() && 0 <= slot < HISTORY_LENGTH
    {
      this.(recv := recv[slot := 0], sent := sent[slot := 0])
    }
  }

  function ZeroSlots(): (z: seq<int>)
    ensures |z| == HISTORY_LENGTH && forall i | 0 <= i < |z| :: z[i] == 0
  {
    seq(HISTORY_LENGTH, _ => 0)
  }

  /** A record as `memset` leaves it. */
  function ZeroHist(): Hist {
    Hist(ZeroSlots(), ZeroSlots(), 0, 0, 0)
  }

  predicate SizedFlows(flows: map<AddrPair, Hist>) {
    forall k | k in flows :: flows[k].Sized()
  }

  /** The slot that the clock advances to. */
  function NextSlot(pos: int): (r: int)
    requires 0 <= pos < HISTORY_LENGTH
    ensures 0 <= r < HISTORY_LENGTH
  {
    Ring.Next(HISTORY_LENGTH, pos)
  }

  /** `hist_idx[i]`: the slot written `age` rotations ago. */
  function Slot(pos: int, age: nat): (i: int)
    requires 0 <= pos < HISTORY_LENGTH && age < HISTORY_LENGTH
    ensures 0 <= i < HISTORY_LENGTH
  {
    Ring.Back(HISTORY_LENGTH, pos, age)
  }

  /** The globals `history`, `history_totals`, `history_pos` and `history_len`. */
  datatype State = State(flows: map<AddrPair, Hist>, totals: Hist, pos: int, len: int)
  {
    predicate Sized() {
      && 0 <= pos < HISTORY_LENGTH
      && totals.Sized()
      && SizedFlows(flows)
    }
  }

  function Initial(): State {
    State(map[], ZeroHist(), 0, 1)
  }

  /** The flow record that a packet of flow `k` starts from. */
  function RecordOf(s: State, k: AddrPair): (h: Hist)
    requires s.Sized()
    ensures h.Sized()
  {
    if k in s.flows then s.flows[k] else ZeroHist()
  }

  /** The accounting half of `handle_ip_packet`. */
  function Account(s: State, v: Verdict): (r: State)
    requires s.Sized()
    ensures r.Sized()
  {
    var h := RecordOf(s, v.key).(lastWrite := s.pos).Add(v.sent, s.pos, v.bytes);
    s.(flows := s.flows[v.key := h], totals := s.totals.Add(v.outgoing, s.pos, v.bytes))
  }

  /** `history_rotate` */
  function Rotated(s: State): (r: State)
    requires s.Sized()
    ensures r.Sized()
  {
    var pos := NextSlot(s.pos);
    State(map k | k in s.flows && s.flows[k].lastWrite != pos :: s.flows[k].ClearSlot(pos),
          s.totals.ClearSlot(pos), pos,
          if s.len < HISTORY_LENGTH then s.len + 1 else s.len)
  }

  datatype Event = Arrival(settings: Settings, hw: HwDir, packet: Packet) | Rotation
  {
    function Accounted(): Option<Verdict> {
      if Arrival? then Classify(settings, hw, packet) else None
    }
  }

  function Front(evs: seq<Event>): seq<Event>
    requires evs != []
  {
    evs[..|evs| - 1]
  }

  function Last(evs: seq<Event>): Event
    requires evs != []
  {
    evs[|evs| - 1]
  }

  function Step(s: State, e: Event): (r: State)
    requires s.Sized()
    ensures r.Sized()
  {
    if e.Rotation? then Rotated(s)
    else if e.Accounted().Some? then Account(s, e.Accounted().value)
    else s
  }

  /** The state after a whole run of the program. */
  function Run(evs: seq<Event>): (s: State)
    ensures s.Sized()
  {
    if evs == [] then Initial() else Step(Run(Front(evs)), Last(evs))
  }

  // ---- The log semantics ----

  /** Does `e` add to column `out` of flow `k`? */
  predicate Hits(e: Event, k: AddrPair, out: bool) {
    var v := e.Accounted();
    v.Some? && v.value.key == k && v.value.sent == out
  }

  /** Bytes of flow `k` logged in direction `out` exactly `age` rotations ago. */
  function Logged(evs: seq<Event>, k: AddrPair, out: bool, age: nat): nat {
    if evs == [] then 0
    else if Last(evs).Rotation? then
      if age == 0 then 0 else Logged(Front(evs), k, out, age - 1)
    else
      Logged(Front(evs), k, out, age) +
      if age == 0 && Hits(Last(evs), k, out) then Last(evs).Accounted().value.bytes else 0
  }

  /** Bytes of all flows that count as outgoing (or incoming) exactly `age` rotations ago. */
  function LoggedTotal(evs: seq<Event>, out: bool, age: nat): nat {
    if evs == [] then 0
    else if Last(evs).Rotation? then
      if age == 0 then 0 else LoggedTotal(Front(evs), out, age - 1)
    else
      var v := Last(evs).Accounted();
      LoggedTotal(Front(evs), out, age) +
      if age == 0 && v.Some? && v.value.outgoing == out then v.value.bytes else 0
  }

  /** Rotations since the last packet of flow `k`, if it was ever seen. */
  function Age(evs: seq<Event>, k: AddrPair): Option<nat> {
    if evs == [] then None
    else if Last(evs).Rotation? then
      var a := Age(Front(evs), k);
      if a.Some? then Some(a.value + 1) else None
    else if Last(evs).Accounted().Some? && Last(evs).Accounted().value.key == k then Some(0)
    else Age(Front(evs), k)
  }

  /** Seen within the last HISTORY_LENGTH slots. */
  predicate Recent(evs: seq<Event>, k: AddrPair) {
    Age(evs, k).Some? && Age(evs, k).value < HISTORY_LENGTH
  }

  /** All bytes of flow `k` since it last came back from a full window of silence. */
  function LifetimeBytes(evs: seq<Event>, k: AddrPair, out: bool): nat {
    if evs == [] then 0
    else if Last(evs).Rotation? then
      if Age(Front(evs), k) == Some(HISTORY_LENGTH - 1) then 0 else LifetimeBytes(Front(evs), k, out)
    else
      LifetimeBytes(Front(evs), k, out) +
      if Hits(Last(evs), k, out) then Last(evs).Accounted().value.bytes else 0
  }

  /** All bytes ever counted as outgoing (or incoming). */
  function GrandTotal(evs: seq<Event>, out: bool): nat {
    if evs == [] then 0
    else
      var v := Last(evs).Accounted();
      GrandTotal(Front(evs), out) + if v.Some? && v.value.outgoing == out then v.value.bytes else 0
  }

  function Rotations(evs: seq<Event>): nat {
    if evs == [] then 0 else Rotations(Front(evs)) + if Last(evs).Rotation? then 1 else 0
  }
}
