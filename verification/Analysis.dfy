/** The display pipeline of src/ui/ui.c: `analyse_data` projects every flow to a screen line, sums
    its slots into the 2, 10 and 40 slot windows, and scales lines and totals to rates.

    A line is accumulated in whole bytes and then divided by the length of its window; sums are
    exact, so `long double` is modelled by integers before the division and by reals after it. */
module Analysis {
  import opened Prelude
  import opened Packets
  import opened Ledger
  import opened Refinement
  import opened Conservation
  import opened Sums
  import Ring

  /** `history_divs` */
  function Div(j: nat): (d: nat)
    requires j < HISTORY_DIVISIONS
    ensures 0 < d <= HISTORY_LENGTH
  {
    if j == 0 then 2 else if j == 1 then 10 else HISTORY_LENGTH
  }

  /** `host_pair_line` before scaling. */
  datatype RawLine = RawLine(recv: seq<int>, sent: seq<int>, totalRecv: int, totalSent: int)
  {
    predicate Sized() {
      |recv| == HISTORY_DIVISIONS && |sent| == HISTORY_DIVISIONS
    }
  }

  const ZERO_LINE := RawLine([0, 0, 0], [0, 0, 0], 0, 0)

  datatype Ports = PortsOff | PortsSrc | PortsDest | PortsOn

  datatype Grouping = Grouping(hideSrc: bool, hideDest: bool, ports: Ports)

  /** The key under which a flow is shown. */
  function Project(o: Grouping, k: AddrPair): AddrPair {
    var k := if o.hideSrc then k.(src := 0) else k;
    var k := if o.hideDest then k.(dst := 0) else k;
    var k := if o.ports == PortsDest || o.ports == PortsOff then k.(srcPort := 0) else k;
    var k := if o.ports == PortsSrc || o.ports == PortsOff then k.(dstPort := 0) else k;
    if o.ports == PortsOff then k.(protocol := 0) else k
  }

  /** What a line's key says: hidden parts are zero, the others those of the flow. */
  lemma ProjectFields(o: Grouping, k: AddrPair)
    ensures var g := Project(o, k);
            && g.family == k.family
            && g.src == (if o.hideSrc then 0 else k.src)
            && g.dst == (if o.hideDest then 0 else k.dst)
            && g.srcPort == (if o.ports == PortsOn || o.ports == PortsSrc then k.srcPort else 0)
            && g.dstPort == (if o.ports == PortsOn || o.ports == PortsDest then k.dstPort else 0)
            && g.protocol == (if o.ports == PortsOff then 0 else k.protocol)
  {
  }

  /** Two flows are shown on the same line exactly when they agree on everything that is not hidden. */
  lemma SameLineExactly(o: Grouping, a: AddrPair, b: AddrPair)
    ensures Project(o, a) == Project(o, b) <==>
            && a.family == b.family
            && (!o.hideSrc ==> a.src == b.src)
            && (!o.hideDest ==> a.dst == b.dst)
            && (o.ports == PortsOn || o.ports == PortsSrc ==> a.srcPort == b.srcPort)
            && (o.ports == PortsOn || o.ports == PortsDest ==> a.dstPort == b.dstPort)
            && (o.ports != PortsOff ==> a.protocol == b.protocol)
  {
  }

  // ---- Windows ----

  /** Bytes in the newest `d` slots of a ring of any size. */
  function Window(col: seq<int>, pos: int, d: nat): int
    requires 0 <= pos < |col| && d <= |col|
  {
    if d == 0 then 0 else Window(col, pos, d - 1) + col[Ring.Back(|col|, pos, d - 1)]
  }

  /** One figure of a line: a window in one direction, or a lifetime total. */
  datatype Meter = Recent(out: bool, div: nat) | Lifetime(out: bool)
  {
    predicate Valid() {
      Recent? ==> div < HISTORY_DIVISIONS
    }
  }

  /** What a flow contributes to a figure. */
  function Read(h: Hist, pos: int, m: Meter): int
    requires h.Sized() && 0 <= pos < HISTORY_LENGTH && m.Valid()
  {
    match m
    case Recent(out, j) => Window(h.Slots(out), pos, Div(j))
    case Lifetime(out) => h.Lifetime(out)
  }

  function Shown(l: RawLine, m: Meter): int
    requires l.Sized() && m.Valid()
  {
    match m
    case Recent(out, j) => if out then l.sent[j] else l.recv[j]
    case Lifetime(out) => if out then l.totalSent else l.totalRecv
  }

  function Plus(v: seq<int>, a: int, b: int, c: int): (r: seq<int>)
    requires |v| == HISTORY_DIVISIONS
    ensures |r| == HISTORY_DIVISIONS
  {
    [v[0] + a, v[1] + b, v[2] + c]
  }

  /** One column with the newest slots of a ring added to its three divisions. */
  function WithWindows(v: seq<int>, col: seq<int>, pos: int, a: nat, b: nat, c: nat): (r: seq<int>)
    requires |v| == HISTORY_DIVISIONS && 0 <= pos < |col| && a <= |col| && b <= |col| && c <= |col|
    ensures |r| == HISTORY_DIVISIONS
  {
    Plus(v, Window(col, pos, a), Window(col, pos, b), Window(col, pos, c))
  }

  lemma PlusTwice(v: seq<int>, a: int, b: int, c: int, a': int, b': int, c': int)
    requires |v| == HISTORY_DIVISIONS
    ensures Plus(Plus(v, a, b, c), a', b', c') == Plus(v, a + a', b + b', c + c')
  {
  }

  /** Slot `i` counts towards the divisions longer than `i`. */
  lemma WindowsGrow(v: seq<int>, col: seq<int>, pos: int, a: nat, b: nat, i: nat)
    requires |v| == HISTORY_DIVISIONS && 0 <= pos < |col| && i < |col| && a <= i && b <= i
    ensures var n := col[Ring.Back(|col|, pos, i)];
            && Plus(WithWindows(v, col, pos, i, i, i), n, n, n) == WithWindows(v, col, pos, i + 1, i + 1, i + 1)
            && Plus(WithWindows(v, col, pos, a, i, i), 0, n, n) == WithWindows(v, col, pos, a, i + 1, i + 1)
            && Plus(WithWindows(v, col, pos, a, b, i), 0, 0, n) == WithWindows(v, col, pos, a, b, i + 1)
  {
    var n := col[Ring.Back(|col|, pos, i)];
    var wa, wb, wi := Window(col, pos, a), Window(col, pos, b), Window(col, pos, i);
    assert Window(col, pos, i + 1) == wi + n;
    PlusTwice(v, wi, wi, wi, n, n, n);
    PlusTwice(v, wa, wi, wi, 0, n, n);
    PlusTwice(v, wa, wb, wi, 0, 0, n);
  }

  /** The three accumulation loops that `analyse_data` runs per flow and `calculate_totals` runs on the
      grand totals, for a ring of any size and any two inner divisions of it. */
  method AddWindows(l: RawLine, recv: seq<int>, sent: seq<int>, pos: int, d0: nat, d1: nat) returns (r: RawLine)
    requires l.Sized() && |recv| == |sent| && 0 <= pos < |recv| && d0 <= d1 <= |recv|
    ensures r == l.(recv := WithWindows(l.recv, recv, pos, d0, d1, |recv|),
                    sent := WithWindows(l.sent, sent, pos, d0, d1, |recv|))
  {
    var rs, ss, i := l.recv, l.sent, 0;
    while i < d0
      invariant 0 <= i <= d0
      invariant rs == WithWindows(l.recv, recv, pos, i, i, i) && ss == WithWindows(l.sent, sent, pos, i, i, i)
    {
      WindowsGrow(l.recv, recv, pos, i, i, i);
      WindowsGrow(l.sent, sent, pos, i, i, i);
      var r, s := recv[Ring.Back(|recv|, pos, i)], sent[Ring.Back(|sent|, pos, i)];
      rs, ss, i := Plus(rs, r, r, r), Plus(ss, s, s, s), i + 1;
    }
    while i < d1
      invariant d0 <= i <= d1
      invariant rs == WithWindows(l.recv, recv, pos, d0, i, i) && ss == WithWindows(l.sent, sent, pos, d0, i, i)
    {
      WindowsGrow(l.recv, recv, pos, d0, i, i);
      WindowsGrow(l.sent, sent, pos, d0, i, i);
      var r, s := recv[Ring.Back(|recv|, pos, i)], sent[Ring.Back(|sent|, pos, i)];
      rs, ss, i := Plus(rs, 0, r, r), Plus(ss, 0, s, s), i + 1;
    }
    while i < |recv|
      invariant d1 <= i <= |recv|
      invariant rs == WithWindows(l.recv, recv, pos, d0, d1, i) && ss == WithWindows(l.sent, sent, pos, d0, d1, i)
    {
      WindowsGrow(l.recv, recv, pos, d0, d1, i);
      WindowsGrow(l.sent, sent, pos, d0, d1, i);
      var r, s := recv[Ring.Back(|recv|, pos, i)], sent[Ring.Back(|sent|, pos, i)];
      rs, ss, i := Plus(rs, 0, 0, r), Plus(ss, 0, 0, s), i + 1;
    }
    r := l.(recv := rs, sent := ss);
  }

  /** A line plus one flow. */
  function Accumulated(l: RawLine, h: Hist, pos: int): (r: RawLine)
    requires l.Sized() && h.Sized() && 0 <= pos < HISTORY_LENGTH
    ensures r.Sized()
    ensures forall m: Meter | m.Valid() :: Shown(r, m) == Shown(l, m) + Read(h, pos, m)
  {
    RawLine(
      WithWindows(l.recv, h.recv, pos, Div(0), Div(1), Div(2)),
      WithWindows(l.sent, h.sent, pos, Div(0), Div(1), Div(2)),
      l.totalRecv + h.totalRecv, l.totalSent + h.totalSent)
  }

  /** What one turn of the main loop of `analyse_data` adds to a line. */
  method Accumulate(l: RawLine, h: Hist, pos: int) returns (r: RawLine)
    requires l.Sized() && h.Sized() && 0 <= pos < HISTORY_LENGTH
    ensures r == Accumulated(l, h, pos)
  {
    r := AddWindows(l, h.recv, h.sent, pos, Div(0), Div(1));
    r := r.(totalRecv := r.totalRecv + h.totalRecv, totalSent := r.totalSent + h.totalSent);
  }

  // ---- Regrouping ----

  type Lines = map<AddrPair, RawLine>

  ghost predicate SizedLines(lines: Lines) {
    forall g | g in lines :: lines[g].Sized()
  }

  /** One turn of the main loop of `analyse_data`: find or create the line, then add the flow. */
  function Grouped(lines: Lines, o: Grouping, k: AddrPair, h: Hist, pos: int): (r: Lines)
    requires SizedLines(lines) && h.Sized() && 0 <= pos < HISTORY_LENGTH
    ensures SizedLines(r)
  {
    var g := Project(o, k);
    lines[g := Accumulated(if g in lines then lines[g] else ZERO_LINE, h, pos)]
  }

  /** The flows `order`, visited in that order. */
  function GroupAll(lines: Lines, o: Grouping, flows: map<AddrPair, Hist>, order: seq<AddrPair>, pos: int): (r: Lines)
    requires SizedLines(lines) && SizedFlows(flows) && 0 <= pos < HISTORY_LENGTH
    requires forall k | k in order :: k in flows
    ensures SizedLines(r)
  {
    if order == [] then lines
    else
      var k := order[|order| - 1];
      Grouped(GroupAll(lines, o, flows, order[..|order| - 1], pos), o, k, flows[k], pos)
  }

  /** `list` holds some of the keys, each at most once. */
  ghost predicate ListsOnce(list: seq<AddrPair>, keys: set<AddrPair>) {
    && (forall k | k in list :: k in keys)
    && (forall i | 0 <= i < |list| :: list[i] !in list[..i])
  }

  /** `list` holds every key exactly once. */
  ghost predicate ListsAll(list: seq<AddrPair>, keys: set<AddrPair>) {
    ListsOnce(list, keys) && forall k | k in keys :: k in list
  }

  /** `order` visits some of the flows, each at most once. */
  ghost predicate VisitsOnce(order: seq<AddrPair>, flows: map<AddrPair, Hist>) {
    ListsOnce(order, flows.Keys)
  }

  /** `order` visits every flow exactly once, as `hash_next_item` does. */
  ghost predicate VisitsAll(order: seq<AddrPair>, flows: map<AddrPair, Hist>) {
    ListsAll(order, flows.Keys)
  }

  lemma GroupOneMore(lines: Lines, o: Grouping, flows: map<AddrPair, Hist>, order: seq<AddrPair>, i: nat, pos: int)
    requires SizedLines(lines) && SizedFlows(flows) && 0 <= pos < HISTORY_LENGTH && VisitsOnce(order, flows) && i < |order|
    ensures order[i] in flows && forall k | k in order[..i] || k in order[..i + 1] :: k in flows
    ensures GroupAll(lines, o, flows, order[..i + 1], pos) ==
            Grouped(GroupAll(lines, o, flows, order[..i], pos), o, order[i], flows[order[i]], pos)
  {
    assert order[i] in order && order[..i + 1][..i] == order[..i];
  }

  /** Half way through the main loop of `analyse_data`, sealed: `lines` show the first `i` flows. */
  ghost predicate HalfGrouped(lines: Lines, blank: Lines, o: Grouping, flows: map<AddrPair, Hist>,
                              order: seq<AddrPair>, i: nat, pos: int) {
    forall g | Opened(order, g) ::
      && SizedLines(blank) && SizedFlows(flows) && 0 <= pos < HISTORY_LENGTH && VisitsAll(order, flows) && i <= |order|
      && (forall k | k in order[..i] :: k in flows)
      && lines == GroupAll(blank, o, flows, order[..i], pos)
  }

  lemma HalfGroupedStart(blank: Lines, o: Grouping, flows: map<AddrPair, Hist>, order: seq<AddrPair>, pos: int)
    requires SizedLines(blank) && SizedFlows(flows) && 0 <= pos < HISTORY_LENGTH && VisitsAll(order, flows)
    ensures HalfGrouped(blank, blank, o, flows, order, 0, pos)
  {
  }

  lemma HalfGroupedStep(lines: Lines, blank: Lines, o: Grouping, flows: map<AddrPair, Hist>, order: seq<AddrPair>,
                        i: nat, pos: int)
    requires SizedLines(lines) && SizedFlows(flows) && 0 <= pos < HISTORY_LENGTH
    requires HalfGrouped(lines, blank, o, flows, order, i, pos) && i < |order| && order[i] in flows
    ensures HalfGrouped(Grouped(lines, o, order[i], flows[order[i]], pos), blank, o, flows, order, i + 1, pos)
  {
    assert Opened(order, 0);
    GroupOneMore(blank, o, flows, order, i, pos);
  }

  lemma HalfGroupedEnd(lines: Lines, blank: Lines, o: Grouping, flows: map<AddrPair, Hist>, order: seq<AddrPair>,
                       i: nat, pos: int)
    requires HalfGrouped(lines, blank, o, flows, order, i, pos) && i <= |order| && order[..i] == order
    requires SizedLines(blank) && SizedFlows(flows) && 0 <= pos < HISTORY_LENGTH
    ensures VisitsAll(order, flows) && lines == GroupAll(blank, o, flows, order, pos)
  {
    assert Opened(order, 0);
  }

  /** Lines that start out empty: none, or the zeroed ones of `screen_hash_clear`. */
  ghost predicate Blank(lines: Lines) {
    forall g | g in lines :: lines[g] == ZERO_LINE
  }

  /** The flows of `done` that are shown on line `g`, with what each contributes. */
  ghost function Fiber(o: Grouping, flows: map<AddrPair, Hist>, done: seq<AddrPair>, pos: int, m: Meter, g: AddrPair)
    : map<AddrPair, int>
    requires SizedFlows(flows) && 0 <= pos < HISTORY_LENGTH && m.Valid()
  {
    map k | k in flows && k in done && Project(o, k) == g :: Read(flows[k], pos, m)
  }

  function FigureOf(lines: Lines, g: AddrPair, m: Meter): int
    requires g in lines ==> lines[g].Sized()
    requires m.Valid()
  {
    if g in lines then Shown(lines[g], m) else 0
  }

  lemma FiberStep(o: Grouping, flows: map<AddrPair, Hist>, done: seq<AddrPair>, k: AddrPair, pos: int, m: Meter, g: AddrPair)
    requires SizedFlows(flows) && 0 <= pos < HISTORY_LENGTH && m.Valid() && k in flows && k !in done
    ensures Sum(Fiber(o, flows, done + [k], pos, m, g)) ==
            Sum(Fiber(o, flows, done, pos, m, g)) + if Project(o, k) == g then Read(flows[k], pos, m) else 0
  {
    var before := Fiber(o, flows, done, pos, m, g);
    if Project(o, k) == g {
      assert Fiber(o, flows, done + [k], pos, m, g) == before[k := Read(flows[k], pos, m)];
      SumUpdate(before, k, Read(flows[k], pos, m));
    } else {
      assert Fiber(o, flows, done + [k], pos, m, g) == before;
    }
  }

  lemma SplitLast(order: seq<AddrPair>, flows: map<AddrPair, Hist>) returns (front: seq<AddrPair>, k: AddrPair)
    requires order != [] && VisitsOnce(order, flows)
    ensures front == order[..|order| - 1] && k == order[|order| - 1] && order == front + [k]
    ensures k in flows && k !in front && VisitsOnce(front, flows)
  {
    front, k := order[..|order| - 1], order[|order| - 1];
    assert k in order;
    forall i | 0 <= i < |front|
      ensures front[i] !in front[..i]
    {
      assert front[..i] == order[..i];
    }
  }

  lemma FigureStep(lines: Lines, o: Grouping, k: AddrPair, h: Hist, pos: int, m: Meter, g: AddrPair)
    requires SizedLines(lines) && h.Sized() && 0 <= pos < HISTORY_LENGTH && m.Valid()
    ensures FigureOf(Grouped(lines, o, k, h, pos), g, m) ==
            FigureOf(lines, g, m) + if Project(o, k) == g then Read(h, pos, m) else 0
  {
    assert Shown(ZERO_LINE, m) == 0;
  }

  /** Every figure of every line is the sum over the flows that project to it, whatever order they are
      visited in and whatever blank lines were there before. */
  lemma {:induction false} LinesAreSums(blank: Lines, o: Grouping, flows: map<AddrPair, Hist>, order: seq<AddrPair>,
                                        pos: int, m: Meter, g: AddrPair)
    requires Blank(blank) && SizedFlows(flows) && 0 <= pos < HISTORY_LENGTH && m.Valid()
    requires VisitsOnce(order, flows)
    ensures FigureOf(GroupAll(blank, o, flows, order, pos), g, m) == Sum(Fiber(o, flows, order, pos, m, g))
    decreases |order|
  {
    if order == [] {
      assert Fiber(o, flows, order, pos, m, g) == map[];
      assert Shown(ZERO_LINE, m) == 0;
    } else {
      var front, k := SplitLast(order, flows);
      LinesAreSums(blank, o, flows, front, pos, m, g);
      FigureStep(GroupAll(blank, o, flows, front, pos), o, k, flows[k], pos, m, g);
      FiberStep(o, flows, front, k, pos, m, g);
    }
  }

  /** The lines on which some flows are shown. */
  ghost function Projections(o: Grouping, keys: seq<AddrPair>): set<AddrPair> {
    set k | k in keys :: Project(o, k)
  }

  lemma ProjectOneMore(o: Grouping, keys: seq<AddrPair>, k: AddrPair)
    ensures Projections(o, keys + [k]) == Projections(o, keys) + {Project(o, k)}
  {
    assert forall x :: x in keys + [k] <==> x in keys || x == k;
  }

  /** The lines are those that were there and those of the flows visited. */
  lemma {:induction false} LinesAreProjections(blank: Lines, o: Grouping, flows: map<AddrPair, Hist>,
                                               order: seq<AddrPair>, pos: int)
    requires Blank(blank) && SizedFlows(flows) && 0 <= pos < HISTORY_LENGTH && VisitsOnce(order, flows)
    ensures GroupAll(blank, o, flows, order, pos).Keys == blank.Keys + Projections(o, order)
    decreases |order|
  {
    if order == [] {
    } else {
      var front, k := SplitLast(order, flows);
      LinesAreProjections(blank, o, flows, front, pos);
      ProjectOneMore(o, front, k);
    }
  }

  function LineFigures(lines: Lines, m: Meter): map<AddrPair, int>
    requires forall g | g in lines :: lines[g].Sized()
    requires m.Valid()
  {
    map g | g in lines :: Shown(lines[g], m)
  }

  lemma LineFiguresStep(lines: Lines, o: Grouping, k: AddrPair, h: Hist, pos: int, m: Meter)
    requires SizedLines(lines) && h.Sized() && 0 <= pos < HISTORY_LENGTH && m.Valid()
    ensures Sum(LineFigures(Grouped(lines, o, k, h, pos), m)) == Sum(LineFigures(lines, m)) + Read(h, pos, m)
  {
    var g := Project(o, k);
    var after := Grouped(lines, o, k, h, pos);
    assert LineFigures(after, m) == LineFigures(lines, m)[g := Shown(after[g], m)];
    SumUpdate(LineFigures(lines, m), g, Shown(after[g], m));
  }

  /** What the flows visited so far contribute. */
  ghost function Visited(flows: map<AddrPair, Hist>, done: seq<AddrPair>, pos: int, m: Meter): map<AddrPair, int>
    requires SizedFlows(flows) && 0 <= pos < HISTORY_LENGTH && m.Valid()
  {
    map k | k in flows && k in done :: Read(flows[k], pos, m)
  }

  lemma VisitedStep(flows: map<AddrPair, Hist>, done: seq<AddrPair>, k: AddrPair, pos: int, m: Meter)
    requires SizedFlows(flows) && 0 <= pos < HISTORY_LENGTH && m.Valid() && k in flows && k !in done
    ensures Sum(Visited(flows, done + [k], pos, m)) == Sum(Visited(flows, done, pos, m)) + Read(flows[k], pos, m)
  {
    var before := Visited(flows, done, pos, m);
    assert Visited(flows, done + [k], pos, m) == before[k := Read(flows[k], pos, m)];
    SumUpdate(before, k, Read(flows[k], pos, m));
  }

  /** Grouping neither loses nor invents a byte: lines and flows add up to the same. */
  lemma {:induction false} GroupingConserves(blank: Lines, o: Grouping, flows: map<AddrPair, Hist>,
                                             order: seq<AddrPair>, pos: int, m: Meter)
    requires Blank(blank) && SizedFlows(flows) && 0 <= pos < HISTORY_LENGTH && m.Valid()
    requires VisitsOnce(order, flows)
    ensures Sum(LineFigures(GroupAll(blank, o, flows, order, pos), m)) == Sum(Visited(flows, order, pos, m))
    decreases |order|
  {
    if order == [] {
      assert Shown(ZERO_LINE, m) == 0;
      SumZero(LineFigures(blank, m));
      SumZero(Visited(flows, order, pos, m));
    } else {
      var front, k := SplitLast(order, flows);
      GroupingConserves(blank, o, flows, front, pos, m);
      LineFiguresStep(GroupAll(blank, o, flows, front, pos), o, k, flows[k], pos, m);
      VisitedStep(flows, front, k, pos, m);
    }
  }

  // ---- Analysis is a function of the flows ----

  /** `screen_hash_clear` */
  function Cleared(lines: Lines): Lines {
    map g | g in lines :: ZERO_LINE
  }

  lemma FibersAgree(o: Grouping, flows: map<AddrPair, Hist>, a: seq<AddrPair>, b: seq<AddrPair>, pos: int, m: Meter,
                    g: AddrPair)
    requires SizedFlows(flows) && 0 <= pos < HISTORY_LENGTH && m.Valid()
    requires VisitsAll(a, flows) && VisitsAll(b, flows)
    ensures Fiber(o, flows, a, pos, m, g) == Fiber(o, flows, b, pos, m, g)
  {
  }

  /** The frozen path (zero the old lines, then re-accumulate) and the unfrozen one (start from nothing)
      give every line the same figures, in whatever order the flows are visited; running either again
      changes nothing. */
  lemma FrozenAgreesWithRebuilt(before: Lines, o: Grouping, flows: map<AddrPair, Hist>, a: seq<AddrPair>, b: seq<AddrPair>,
                                pos: int, m: Meter, g: AddrPair)
    requires SizedFlows(flows) && 0 <= pos < HISTORY_LENGTH && m.Valid()
    requires VisitsAll(a, flows) && VisitsAll(b, flows)
    ensures FigureOf(GroupAll(Cleared(before), o, flows, a, pos), g, m) == FigureOf(GroupAll(map[], o, flows, b, pos), g, m)
  {
    LinesAreSums(Cleared(before), o, flows, a, pos, m, g);
    LinesAreSums(map[], o, flows, b, pos, m, g);
    FibersAgree(o, flows, a, b, pos, m, g);
  }

  // ---- Coarser groupings ----

  /** `fine` keeps everything that `coarse` keeps. */
  predicate Refines(fine: Grouping, coarse: Grouping) {
    && (fine.hideSrc ==> coarse.hideSrc)
    && (fine.hideDest ==> coarse.hideDest)
    && (fine.ports == coarse.ports || fine.ports == PortsOn || coarse.ports == PortsOff)
  }

  lemma ProjectTwice(fine: Grouping, coarse: Grouping, k: AddrPair)
    requires Refines(fine, coarse)
    ensures Project(coarse, Project(fine, k)) == Project(coarse, k)
  {
  }

  /** Projecting in two steps is projecting at once for all keys exactly when the first step is no
      coarser than the second. */
  lemma ProjectionsCompose(fine: Grouping, coarse: Grouping)
    ensures Refines(fine, coarse) <==> forall k :: Project(coarse, Project(fine, k)) == Project(coarse, k)
  {
    if !Refines(fine, coarse) {
      var k := AddrPair(Inet, 1, 1, 1, 1, 1);
      assert Project(coarse, Project(fine, k)) != Project(coarse, k);
    }
  }

  /** The figures of the lines that fall together on line `g` of a coarser grouping. */
  ghost function Merged(coarse: Grouping, lines: Lines, m: Meter, g: AddrPair): map<AddrPair, int>
    requires SizedLines(lines) && m.Valid()
  {
    map f | f in lines && Project(coarse, f) == g :: Shown(lines[f], m)
  }

  lemma MergedUpdate(coarse: Grouping, lines: Lines, f: AddrPair, line: RawLine, m: Meter, g: AddrPair)
    requires SizedLines(lines) && line.Sized() && m.Valid()
    ensures Sum(Merged(coarse, lines[f := line], m, g)) ==
            Sum(Merged(coarse, lines, m, g)) + if Project(coarse, f) == g then Shown(line, m) - FigureOf(lines, f, m) else 0
  {
    var before, after := Merged(coarse, lines, m, g), Merged(coarse, lines[f := line], m, g);
    if Project(coarse, f) == g {
      SumUpdate(before, f, Shown(line, m));
      assert after == before[f := Shown(line, m)];
    } else {
      assert after == before;
    }
  }

  lemma MergedStep(fine: Grouping, coarse: Grouping, lines: Lines, k: AddrPair, h: Hist, pos: int, m: Meter, g: AddrPair)
    requires SizedLines(lines) && h.Sized() && 0 <= pos < HISTORY_LENGTH && m.Valid() && Refines(fine, coarse)
    ensures Sum(Merged(coarse, Grouped(lines, fine, k, h, pos), m, g)) ==
            Sum(Merged(coarse, lines, m, g)) + if Project(coarse, k) == g then Read(h, pos, m) else 0
  {
    var f := Project(fine, k);
    ProjectTwice(fine, coarse, k);
    FigureStep(lines, fine, k, h, pos, m, f);
    MergedUpdate(coarse, lines, f, Grouped(lines, fine, k, h, pos)[f], m, g);
  }

  /** A coarser display equals regrouping the lines of a finer one. */
  lemma {:induction false} CoarserIsRegrouped(fine: Grouping, coarse: Grouping, flows: map<AddrPair, Hist>,
                                              order: seq<AddrPair>, pos: int, m: Meter, g: AddrPair)
    requires Refines(fine, coarse) && SizedFlows(flows) && 0 <= pos < HISTORY_LENGTH && m.Valid()
    requires VisitsOnce(order, flows)
    ensures FigureOf(GroupAll(map[], coarse, flows, order, pos), g, m) ==
            Sum(Merged(coarse, GroupAll(map[], fine, flows, order, pos), m, g))
    decreases |order|
  {
    if order == [] {
      SumZero(Merged(coarse, map[], m, g));
    } else {
      var front, k := SplitLast(order, flows);
      CoarserIsRegrouped(fine, coarse, flows, front, pos, m, g);
      FigureStep(GroupAll(map[], coarse, flows, front, pos), coarse, k, flows[k], pos, m, g);
      MergedStep(fine, coarse, GroupAll(map[], fine, flows, front, pos), k, flows[k], pos, m, g);
    }
  }

  // ---- What a line means in terms of packets ----

  /** Bytes of flow `k` logged during the last `d` slots. */
  function LoggedWindow(evs: seq<Event>, k: AddrPair, out: bool, d: nat): nat {
    if d == 0 then 0 else LoggedWindow(evs, k, out, d - 1) + Logged(evs, k, out, d - 1)
  }

  /** Bytes of all traffic that counts as outgoing (or incoming) during the last `d` slots. */
  function LoggedTotalWindow(evs: seq<Event>, out: bool, d: nat): nat {
    if d == 0 then 0 else LoggedTotalWindow(evs, out, d - 1) + LoggedTotal(evs, out, d - 1)
  }

  lemma {:induction false} WindowMeansLog(evs: seq<Event>, k: AddrPair, out: bool, d: nat)
    requires d <= HISTORY_LENGTH && k in Run(evs).flows
    ensures Window(Run(evs).flows[k].Slots(out), Run(evs).pos, d) == LoggedWindow(evs, k, out, d)
  {
    if d == 0 {
    } else {
      WindowMeansLog(evs, k, out, d - 1);
      RingRefinesLog(evs, k);
      assert ColumnMatches(Run(evs).flows[k].Slots(out), Run(evs).pos, evs, k, out);
    }
  }

  lemma {:induction false} TotalWindowMeansLog(evs: seq<Event>, out: bool, d: nat)
    requires d <= HISTORY_LENGTH
    ensures Window(Run(evs).totals.Slots(out), Run(evs).pos, d) == LoggedTotalWindow(evs, out, d)
  {
    if d == 0 {
    } else {
      TotalWindowMeansLog(evs, out, d - 1);
      TotalsRefineLog(evs, out, d - 1);
    }
  }

  /** A window over every flow. */
  function FlowWindows(flows: map<AddrPair, Hist>, pos: int, out: bool, d: nat): map<AddrPair, int>
    requires SizedFlows(flows) && 0 <= pos < HISTORY_LENGTH && d <= HISTORY_LENGTH
  {
    map k | k in flows :: Window(flows[k].Slots(out), pos, d)
  }

  lemma FlowWindowsStep(flows: map<AddrPair, Hist>, pos: int, out: bool, d: nat)
    requires SizedFlows(flows) && 0 <= pos < HISTORY_LENGTH && 0 < d <= HISTORY_LENGTH
    ensures Sum(FlowWindows(flows, pos, out, d)) ==
            Sum(FlowWindows(flows, pos, out, d - 1)) + Sum(FlowSlots(flows, out, Slot(pos, d - 1)))
  {
    SumPlus(FlowWindows(flows, pos, out, d - 1), FlowSlots(flows, out, Slot(pos, d - 1)), FlowWindows(flows, pos, out, d));
  }

  /** Both columns of all flows, and of the totals, in the newest `d` slots. */
  ghost function AllFlowBytes(s: State, d: nat): int
    requires s.Sized() && d <= HISTORY_LENGTH
  {
    Sum(FlowWindows(s.flows, s.pos, true, d)) + Sum(FlowWindows(s.flows, s.pos, false, d))
  }

  function AllTotalBytes(s: State, d: nat): int
    requires s.Sized() && d <= HISTORY_LENGTH
  {
    Window(s.totals.sent, s.pos, d) + Window(s.totals.recv, s.pos, d)
  }

  lemma AllFlowBytesStep(s: State, d: nat)
    requires s.Sized() && 0 < d <= HISTORY_LENGTH
    ensures var slot := Slot(s.pos, d - 1);
            AllFlowBytes(s, d) ==
            AllFlowBytes(s, d - 1) + Sum(FlowSlots(s.flows, true, slot)) + Sum(FlowSlots(s.flows, false, slot))
  {
    FlowWindowsStep(s.flows, s.pos, true, d);
    FlowWindowsStep(s.flows, s.pos, false, d);
  }

  lemma AllFlowBytesNone(s: State)
    requires s.Sized()
    ensures AllFlowBytes(s, 0) == AllTotalBytes(s, 0) == 0
  {
    SumZero(FlowWindows(s.flows, s.pos, true, 0));
    SumZero(FlowWindows(s.flows, s.pos, false, 0));
  }

  /** The flows hold in one slot what the totals hold in it. */
  ghost predicate SlotBalances(s: State, age: nat)
    requires s.Sized() && age < HISTORY_LENGTH
  {
    var slot := Slot(s.pos, age);
    Sum(FlowSlots(s.flows, true, slot)) + Sum(FlowSlots(s.flows, false, slot)) ==
    s.totals.sent[slot] + s.totals.recv[slot]
  }

  lemma {:induction false} WindowBalances(s: State, d: nat)
    requires s.Sized() && d <= HISTORY_LENGTH && forall age: nat | age < d :: SlotBalances(s, age)
    ensures AllFlowBytes(s, d) == AllTotalBytes(s, d)
  {
    if d == 0 {
      AllFlowBytesNone(s);
    } else {
      WindowBalances(s, d - 1);
      AllFlowBytesStep(s, d);
      assert SlotBalances(s, d - 1);
    }
  }

  /** In every reachable state and for windows of any length, the flows together hold exactly the bytes
      of the grand totals. */
  lemma WindowConservation(evs: seq<Event>, d: nat)
    requires d <= HISTORY_LENGTH
    ensures AllFlowBytes(Run(evs), d) == AllTotalBytes(Run(evs), d)
  {
    forall age: nat | age < d
      ensures SlotBalances(Run(evs), age)
    {
      SlotConservation(evs, age);
    }
    WindowBalances(Run(evs), d);
  }

  // ---- One direction at a time ----

  /** Stray bytes of the last `d` slots. */
  function StrayWindow(evs: seq<Event>, d: nat): nat {
    if d == 0 then 0 else StrayWindow(evs, d - 1) + Stray(evs, d - 1)
  }

  /** In one slot, flows and totals differ by `stray` bytes, sent by the flows and received by the totals. */
  ghost predicate SlotStrays(s: State, age: nat, stray: int)
    requires s.Sized() && age < HISTORY_LENGTH
  {
    var slot := Slot(s.pos, age);
    && Sum(FlowSlots(s.flows, true, slot)) == s.totals.sent[slot] + stray
    && Sum(FlowSlots(s.flows, false, slot)) + stray == s.totals.recv[slot]
  }

  lemma {:induction false} WindowStrays(s: State, evs: seq<Event>, d: nat)
    requires s.Sized() && d <= HISTORY_LENGTH && forall age: nat | age < d :: SlotStrays(s, age, Stray(evs, age))
    ensures Sum(FlowWindows(s.flows, s.pos, true, d)) == Window(s.totals.sent, s.pos, d) + StrayWindow(evs, d)
    ensures Sum(FlowWindows(s.flows, s.pos, false, d)) + StrayWindow(evs, d) == Window(s.totals.recv, s.pos, d)
  {
    if d == 0 {
      SumZero(FlowWindows(s.flows, s.pos, true, 0));
      SumZero(FlowWindows(s.flows, s.pos, false, 0));
    } else {
      WindowStrays(s, evs, d - 1);
      FlowWindowsStep(s.flows, s.pos, true, d);
      FlowWindowsStep(s.flows, s.pos, false, d);
      assert SlotStrays(s, d - 1, Stray(evs, d - 1));
    }
  }

  /** In every reachable state and for windows of any length, flows and totals agree in each direction up
      to exactly the stray bytes. */
  lemma OneWayConservation(evs: seq<Event>, d: nat)
    requires d <= HISTORY_LENGTH
    ensures var s := Run(evs);
            && Sum(FlowWindows(s.flows, s.pos, true, d)) == Window(s.totals.sent, s.pos, d) + StrayWindow(evs, d)
            && Sum(FlowWindows(s.flows, s.pos, false, d)) + StrayWindow(evs, d) == Window(s.totals.recv, s.pos, d)
  {
    forall age: nat | age < d
      ensures SlotStrays(Run(evs), age, Stray(evs, age))
    {
      SlotConservation(evs, age);
    }
    WindowStrays(Run(evs), evs, d);
  }

  lemma {:induction false} FilteredWindowsHaveNoStrays(evs: seq<Event>, d: nat)
    requires AlwaysFiltered(evs)
    ensures StrayWindow(evs, d) == 0
  {
    if d == 0 {
    } else {
      FilteredWindowsHaveNoStrays(evs, d - 1);
      FilteredRunsHaveNoStrays(evs, d - 1);
    }
  }
}
