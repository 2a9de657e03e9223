/** From byte counts to the displayed rates: `history_length`, `make_screen_list` and
    `calculate_totals` of src/ui/ui.c. */
module Display {
  import opened Prelude
  import opened Packets
  import opened Ledger
  import opened Refinement
  import opened Conservation
  import opened Sums
  import opened Analysis
  import opened ScreenOrder
  import opened SortedList
  import opened DisplayOrder

  const RESOLUTION := 1.0

  /** `history_length`: seconds covered by a division, the newest slot counting only `elapsed`. */
  function HistoryLength(len: int, elapsed: real, j: nat): real
    requires j < HISTORY_DIVISIONS
  {
    var full := if len < Div(j) then len else Div(j);
    if full <= 1 then (if elapsed > 0.0 then elapsed else RESOLUTION)
    else (full - 1) as real * RESOLUTION + elapsed
  }

  /** The clamp in `tick` keeps `slot_elapsed` non-negative, so no division ever has length zero and the
      guards `hl > 0` never fail. */
  lemma HistoryLengthPositive(len: int, elapsed: real, j: nat)
    requires j < HISTORY_DIVISIONS && elapsed >= 0.0
    ensures HistoryLength(len, elapsed, j) > 0.0
  {
    var full := if len < Div(j) then len else Div(j);
    if full > 1 {
      assert (full - 1) as real >= 1.0;
    }
  }

  /** Bytes over seconds. */
  function Per(bytes: int, seconds: real): real
    requires seconds > 0.0
  {
    bytes as real / seconds
  }

  lemma PerAdds(a: int, b: int, seconds: real)
    requires seconds > 0.0
    ensures Per(a, seconds) + Per(b, seconds) == Per(a + b, seconds)
  {
  }

  lemma PerInjective(a: int, b: int, seconds: real)
    requires seconds > 0.0
    ensures Per(a, seconds) == Per(b, seconds) <==> a == b
  {
    assert Per(a, seconds) * seconds == a as real;
    assert Per(b, seconds) * seconds == b as real;
  }

  lemma TimesInverse(bytes: int, seconds: real)
    requires seconds > 0.0
    ensures bytes as real * (1.0 / seconds) == Per(bytes, seconds)
  {
  }

  function Rates(v: seq<int>, len: int, elapsed: real): (r: seq<real>)
    requires |v| == HISTORY_DIVISIONS && elapsed >= 0.0
    ensures |r| == HISTORY_DIVISIONS
  {
    seq(HISTORY_DIVISIONS, j requires 0 <= j < HISTORY_DIVISIONS =>
      assert HistoryLength(len, elapsed, j) > 0.0 by { HistoryLengthPositive(len, elapsed, j); }
      Per(v[j], HistoryLength(len, elapsed, j)))
  }

  /** A line once it is scaled; `host` is the name that it may be sorted by. */
  function Scaled(g: AddrPair, l: RawLine, len: int, elapsed: real, host: string): Line
    requires l.Sized() && elapsed >= 0.0
  {
    Row(g, Rates(l.recv, len, elapsed), Rates(l.sent, len, elapsed), l.totalRecv, l.totalSent, host)
  }

  function Rate(l: Line, out: bool, j: nat): real
    requires j < HISTORY_DIVISIONS
  {
    if out then l.sent[j] else l.recv[j]
  }

  /** What the resolver answers for each line at the time of sorting. */
  type Names = AddrPair -> string

  ghost function ScaledLines(lines: Lines, len: int, elapsed: real, names: Names): map<AddrPair, Line>
    requires SizedLines(lines) && elapsed >= 0.0
  {
    map g | g in lines :: Scaled(g, lines[g], len, elapsed, names(g))
  }

  ghost function Restricted(lines: Lines, keys: seq<AddrPair>): Lines {
    map g | g in lines && g in keys :: lines[g]
  }

  lemma ScaledOneMore(lines: Lines, g: AddrPair, l: RawLine, len: int, elapsed: real, names: Names)
    requires SizedLines(lines) && l.Sized() && elapsed >= 0.0
    ensures ScaledLines(lines[g := l], len, elapsed, names) ==
            ScaledLines(lines, len, elapsed, names)[g := Scaled(g, l, len, elapsed, names(g))]
  {
  }

  /** The grand totals, summed into the three windows. */
  function TotalWindows(s: State): (r: RawLine)
    requires s.Sized()
    ensures r.Sized()
  {
    ZERO_LINE.(recv := WithWindows([0, 0, 0], s.totals.recv, s.pos, Div(0), Div(1), Div(2)),
               sent := WithWindows([0, 0, 0], s.totals.sent, s.pos, Div(0), Div(1), Div(2)))
  }

  function TotalsLine(s: State, elapsed: real): Line
    requires s.Sized() && elapsed >= 0.0
  {
    Scaled(ZERO_PAIR, TotalWindows(s), s.len, elapsed, "")
  }

  // ---- The screen list ----

  /** The lines of a list, in its order. */
  ghost function RowsOf(list: seq<AddrPair>, lines: map<AddrPair, Line>): seq<Line>
    requires forall g | g in list :: g in lines
  {
    seq(|list|, i requires 0 <= i < |list| => assert list[i] in list; lines[list[i]])
  }

  function PairsOf(rows: seq<Line>): seq<AddrPair> {
    Mapped((r: Line) => r.pair, rows)
  }

  /** Without repetitions no multiplicity exceeds one. */
  lemma {:induction false} OnceInMultiset<T>(a: seq<T>, x: T)
    requires forall i | 0 <= i < |a| :: a[i] !in a[..i]
    ensures multiset(a)[x] <= 1
  {
    if a == [] {
    } else {
      var front, last := a[..|a| - 1], a[|a| - 1];
      assert forall i | 0 <= i < |front| :: front[..i] == a[..i];
      OnceInMultiset(front, x);
      assert a == front + [last];
      assert last !in front;
    }
  }

  /** A permutation of a sequence without repetitions has none either. */
  lemma OncePermuted<T>(a: seq<T>, b: seq<T>)
    requires multiset(a) == multiset(b) && forall i | 0 <= i < |a| :: a[i] !in a[..i]
    ensures forall i | 0 <= i < |b| :: b[i] !in b[..i]
    ensures forall x :: x in a <==> x in b
  {
    forall i | 0 <= i < |b|
      ensures b[i] !in b[..i]
    {
      OnceInMultiset(a, b[i]);
      assert b == b[..i] + [b[i]] + b[i + 1..];
      assert multiset(b)[b[i]] >= multiset(b[..i])[b[i]] + 1;
    }
    forall x
      ensures x in a <==> x in b
    {
      assert x in a <==> x in multiset(a);
      assert x in b <==> x in multiset(b);
    }
  }

  /** Every line of a permutation is found again under its own key. */
  lemma RowsKeepTheirKeys(lines: map<AddrPair, Line>, order: seq<AddrPair>, sorted: seq<Line>)
    requires (forall g | g in order :: g in lines) && multiset(sorted) == multiset(RowsOf(order, lines))
    requires forall g | g in lines :: lines[g].pair == g
    ensures forall i | 0 <= i < |sorted| :: sorted[i].pair in lines && lines[sorted[i].pair] == sorted[i]
  {
    forall i | 0 <= i < |sorted|
      ensures sorted[i].pair in lines && lines[sorted[i].pair] == sorted[i]
    {
      assert sorted[i] in multiset(sorted);
      assert sorted[i] in RowsOf(order, lines);
      var n :| 0 <= n < |order| && RowsOf(order, lines)[n] == sorted[i];
      assert order[n] in order;
    }
  }

  lemma KeysOfRows(lines: map<AddrPair, Line>, order: seq<AddrPair>)
    requires (forall g | g in order :: g in lines) && forall g | g in lines :: lines[g].pair == g
    ensures PairsOf(RowsOf(order, lines)) == order
  {
    MappedIndices((r: Line) => r.pair, RowsOf(order, lines));
    assert forall i | 0 <= i < |order| :: order[i] in order;
  }

  lemma PairsPermuted(lines: map<AddrPair, Line>, order: seq<AddrPair>, sorted: seq<Line>)
    requires (forall g | g in order :: g in lines) && multiset(sorted) == multiset(RowsOf(order, lines))
    requires forall g | g in lines :: lines[g].pair == g
    ensures multiset(PairsOf(sorted)) == multiset(order)
  {
    MappedPermuted((r: Line) => r.pair, RowsOf(order, lines), sorted);
    KeysOfRows(lines, order);
  }

  lemma SortedRows(lines: map<AddrPair, Line>, order: seq<AddrPair>, sorted: seq<Line>)
    requires (forall g | g in order :: g in lines) && multiset(sorted) == multiset(RowsOf(order, lines))
    requires forall g | g in lines :: lines[g].pair == g
    ensures (forall g | g in PairsOf(sorted) :: g in lines) && RowsOf(PairsOf(sorted), lines) == sorted
  {
    MappedIndices((r: Line) => r.pair, sorted);
    RowsKeepTheirKeys(lines, order, sorted);
  }

  /** Sorting the lines of a table lists each of them once. */
  lemma SortedListing(lines: map<AddrPair, Line>, order: seq<AddrPair>, sorted: seq<Line>)
    requires ListsAll(order, lines.Keys) && multiset(sorted) == multiset(RowsOf(order, lines))
    requires forall g | g in lines :: lines[g].pair == g
    ensures ListsAll(PairsOf(sorted), lines.Keys) && RowsOf(PairsOf(sorted), lines) == sorted
  {
    PairsPermuted(lines, order, sorted);
    OncePermuted(order, PairsOf(sorted));
    SortedRows(lines, order, sorted);
  }

  /** `p` is the largest of `before` and the values in `col`. */
  predicate IsPeak(p: int, before: int, col: seq<int>) {
    && before <= p && (forall i | 0 <= i < |col| :: col[i] <= p)
    && (p == before || p in col)
  }

  lemma PeakOneMore(p: int, before: int, col: seq<int>, i: nat)
    requires i < |col| && IsPeak(p, before, col[..i])
    ensures IsPeak(if col[i] > p then col[i] else p, before, col[..i + 1])
  {
    assert col[..i + 1] == col[..i] + [col[i]];
  }

  function BothColumns(h: Hist): seq<int>
    requires h.Sized()
  {
    seq(HISTORY_LENGTH, i requires 0 <= i < HISTORY_LENGTH => h.recv[i] + h.sent[i])
  }

  /** `peaksent`, `peakrecv` and `peaktotal` */
  datatype Peaks = Peaks(sent: int, recv: int, total: int)

  const NO_PEAKS := Peaks(0, 0, 0)

  /** The peaks after a scan of the grand totals. */
  ghost predicate PeaksOf(p: Peaks, before: Peaks, h: Hist)
    requires h.Sized()
  {
    IsPeak(p.recv, before.recv, h.recv) && IsPeak(p.sent, before.sent, h.sent) && IsPeak(p.total, before.total, BothColumns(h))
  }

  // ---- Imperative form ----

  method ScaleColumn(v: seq<int>, len: int, elapsed: real) returns (r: seq<real>)
    requires |v| == HISTORY_DIVISIONS && elapsed >= 0.0
    ensures r == Rates(v, len, elapsed)
  {
    r := [];
    var i := 0;
    while i < HISTORY_DIVISIONS
      invariant 0 <= i == |r| <= HISTORY_DIVISIONS
      invariant forall j | 0 <= j < i :: r[j] == Rates(v, len, elapsed)[j]
    {
      HistoryLengthPositive(len, elapsed, i);
      var hl := HistoryLength(len, elapsed, i);
      var inv := if hl > 0.0 then 1.0 / hl else 0.0;
      TimesInverse(v[i], hl);
      r := r + [v[i] as real * inv];
      i := i + 1;
    }
  }

  /** Multiplies a line by the inverse lengths, as `make_screen_list` does. */
  method ScaleLine(g: AddrPair, l: RawLine, len: int, elapsed: real, host: string) returns (r: Line)
    requires l.Sized() && elapsed >= 0.0
    ensures r == Scaled(g, l, len, elapsed, host)
  {
    var recv := ScaleColumn(l.recv, len, elapsed);
    var sent := ScaleColumn(l.sent, len, elapsed);
    r := Row(g, recv, sent, l.totalRecv, l.totalSent, host);
  }

  /** The batch insertion at the end of `make_screen_list`, into the list just cleared. */
  method SortLines(rows: seq<Line>, mode: Mode) returns (sorted: seq<Line>)
    ensures SortOf(ModeComparator(mode), rows, sorted)
  {
    ComparatorIsTotalPreorder(mode);
    var list := new List<Line>(ModeComparator(mode));
    list.InsertBatch(rows);
    sorted := list.Items();
  }

  class Screen {
    /** The lines of `screen_hash`, scaled. */
    var lines: map<AddrPair, Line>
    /** The lines on `screen_list`. */
    var list: seq<AddrPair>
    var totals: Line
    var peaks: Peaks

    ghost predicate Valid()
      reads this
    {
      ListsOnce(list, lines.Keys)
    }

    constructor ()
      ensures Valid() && lines == map[] && list == []
    {
      lines, list, totals, peaks := map[], [], ZERO_ROW, NO_PEAKS;
    }

    /** `screen_list_clear` */
    method Clear()
      modifies this`list, this`peaks
      ensures list == [] && peaks == NO_PEAKS
    {
      list, peaks := [], NO_PEAKS;
    }

    /** What the loop of `make_screen_list` does to the lines: every one is scaled. */
    method ScaleLines(raw: Lines, order: seq<AddrPair>, len: int, elapsed: real, names: Names)
      requires SizedLines(raw) && elapsed >= 0.0 && ListsAll(order, raw.Keys)
      modifies this`lines
      ensures lines == ScaledLines(raw, len, elapsed, names)
    {
      lines := map[];
      var i := 0;
      while i < |order|
        invariant 0 <= i <= |order| && lines == ScaledLines(Restricted(raw, order[..i]), len, elapsed, names)
      {
        var g := order[i];
        assert g in order && order[..i + 1] == order[..i] + [g];
        var line := ScaleLine(g, raw[g], len, elapsed, names(g));
        ScaledOneMore(Restricted(raw, order[..i]), g, raw[g], len, elapsed, names);
        lines := lines[g := line];
        assert Restricted(raw, order[..i + 1]) == Restricted(raw, order[..i])[g := raw[g]];
        i := i + 1;
      }
      assert order[..i] == order && Restricted(raw, order) == raw;
    }

    /** What it collects: the lines in the order in which they are met. */
    method CollectLines(order: seq<AddrPair>) returns (rows: seq<Line>)
      requires forall g | g in order :: g in lines
      ensures rows == RowsOf(order, lines)
    {
      rows := [];
      for i := 0 to |order|
        invariant |rows| == i && forall j | 0 <= j < i :: order[j] in lines && rows[j] == lines[order[j]]
      {
        assert order[i] in order;
        rows := rows + [lines[order[i]]];
      }
    }

    /** `make_screen_list`, for the lines met in the order `order`: every line is scaled and, unless the
        order is frozen, listed once, sorted as the mode asks. */
    method MakeScreenList(raw: Lines, order: seq<AddrPair>, len: int, elapsed: real, frozen: bool, mode: Mode, names: Names)
      requires SizedLines(raw) && elapsed >= 0.0 && ListsAll(order, raw.Keys)
      modifies this`lines, this`list
      ensures lines == ScaledLines(raw, len, elapsed, names)
      ensures frozen ==> list == old(list)
      ensures !frozen ==> ListsAll(list, lines.Keys) && Sorted(ModeComparator(mode), RowsOf(list, lines))
    {
      ScaleLines(raw, order, len, elapsed, names);
      if !frozen {
        var rows := CollectLines(order);
        var sorted := SortLines(rows, mode);
        SortedListing(lines, order, sorted);
        list := PairsOf(sorted);
      }
    }

    /** The first loop of `calculate_totals`. */
    method ScanPeaks(h: Hist)
      requires h.Sized()
      modifies this`peaks
      ensures PeaksOf(peaks, old(peaks), h)
    {
      var i := 0;
      while i < HISTORY_LENGTH
        invariant 0 <= i <= HISTORY_LENGTH
        invariant IsPeak(peaks.recv, old(peaks.recv), h.recv[..i]) && IsPeak(peaks.sent, old(peaks.sent), h.sent[..i])
        invariant IsPeak(peaks.total, old(peaks.total), BothColumns(h)[..i])
      {
        var recv, sent := h.recv[i], h.sent[i];
        PeakOneMore(peaks.recv, old(peaks.recv), h.recv, i);
        PeakOneMore(peaks.sent, old(peaks.sent), h.sent, i);
        PeakOneMore(peaks.total, old(peaks.total), BothColumns(h), i);
        if recv > peaks.recv {
          peaks := peaks.(recv := recv);
        }
        if sent > peaks.sent {
          peaks := peaks.(sent := sent);
        }
        if recv + sent > peaks.total {
          peaks := peaks.(total := recv + sent);
        }
        i := i + 1;
      }
      assert h.recv[..i] == h.recv && h.sent[..i] == h.sent && BothColumns(h)[..i] == BothColumns(h);
    }

    /** `calculate_totals` */
    method CalculateTotals(h: Hist, pos: int, len: int, elapsed: real, ghost s: State)
      requires s.Sized() && elapsed >= 0.0 && h == s.totals && pos == s.pos && len == s.len
      modifies this`totals, this`peaks
      ensures totals == TotalsLine(s, elapsed) && PeaksOf(peaks, old(peaks), s.totals)
    {
      ScanPeaks(h);
      var sum := AddWindows(ZERO_LINE, h.recv, h.sent, pos, Div(0), Div(1));
      totals := ScaleLine(ZERO_PAIR, sum, len, elapsed, "");
    }
  }

  // ---- The displayed rates add up ----

  /** Sum of one column of the listed lines. */
  ghost function ListRate(list: seq<AddrPair>, lines: map<AddrPair, Line>, out: bool, j: nat): real
    requires j < HISTORY_DIVISIONS && forall g | g in list :: g in lines
  {
    if list == [] then 0.0
    else ListRate(list[..|list| - 1], lines, out, j) + Rate(lines[list[|list| - 1]], out, j)
  }

  /** The rates of the listed lines, both directions together, add up to the totals displayed. */
  ghost predicate RatesAddUp(list: seq<AddrPair>, lines: map<AddrPair, Line>, totals: Line, j: nat)
    requires j < HISTORY_DIVISIONS && forall g | g in list :: g in lines
  {
    ListRate(list, lines, true, j) + ListRate(list, lines, false, j) == Rate(totals, true, j) + Rate(totals, false, j)
  }

  /** Scaling commutes with summing. */
  lemma {:induction false} ListRateIsScaledSum(list: seq<AddrPair>, raw: Lines, len: int, elapsed: real,
                                               names: Names, out: bool, j: nat)
    requires SizedLines(raw) && elapsed >= 0.0 && j < HISTORY_DIVISIONS && forall g | g in list :: g in raw
    requires HistoryLength(len, elapsed, j) > 0.0
    ensures ListRate(list, ScaledLines(raw, len, elapsed, names), out, j) ==
            Per(SumAlong(LineFigures(raw, Recent(out, j)), list), HistoryLength(len, elapsed, j))
    decreases |list|
  {
    var hl := HistoryLength(len, elapsed, j);
    if list == [] {
      PerAdds(0, 0, hl);
    } else {
      var front, g := list[..|list| - 1], list[|list| - 1];
      assert g in list;
      ListRateIsScaledSum(front, raw, len, elapsed, names, out, j);
      PerAdds(SumAlong(LineFigures(raw, Recent(out, j)), front), Shown(raw[g], Recent(out, j)), hl);
    }
  }

  lemma TotalRateIsScaledWindow(s: State, elapsed: real, j: nat)
    requires s.Sized() && elapsed >= 0.0 && j < HISTORY_DIVISIONS
    requires HistoryLength(s.len, elapsed, j) > 0.0
    ensures Rate(TotalsLine(s, elapsed), true, j) + Rate(TotalsLine(s, elapsed), false, j) ==
            Per(AllTotalBytes(s, Div(j)), HistoryLength(s.len, elapsed, j))
  {
    PerAdds(Window(s.totals.sent, s.pos, Div(j)), Window(s.totals.recv, s.pos, Div(j)), HistoryLength(s.len, elapsed, j));
  }

  lemma LinesHoldFlows(s: State, o: Grouping, blank: Lines, order: seq<AddrPair>, out: bool, j: nat)
    requires s.Sized() && Blank(blank) && VisitsAll(order, s.flows) && j < HISTORY_DIVISIONS
    ensures Sum(LineFigures(GroupAll(blank, o, s.flows, order, s.pos), Recent(out, j))) ==
            Sum(FlowWindows(s.flows, s.pos, out, Div(j)))
  {
    GroupingConserves(blank, o, s.flows, order, s.pos, Recent(out, j));
    assert Visited(s.flows, order, s.pos, Recent(out, j)) == FlowWindows(s.flows, s.pos, out, Div(j));
  }

  /** Both directions of all lines, listed or not, hold what the totals hold. */
  lemma LinesHoldTotals(evs: seq<Event>, o: Grouping, blank: Lines, order: seq<AddrPair>, j: nat)
    requires Blank(blank) && VisitsAll(order, Run(evs).flows) && j < HISTORY_DIVISIONS
    ensures var s := Run(evs);
            var raw := GroupAll(blank, o, s.flows, order, s.pos);
            Sum(LineFigures(raw, Recent(true, j))) + Sum(LineFigures(raw, Recent(false, j))) == AllTotalBytes(s, Div(j))
  {
    var s := Run(evs);
    LinesHoldFlows(s, o, blank, order, true, j);
    LinesHoldFlows(s, o, blank, order, false, j);
    WindowConservation(evs, Div(j));
  }

  /** What the packet log says about a line: for each flow shown on it, its bytes in the last `d` slots. */
  ghost function LoggedFiber(evs: seq<Event>, o: Grouping, out: bool, d: nat, g: AddrPair): map<AddrPair, int> {
    map k | k in Run(evs).flows && Project(o, k) == g :: LoggedWindow(evs, k, out, d)
  }

  lemma FiberMeansLog(evs: seq<Event>, o: Grouping, order: seq<AddrPair>, out: bool, j: nat, g: AddrPair)
    requires VisitsAll(order, Run(evs).flows) && j < HISTORY_DIVISIONS
    ensures Fiber(o, Run(evs).flows, order, Run(evs).pos, Recent(out, j), g) == LoggedFiber(evs, o, out, Div(j), g)
  {
    forall k | k in Run(evs).flows
      ensures Read(Run(evs).flows[k], Run(evs).pos, Recent(out, j)) == LoggedWindow(evs, k, out, Div(j))
    {
      WindowMeansLog(evs, k, out, Div(j));
    }
  }

  /** Each window of each line is the traffic that the packet log holds for the flows shown on it; flows
      without a record have none (`RingRefinesLog`). */
  lemma LineMeansLog(evs: seq<Event>, o: Grouping, blank: Lines, order: seq<AddrPair>, out: bool, j: nat, g: AddrPair)
    requires Blank(blank) && VisitsAll(order, Run(evs).flows) && j < HISTORY_DIVISIONS
    ensures var s := Run(evs);
            && FigureOf(GroupAll(blank, o, s.flows, order, s.pos), g, Recent(out, j)) ==
               Sum(LoggedFiber(evs, o, out, Div(j), g))
            && Sum(LoggedFiber(evs, o, out, Div(j), g)) >= 0
  {
    var s := Run(evs);
    LinesAreSums(blank, o, s.flows, order, s.pos, Recent(out, j), g);
    FiberMeansLog(evs, o, order, out, j, g);
    SumOfNaturals(LoggedFiber(evs, o, out, Div(j), g));
  }

  /** No flow shown on line `g` has a byte in division `j`. */
  ghost predicate FlowsIdle(s: State, o: Grouping, out: bool, j: nat, g: AddrPair)
    requires s.Sized() && j < HISTORY_DIVISIONS
  {
    forall k | k in s.flows && Project(o, k) == g :: Window(s.flows[k].Slots(out), s.pos, Div(j)) == 0
  }

  lemma FiberIdle(s: State, o: Grouping, order: seq<AddrPair>, out: bool, j: nat, g: AddrPair)
    requires s.Sized() && VisitsAll(order, s.flows) && j < HISTORY_DIVISIONS
    ensures var fiber := Fiber(o, s.flows, order, s.pos, Recent(out, j), g);
            FlowsIdle(s, o, out, j, g) <==> forall k | k in fiber :: fiber[k] == 0
  {
    var fiber := Fiber(o, s.flows, order, s.pos, Recent(out, j), g);
    assert forall k | k in fiber :: fiber[k] == Window(s.flows[k].Slots(out), s.pos, Div(j));
    assert forall k | k in s.flows && Project(o, k) == g :: k in fiber;
  }

  /** A figure of a line is zero exactly when its flows are idle. */
  lemma LineIdleExactly(evs: seq<Event>, o: Grouping, blank: Lines, order: seq<AddrPair>, out: bool, j: nat, g: AddrPair)
    requires Blank(blank) && VisitsAll(order, Run(evs).flows) && j < HISTORY_DIVISIONS
    ensures FigureOf(GroupAll(blank, o, Run(evs).flows, order, Run(evs).pos), g, Recent(out, j)) >= 0
    ensures FigureOf(GroupAll(blank, o, Run(evs).flows, order, Run(evs).pos), g, Recent(out, j)) == 0 <==>
            FlowsIdle(Run(evs), o, out, j, g)
  {
    var s := Run(evs);
    var fiber := Fiber(o, s.flows, order, s.pos, Recent(out, j), g);
    LinesAreSums(blank, o, s.flows, order, s.pos, Recent(out, j), g);
    forall k | k in fiber
      ensures fiber[k] >= 0
    {
      WindowMeansLog(evs, k, out, Div(j));
    }
    SumOfNaturals(fiber);
    FiberIdle(s, o, order, out, j, g);
  }

  /** Bytes on the lines that are not listed. */
  ghost function Unlisted(raw: Lines, list: seq<AddrPair>, m: Meter): map<AddrPair, int>
    requires SizedLines(raw) && m.Valid()
  {
    map g | g in LineFigures(raw, m) && g !in list :: LineFigures(raw, m)[g]
  }

  /** The flows whose line is left off the list are idle in division `j`: a question about the flow
      records and the list alone, which can be asked before the display is computed. */
  ghost predicate UnlistedIdle(s: State, o: Grouping, list: seq<AddrPair>, out: bool, j: nat)
    requires s.Sized() && j < HISTORY_DIVISIONS
  {
    forall k | k in s.flows && Project(o, k) !in list :: Window(s.flows[k].Slots(out), s.pos, Div(j)) == 0
  }

  lemma UnlistedIdleExactly(evs: seq<Event>, o: Grouping, blank: Lines, order: seq<AddrPair>, list: seq<AddrPair>,
                            out: bool, j: nat)
    requires Blank(blank) && VisitsAll(order, Run(evs).flows) && j < HISTORY_DIVISIONS
    ensures var rest := Unlisted(GroupAll(blank, o, Run(evs).flows, order, Run(evs).pos), list, Recent(out, j));
            Sum(rest) >= 0 && (Sum(rest) == 0 <==> UnlistedIdle(Run(evs), o, list, out, j))
  {
    var s := Run(evs);
    var raw := GroupAll(blank, o, s.flows, order, s.pos);
    var rest := Unlisted(raw, list, Recent(out, j));
    LinesAreProjections(blank, o, s.flows, order, s.pos);
    forall g | g in rest
      ensures rest[g] >= 0 && (rest[g] == 0 <==> FlowsIdle(s, o, out, j, g))
    {
      LineIdleExactly(evs, o, blank, order, out, j, g);
    }
    SumOfNaturals(rest);
    assert forall k | k in s.flows :: Project(o, k) in raw;
    if forall g | g in rest :: FlowsIdle(s, o, out, j, g) {
      forall k | k in s.flows && Project(o, k) !in list
        ensures Window(s.flows[k].Slots(out), s.pos, Div(j)) == 0
      {
        assert Project(o, k) in rest;
      }
    }
  }

  lemma RatesCompareAsBytes(list: seq<AddrPair>, raw: Lines, s: State, elapsed: real, names: Names, j: nat)
    requires SizedLines(raw) && s.Sized() && elapsed >= 0.0 && j < HISTORY_DIVISIONS && forall g | g in list :: g in raw
    ensures RatesAddUp(list, ScaledLines(raw, s.len, elapsed, names), TotalsLine(s, elapsed), j) <==>
            SumAlong(LineFigures(raw, Recent(true, j)), list) + SumAlong(LineFigures(raw, Recent(false, j)), list) ==
            AllTotalBytes(s, Div(j))
  {
    HistoryLengthPositive(s.len, elapsed, j);
    var hl := HistoryLength(s.len, elapsed, j);
    var sent, recv := SumAlong(LineFigures(raw, Recent(true, j)), list), SumAlong(LineFigures(raw, Recent(false, j)), list);
    ListRateIsScaledSum(list, raw, s.len, elapsed, names, true, j);
    ListRateIsScaledSum(list, raw, s.len, elapsed, names, false, j);
    PerAdds(sent, recv, hl);
    TotalRateIsScaledWindow(s, elapsed, j);
    PerInjective(sent + recv, AllTotalBytes(s, Div(j)), hl);
  }

  /** In every reachable state, for every grouping and division, the rates of the listed lines add up to
      the displayed totals exactly when every flow whose line is not listed is idle in that division. */
  lemma ListedRatesAddUp(evs: seq<Event>, o: Grouping, blank: Lines, order: seq<AddrPair>, list: seq<AddrPair>,
                         elapsed: real, names: Names, j: nat)
    requires Blank(blank) && VisitsAll(order, Run(evs).flows) && j < HISTORY_DIVISIONS && elapsed >= 0.0
    requires ListsOnce(list, GroupAll(blank, o, Run(evs).flows, order, Run(evs).pos).Keys)
    ensures var s := Run(evs);
            var lines := ScaledLines(GroupAll(blank, o, s.flows, order, s.pos), s.len, elapsed, names);
            RatesAddUp(list, lines, TotalsLine(s, elapsed), j) <==>
            UnlistedIdle(s, o, list, true, j) && UnlistedIdle(s, o, list, false, j)
  {
    var s := Run(evs);
    var raw := GroupAll(blank, o, s.flows, order, s.pos);
    RatesCompareAsBytes(list, raw, s, elapsed, names, j);
    LinesHoldTotals(evs, o, blank, order, j);
    SumAlongSplits(LineFigures(raw, Recent(true, j)), list);
    SumAlongSplits(LineFigures(raw, Recent(false, j)), list);
    UnlistedIdleExactly(evs, o, blank, order, list, true, j);
    UnlistedIdleExactly(evs, o, blank, order, list, false, j);
  }

  /** After an unfrozen analysis every line is listed, so the rates always add up. */
  lemma UnfrozenRatesAddUp(evs: seq<Event>, o: Grouping, order: seq<AddrPair>, list: seq<AddrPair>, elapsed: real,
                           names: Names, j: nat)
    requires VisitsAll(order, Run(evs).flows) && j < HISTORY_DIVISIONS && elapsed >= 0.0
    requires ListsAll(list, GroupAll(map[], o, Run(evs).flows, order, Run(evs).pos).Keys)
    ensures var s := Run(evs);
            var lines := ScaledLines(GroupAll(map[], o, s.flows, order, s.pos), s.len, elapsed, names);
            RatesAddUp(list, lines, TotalsLine(s, elapsed), j)
  {
    var s := Run(evs);
    ListedRatesAddUp(evs, o, map[], order, list, elapsed, names, j);
    LinesAreProjections(map[], o, s.flows, order, s.pos);
    assert forall k | k in s.flows :: k in order && Project(o, k) in list;
  }

  lemma {:induction false} WindowHoldsNewest(evs: seq<Event>, k: AddrPair, out: bool, d: nat)
    requires d > 0
    ensures LoggedWindow(evs, k, out, d) >= Logged(evs, k, out, 0)
  {
    if d == 1 {
      assert LoggedWindow(evs, k, out, 0) == 0;
    } else {
      WindowHoldsNewest(evs, k, out, d - 1);
    }
  }

  /** A flow with traffic in the current slot is idle in no division. */
  lemma TrafficIsNotIdle(evs: seq<Event>, o: Grouping, list: seq<AddrPair>, out: bool, j: nat, k: AddrPair)
    requires j < HISTORY_DIVISIONS && k in Run(evs).flows && Project(o, k) !in list && Logged(evs, k, out, 0) > 0
    ensures !UnlistedIdle(Run(evs), o, list, out, j)
  {
    WindowMeansLog(evs, k, out, Div(j));
    WindowHoldsNewest(evs, k, out, Div(j));
  }

  /** The run of one packet, which a machine 1 sends to a machine 2. */
  function OnePacket(): seq<Event> {
    [Arrival(Settings(None, None, None, None, false, false), HwOut, Packet(4, TCP, 1, 2, 10, 20, 100))]
  }

  const ONE_FLOW := AddrPair(Inet, TCP, 10, 1, 20, 2)

  lemma OnePacketRun()
    ensures Run(OnePacket()).flows.Keys == {ONE_FLOW} && Logged(OnePacket(), ONE_FLOW, true, 0) == 100
  {
    var evs := OnePacket();
    assert Front(evs) == [] && Last(evs).Accounted() == Some(Verdict(ONE_FLOW, true, true, 100));
    assert Run(evs) == Account(Initial(), Last(evs).Accounted().value);
    assert Logged(Front(evs), ONE_FLOW, true, 0) == 0;
  }

  /** With the order frozen they can fail to: a flow that started after the order was frozen is counted in
      the totals and shown nowhere. */
  lemma FrozenRatesCanMiss(o: Grouping, elapsed: real, names: Names, j: nat)
    requires elapsed >= 0.0 && j < HISTORY_DIVISIONS
    ensures var s := Run(OnePacket());
            && VisitsAll([ONE_FLOW], s.flows)
            && !RatesAddUp([], ScaledLines(GroupAll(map[], o, s.flows, [ONE_FLOW], s.pos), s.len, elapsed, names),
                           TotalsLine(s, elapsed), j)
  {
    OnePacketRun();
    TrafficIsNotIdle(OnePacket(), o, [], true, j, ONE_FLOW);
    ListedRatesAddUp(OnePacket(), o, map[], [ONE_FLOW], [], elapsed, names, j);
  }

  // ---- One direction at a time ----

  /** One column of the listed lines adds up to the same column of the totals. */
  ghost predicate OneWayAddsUp(list: seq<AddrPair>, lines: map<AddrPair, Line>, totals: Line, out: bool, j: nat)
    requires j < HISTORY_DIVISIONS && forall g | g in list :: g in lines
  {
    ListRate(list, lines, out, j) == Rate(totals, out, j)
  }

  lemma OneWayComparesAsBytes(list: seq<AddrPair>, raw: Lines, s: State, elapsed: real, names: Names, out: bool, j: nat)
    requires SizedLines(raw) && s.Sized() && elapsed >= 0.0 && j < HISTORY_DIVISIONS && forall g | g in list :: g in raw
    ensures OneWayAddsUp(list, ScaledLines(raw, s.len, elapsed, names), TotalsLine(s, elapsed), out, j) <==>
            SumAlong(LineFigures(raw, Recent(out, j)), list) == Window(s.totals.Slots(out), s.pos, Div(j))
  {
    HistoryLengthPositive(s.len, elapsed, j);
    ListRateIsScaledSum(list, raw, s.len, elapsed, names, out, j);
    PerInjective(SumAlong(LineFigures(raw, Recent(out, j)), list), Window(s.totals.Slots(out), s.pos, Div(j)),
                 HistoryLength(s.len, elapsed, j));
  }

  lemma OneWaySplits(evs: seq<Event>, o: Grouping, blank: Lines, order: seq<AddrPair>, list: seq<AddrPair>, out: bool, j: nat)
    requires Blank(blank) && VisitsAll(order, Run(evs).flows) && j < HISTORY_DIVISIONS
    requires ListsOnce(list, GroupAll(blank, o, Run(evs).flows, order, Run(evs).pos).Keys)
    ensures var s := Run(evs);
            var raw := GroupAll(blank, o, s.flows, order, s.pos);
            SumAlong(LineFigures(raw, Recent(out, j)), list) + Sum(Unlisted(raw, list, Recent(out, j)))
              + (if out then 0 else StrayWindow(evs, Div(j))) ==
            Window(s.totals.Slots(out), s.pos, Div(j)) + if out then StrayWindow(evs, Div(j)) else 0
  {
    var s := Run(evs);
    var raw := GroupAll(blank, o, s.flows, order, s.pos);
    SumAlongSplits(LineFigures(raw, Recent(out, j)), list);
    LinesHoldFlows(s, o, blank, order, out, j);
    OneWayConservation(evs, Div(j));
  }

  /** While both net filters are on, sent and received rates of the listed lines each add up to the totals
      of their own direction, exactly when every flow left off the list is idle in that direction. */
  lemma FilteredRatesAddUpOneWay(evs: seq<Event>, o: Grouping, blank: Lines, order: seq<AddrPair>, list: seq<AddrPair>,
                                 elapsed: real, names: Names, out: bool, j: nat)
    requires AlwaysFiltered(evs) && Blank(blank) && VisitsAll(order, Run(evs).flows) && j < HISTORY_DIVISIONS && elapsed >= 0.0
    requires ListsOnce(list, GroupAll(blank, o, Run(evs).flows, order, Run(evs).pos).Keys)
    ensures var s := Run(evs);
            var lines := ScaledLines(GroupAll(blank, o, s.flows, order, s.pos), s.len, elapsed, names);
            OneWayAddsUp(list, lines, TotalsLine(s, elapsed), out, j) <==> UnlistedIdle(s, o, list, out, j)
  {
    var s := Run(evs);
    OneWayComparesAsBytes(list, GroupAll(blank, o, s.flows, order, s.pos), s, elapsed, names, out, j);
    OneWaySplits(evs, o, blank, order, list, out, j);
    FilteredWindowsHaveNoStrays(evs, Div(j));
    UnlistedIdleExactly(evs, o, blank, order, list, out, j);
  }

  /** With every line listed and any filters, they do so exactly when no stray byte is in the window. */
  lemma ListedRatesAddUpOneWay(evs: seq<Event>, o: Grouping, order: seq<AddrPair>, list: seq<AddrPair>,
                               elapsed: real, names: Names, out: bool, j: nat)
    requires VisitsAll(order, Run(evs).flows) && j < HISTORY_DIVISIONS && elapsed >= 0.0
    requires ListsAll(list, GroupAll(map[], o, Run(evs).flows, order, Run(evs).pos).Keys)
    ensures var s := Run(evs);
            var lines := ScaledLines(GroupAll(map[], o, s.flows, order, s.pos), s.len, elapsed, names);
            OneWayAddsUp(list, lines, TotalsLine(s, elapsed), out, j) <==> StrayWindow(evs, Div(j)) == 0
  {
    var s := Run(evs);
    var raw := GroupAll(map[], o, s.flows, order, s.pos);
    OneWayComparesAsBytes(list, raw, s, elapsed, names, out, j);
    OneWaySplits(evs, o, map[], order, list, out, j);
    assert Unlisted(raw, list, Recent(out, j)) == map[];
    SumZero(Unlisted(raw, list, Recent(out, j)));
  }

  // ---- What the screen says about the log ----

  /** How long the newest `d` slots have been open, read off the log: the newest one for `elapsed` seconds,
      each one before it for the second until its rotation, and none before the program started. */
  function Watched(evs: seq<Event>, elapsed: real, d: nat): real {
    if d == 0 then 0.0
    else if evs == [] then elapsed
    else if Last(evs).Rotation? then elapsed + Watched(Front(evs), 1.0, d - 1)
    else Watched(Front(evs), elapsed, d)
  }

  /** The seconds a rate is taken over; a screen painted at the very start assumes one. */
  function Seconds(evs: seq<Event>, elapsed: real, d: nat): (t: real)
    ensures t > 0.0
  {
    if Watched(evs, elapsed, d) > 0.0 then Watched(evs, elapsed, d) else 1.0
  }

  lemma {:induction false} WatchedInSlots(evs: seq<Event>, elapsed: real, d: nat)
    requires d > 0
    ensures Watched(evs, elapsed, d) == elapsed + (if Rotations(evs) < d - 1 then Rotations(evs) else d - 1) as real
  {
    if evs == [] {
    } else if Last(evs).Rotation? {
      if d > 1 {
        WatchedInSlots(Front(evs), 1.0, d - 1);
      }
    } else {
      WatchedInSlots(Front(evs), elapsed, d);
    }
  }

  /** The three divisions: 2, 10 and 40 slots. */
  ghost predicate IsDivision(j: nat, d: nat) {
    (j == 0 && d == 2) || (j == 1 && d == 10) || (j == 2 && d == 40)
  }

  /** `history_length` is the time that the log says. */
  lemma HistoryLengthIsWatched(evs: seq<Event>, elapsed: real, j: nat, d: nat)
    requires elapsed >= 0.0 && IsDivision(j, d)
    ensures Div(j) == d && HistoryLength(Run(evs).len, elapsed, j) == Seconds(evs, elapsed, d)
  {
    WatchedInSlots(evs, elapsed, d);
    ClockCountsRotations(evs);
  }

  /** All bytes of the flows shown on a line, since each last came back. */
  ghost function LifetimeFiber(evs: seq<Event>, o: Grouping, out: bool, g: AddrPair): map<AddrPair, int> {
    map k | k in Run(evs).flows && Project(o, k) == g :: LifetimeBytes(evs, k, out)
  }

  lemma LifetimeOf(evs: seq<Event>, k: AddrPair, out: bool)
    requires k in Run(evs).flows
    ensures Run(evs).flows[k].Lifetime(out) == LifetimeBytes(evs, k, out)
  {
    RingRefinesLog(evs, k);
  }

  lemma LifetimeFiberMeansLog(evs: seq<Event>, o: Grouping, order: seq<AddrPair>, out: bool, g: AddrPair)
    requires VisitsAll(order, Run(evs).flows)
    ensures Fiber(o, Run(evs).flows, order, Run(evs).pos, Lifetime(out), g) == LifetimeFiber(evs, o, out, g)
  {
    forall k | k in Run(evs).flows
      ensures Run(evs).flows[k].Lifetime(out) == LifetimeBytes(evs, k, out)
    {
      LifetimeOf(evs, k, out);
    }
  }

  lemma LifetimeMeansLog(evs: seq<Event>, o: Grouping, blank: Lines, order: seq<AddrPair>, out: bool, g: AddrPair)
    requires Blank(blank) && VisitsAll(order, Run(evs).flows)
    ensures FigureOf(GroupAll(blank, o, Run(evs).flows, order, Run(evs).pos), g, Lifetime(out)) ==
            Sum(LifetimeFiber(evs, o, out, g))
  {
    LinesAreSums(blank, o, Run(evs).flows, order, Run(evs).pos, Lifetime(out), g);
    LifetimeFiberMeansLog(evs, o, order, out, g);
  }

  /** What a line shows in division `j` is what the log holds for its flows: bytes over seconds, sent and
      received each. */
  ghost predicate LineShowsLog(evs: seq<Event>, o: Grouping, elapsed: real, g: AddrPair, line: Line, j: nat, d: nat)
    requires IsDivision(j, d)
  {
    && line.pair == g
    && line.sent[j] == Sum(LoggedFiber(evs, o, true, d, g)) as real / Seconds(evs, elapsed, d)
    && line.recv[j] == Sum(LoggedFiber(evs, o, false, d, g)) as real / Seconds(evs, elapsed, d)
    && line.totalSent == Sum(LifetimeFiber(evs, o, true, g))
    && line.totalRecv == Sum(LifetimeFiber(evs, o, false, g))
  }

  /** The same for the totals. */
  ghost predicate TotalsShowLog(evs: seq<Event>, elapsed: real, totals: Line, j: nat, d: nat)
    requires IsDivision(j, d)
  {
    && totals.sent[j] == LoggedTotalWindow(evs, true, d) as real / Seconds(evs, elapsed, d)
    && totals.recv[j] == LoggedTotalWindow(evs, false, d) as real / Seconds(evs, elapsed, d)
  }

  lemma RateAt(v: seq<int>, len: int, elapsed: real, j: nat, seconds: real)
    requires |v| == HISTORY_DIVISIONS && elapsed >= 0.0 && j < HISTORY_DIVISIONS
    requires HistoryLength(len, elapsed, j) == seconds > 0.0
    ensures Rates(v, len, elapsed)[j] == v[j] as real / seconds
  {
  }

  lemma WindowsAt(col: seq<int>, pos: int, j: nat)
    requires |col| == HISTORY_LENGTH && 0 <= pos < HISTORY_LENGTH && j < HISTORY_DIVISIONS
    ensures WithWindows([0, 0, 0], col, pos, Div(0), Div(1), Div(2))[j] == Window(col, pos, Div(j))
  {
  }

  lemma TotalFiguresMeanLog(evs: seq<Event>, j: nat)
    requires j < HISTORY_DIVISIONS
    ensures TotalWindows(Run(evs)).sent[j] == LoggedTotalWindow(evs, true, Div(j))
    ensures TotalWindows(Run(evs)).recv[j] == LoggedTotalWindow(evs, false, Div(j))
  {
    TotalWindowMeansLog(evs, true, Div(j));
    TotalWindowMeansLog(evs, false, Div(j));
    WindowsAt(Run(evs).totals.sent, Run(evs).pos, j);
    WindowsAt(Run(evs).totals.recv, Run(evs).pos, j);
  }

  lemma FiguresMeanLog(evs: seq<Event>, o: Grouping, blank: Lines, order: seq<AddrPair>, g: AddrPair, j: nat, d: nat)
    requires Blank(blank) && VisitsAll(order, Run(evs).flows) && IsDivision(j, d)
    ensures var raw := GroupAll(blank, o, Run(evs).flows, order, Run(evs).pos);
            g in raw ==>
              && raw[g].sent[j] == Sum(LoggedFiber(evs, o, true, d, g)) && raw[g].recv[j] == Sum(LoggedFiber(evs, o, false, d, g))
              && raw[g].totalSent == Sum(LifetimeFiber(evs, o, true, g))
              && raw[g].totalRecv == Sum(LifetimeFiber(evs, o, false, g))
  {
    LineMeansLog(evs, o, blank, order, true, j, g);
    LineMeansLog(evs, o, blank, order, false, j, g);
    LifetimeMeansLog(evs, o, blank, order, true, g);
    LifetimeMeansLog(evs, o, blank, order, false, g);
  }

  /** Every line on the screen shows what the log holds, in every reachable state and grouping. */
  lemma LinesShowLog(evs: seq<Event>, o: Grouping, blank: Lines, order: seq<AddrPair>, elapsed: real, names: Names,
                     g: AddrPair, j: nat, d: nat)
    requires Blank(blank) && VisitsAll(order, Run(evs).flows) && elapsed >= 0.0 && IsDivision(j, d)
    ensures var s := Run(evs);
            var lines := ScaledLines(GroupAll(blank, o, s.flows, order, s.pos), s.len, elapsed, names);
            g in lines ==> LineShowsLog(evs, o, elapsed, g, lines[g], j, d)
  {
    var raw := GroupAll(blank, o, Run(evs).flows, order, Run(evs).pos);
    if g in raw {
      FiguresMeanLog(evs, o, blank, order, g, j, d);
      HistoryLengthIsWatched(evs, elapsed, j, d);
      RateAt(raw[g].sent, Run(evs).len, elapsed, j, Seconds(evs, elapsed, d));
      RateAt(raw[g].recv, Run(evs).len, elapsed, j, Seconds(evs, elapsed, d));
    }
  }

  /** So do the totals. */
  lemma TotalsDoShowLog(evs: seq<Event>, elapsed: real, j: nat, d: nat)
    requires elapsed >= 0.0 && IsDivision(j, d)
    ensures TotalsShowLog(evs, elapsed, TotalsLine(Run(evs), elapsed), j, d)
  {
    TotalFiguresMeanLog(evs, j);
    HistoryLengthIsWatched(evs, elapsed, j, d);
    var l := TotalWindows(Run(evs));
    RateAt(l.sent, Run(evs).len, elapsed, j, Seconds(evs, elapsed, d));
    RateAt(l.recv, Run(evs).len, elapsed, j, Seconds(evs, elapsed, d));
  }
}
