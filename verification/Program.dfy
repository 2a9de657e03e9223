/** The whole program between the network and the screen: packets, rotations and analyses in any order,
    on the real structures.  Flows and screen lines come from the same node pool, so an analysis frees
    and reuses nodes between those of the flows. */
module Program {
  import opened Prelude
  import opened Packets
  import opened Ledger
  import opened Conservation
  import opened Analysis
  import opened ScreenOrder
  import opened SortedList
  import opened DisplayOrder
  import opened Display
  import M = Monitor

  /** The options and surroundings of one call of `analyse_data`; `resolve` is what the resolver, or
      `inet_ntop`, answers at the time. */
  datatype View = View(grouping: Grouping, mode: Mode, frozen: bool, paused: bool, elapsed: real,
                       resolve: (Family, Addr) -> string)

  /** The names that `make_screen_list` looks up before it sorts. */
  function Hosts(v: View): Names {
    match v.mode.sort
    case SortSrc => (g: AddrPair) => v.resolve(g.family, g.src)
    case SortDest => (g: AddrPair) => v.resolve(g.family, g.dst)
    case _ => (_: AddrPair) => ""
  }

  /** `tick` clamps the time spent in the current slot. */
  predicate Clamped(v: View) {
    v.elapsed >= 0.0
  }

  datatype Action = Happens(event: Event) | Analyse(view: View)

  /** The packets and rotations of a run. */
  function EventsOf(actions: seq<Action>): seq<Event> {
    if actions == [] then []
    else
      var a := actions[|actions| - 1];
      EventsOf(actions[..|actions| - 1]) + if a.Happens? then [a.event] else []
  }

  lemma EventsExtend(actions: seq<Action>, i: nat)
    requires i < |actions|
    ensures var a := actions[i];
            EventsOf(actions[..i + 1]) == EventsOf(actions[..i]) + if a.Happens? then [a.event] else []
    ensures actions[i].Happens? ==>
              Run(EventsOf(actions[..i + 1])) == Step(Run(EventsOf(actions[..i])), actions[i].event)
    ensures actions[i].Analyse? ==> EventsOf(actions[..i + 1]) == EventsOf(actions[..i])
  {
    assert actions[..i + 1][..i] == actions[..i];
    if actions[i].Happens? {
      var evs := EventsOf(actions[..i]) + [actions[i].event];
      assert Front(evs) == EventsOf(actions[..i]) && Last(evs) == actions[i].event;
    }
  }

  /** Where the lines start from: zeroed ones if the order is frozen, none otherwise. */
  function StartLines(v: View, before: Lines): Lines {
    if v.frozen then Cleared(before) else map[]
  }

  /** Everything `analyse_data` leaves behind, sealed: `raw` are the lines in bytes. */
  ghost predicate Analysed(s: State, v: View, before: Lines, order: seq<AddrPair>, raw: Lines,
                           lines: map<AddrPair, Line>, list: seq<AddrPair>, totals: Line)
    requires s.Sized() && Clamped(v)
  {
    forall g | Opened(v, g) ::
      && VisitsAll(order, s.flows)
      && raw == GroupAll(StartLines(v, before), v.grouping, s.flows, order, s.pos)
      && lines == ScaledLines(raw, s.len, v.elapsed, Hosts(v))
      && totals == TotalsLine(s, v.elapsed)
      && ListsOnce(list, lines.Keys)
      && (!v.frozen ==> ListsAll(list, lines.Keys) && Sorted(ModeComparator(v.mode), RowsOf(list, lines)))
  }

  /** Frozen or not, what is shown adds up exactly when the flows left off the list are idle; and it
      always does when the order is not frozen. */
  lemma AnalysedRates(evs: seq<Event>, v: View, before: Lines, order: seq<AddrPair>, raw: Lines,
                      lines: map<AddrPair, Line>, list: seq<AddrPair>, totals: Line, j: nat)
    requires Clamped(v) && Analysed(Run(evs), v, before, order, raw, lines, list, totals) && j < HISTORY_DIVISIONS
    requires forall g | g in list :: g in lines
    ensures RatesAddUp(list, lines, totals, j) <==>
            UnlistedIdle(Run(evs), v.grouping, list, true, j) && UnlistedIdle(Run(evs), v.grouping, list, false, j)
    ensures !v.frozen ==> RatesAddUp(list, lines, totals, j)
  {
    assert Opened(v, 0);
    ListedRatesAddUp(evs, v.grouping, StartLines(v, before), order, list, v.elapsed, Hosts(v), j);
    if !v.frozen {
      UnfrozenRatesAddUp(evs, v.grouping, order, list, v.elapsed, Hosts(v), j);
    }
  }

  /** A screen tells the truth: it has a line for every flow, each figure is what the packet log holds for
      the flows of its line, and the totals are what it holds for all traffic. */
  ghost predicate Truthful(evs: seq<Event>, v: View, before: Lines, lines: map<AddrPair, Line>, totals: Line) {
    && lines.Keys == (if v.frozen then before.Keys else {}) + (set k | k in Run(evs).flows :: Project(v.grouping, k))
    && (forall g, j: nat, d: nat | g in lines && IsDivision(j, d) ::
          LineShowsLog(evs, v.grouping, v.elapsed, g, lines[g], j, d))
    && (forall j: nat, d: nat | IsDivision(j, d) :: TotalsShowLog(evs, v.elapsed, totals, j, d))
  }

  lemma AnalysedKeys(s: State, v: View, before: Lines, order: seq<AddrPair>)
    requires s.Sized() && VisitsAll(order, s.flows)
    ensures GroupAll(StartLines(v, before), v.grouping, s.flows, order, s.pos).Keys ==
            (if v.frozen then before.Keys else {}) + (set k | k in s.flows :: Project(v.grouping, k))
  {
    LinesAreProjections(StartLines(v, before), v.grouping, s.flows, order, s.pos);
    assert forall k :: k in order <==> k in s.flows;
    assert Projections(v.grouping, order) == set k | k in s.flows :: Project(v.grouping, k);
  }

  lemma AnalysedLinesShowLog(evs: seq<Event>, v: View, before: Lines, order: seq<AddrPair>)
    requires Clamped(v) && VisitsAll(order, Run(evs).flows)
    ensures var lines := ScaledLines(GroupAll(StartLines(v, before), v.grouping, Run(evs).flows, order, Run(evs).pos),
                                     Run(evs).len, v.elapsed, Hosts(v));
            forall g, j: nat, d: nat | g in lines && IsDivision(j, d) ::
              LineShowsLog(evs, v.grouping, v.elapsed, g, lines[g], j, d)
  {
    var blank := StartLines(v, before);
    forall g, j: nat, d: nat |
      g in GroupAll(blank, v.grouping, Run(evs).flows, order, Run(evs).pos) && IsDivision(j, d)
      ensures LineShowsLog(evs, v.grouping, v.elapsed, g,
                ScaledLines(GroupAll(blank, v.grouping, Run(evs).flows, order, Run(evs).pos),
                            Run(evs).len, v.elapsed, Hosts(v))[g], j, d)
    {
      LinesShowLog(evs, v.grouping, blank, order, v.elapsed, Hosts(v), g, j, d);
    }
  }

  lemma AnalysedTotalsShowLog(evs: seq<Event>, v: View)
    requires Clamped(v)
    ensures forall j: nat, d: nat | IsDivision(j, d) ::
              TotalsShowLog(evs, v.elapsed, TotalsLine(Run(evs), v.elapsed), j, d)
  {
    forall j: nat, d: nat | IsDivision(j, d)
      ensures TotalsShowLog(evs, v.elapsed, TotalsLine(Run(evs), v.elapsed), j, d)
    {
      TotalsDoShowLog(evs, v.elapsed, j, d);
    }
  }

  lemma AnalysedIsTruthful(evs: seq<Event>, v: View, before: Lines, order: seq<AddrPair>, raw: Lines,
                           lines: map<AddrPair, Line>, list: seq<AddrPair>, totals: Line)
    requires Clamped(v) && Analysed(Run(evs), v, before, order, raw, lines, list, totals)
    ensures Truthful(evs, v, before, lines, totals)
  {
    assert Opened(v, 0);
    AnalysedKeys(Run(evs), v, before, order);
    AnalysedLinesShowLog(evs, v, before, order);
    AnalysedTotalsShowLog(evs, v);
  }

  /** While both net filters are on, the same holds for each direction on its own. */
  lemma AnalysedOneWay(evs: seq<Event>, v: View, before: Lines, order: seq<AddrPair>, raw: Lines,
                       lines: map<AddrPair, Line>, list: seq<AddrPair>, totals: Line, out: bool, j: nat)
    requires Clamped(v) && Analysed(Run(evs), v, before, order, raw, lines, list, totals) && j < HISTORY_DIVISIONS
    requires AlwaysFiltered(evs) && forall g | g in list :: g in lines
    ensures OneWayAddsUp(list, lines, totals, out, j) <==> UnlistedIdle(Run(evs), v.grouping, list, out, j)
  {
    assert Opened(v, 0);
    FilteredRatesAddUpOneWay(evs, v.grouping, StartLines(v, before), order, list, v.elapsed, Hosts(v), out, j);
  }

  /** A list is in order: of any two lines the upper one ranks above the lower one, under the names that the
      mode sorts by. */
  ghost predicate InOrder(v: View, lines: map<AddrPair, Line>, list: seq<AddrPair>)
    requires forall g | g in list :: g in lines
  {
    && (forall i, k | 0 <= i < k < |list| :: Ranked(v.mode, lines[list[i]], lines[list[k]]))
    && (forall g | g in lines && v.mode.sort == SortSrc :: lines[g].host == v.resolve(g.family, g.src))
    && (forall g | g in lines && v.mode.sort == SortDest :: lines[g].host == v.resolve(g.family, g.dst))
  }

  lemma AnalysedIsInOrder(s: State, v: View, before: Lines, order: seq<AddrPair>, raw: Lines,
                          lines: map<AddrPair, Line>, list: seq<AddrPair>, totals: Line)
    requires s.Sized() && Clamped(v) && Analysed(s, v, before, order, raw, lines, list, totals) && !v.frozen
    ensures ListsAll(list, lines.Keys) && InOrder(v, lines, list)
  {
    assert Opened(v, 0);
    forall i, k | 0 <= i < k < |list|
      ensures list[i] in lines && list[k] in lines && Ranked(v.mode, lines[list[i]], lines[list[k]])
    {
      assert list[i] in list && list[k] in list;
      ListIsRanked(v.mode, RowsOf(list, lines), i, k);
    }
  }

  /** Lines are only ever added to a frozen screen, so its list stays good. */
  lemma FrozenListStays(s: State, v: View, before: Lines, order: seq<AddrPair>, list: seq<AddrPair>)
    requires s.Sized() && VisitsAll(order, s.flows) && v.frozen && ListsOnce(list, before.Keys)
    ensures ListsOnce(list, GroupAll(StartLines(v, before), v.grouping, s.flows, order, s.pos).Keys)
  {
    LinesAreProjections(Cleared(before), v.grouping, s.flows, order, s.pos);
  }

  class Program {
    const monitor: M.Monitor
    const screen: Screen

    /** The screen shows the lines of the line table, and lists each at most once. */
    ghost predicate Valid()
      reads monitor, monitor.heap, monitor.pool, screen
    {
      monitor.Valid() && screen.Valid() && screen.lines.Keys == monitor.lines.Keys
    }

    constructor (size: nat, hash: AddrPair -> nat)
      requires forall k :: hash(k) < size
      ensures Valid() && monitor.Abs() == Initial()
      ensures fresh(monitor) && fresh(monitor.heap) && fresh(monitor.pool) && fresh(screen)
    {
      monitor := new M.Monitor(size, hash);
      screen := new Screen();
    }

    /** The first half of `analyse_data`: the lines in bytes. */
    method Regroup(v: View) returns (ghost order: seq<AddrPair>)
      requires monitor.Valid()
      modifies monitor`lineOf, monitor`lines, monitor`shown, monitor`lineMem, monitor.heap
      ensures monitor.Valid() && VisitsAll(order, monitor.flows)
      ensures monitor.lines == GroupAll(StartLines(v, old(monitor.lines)), v.grouping, monitor.flows, order, monitor.pos)
    {
      if v.frozen {
        monitor.ClearLines();
      } else {
        monitor.DeleteLines();
      }
      order := monitor.GroupFlows(v.grouping);
    }

    /** The second half: rates, list and totals. */
    method Show(v: View)
      requires Clamped(v) && monitor.Valid()
      modifies screen
      ensures screen.lines == ScaledLines(monitor.lines, monitor.len, v.elapsed, Hosts(v))
      ensures screen.totals == TotalsLine(monitor.Abs(), v.elapsed)
      ensures PeaksOf(screen.peaks, if v.frozen then old(screen.peaks) else NO_PEAKS, monitor.totals)
      ensures v.frozen ==> screen.list == old(screen.list)
      ensures !v.frozen ==>
                && ListsAll(screen.list, screen.lines.Keys)
                && Sorted(ModeComparator(v.mode), RowsOf(screen.list, screen.lines))
    {
      if !v.frozen {
        screen.Clear();
      }
      var raw, order := monitor.ReadLines();
      screen.MakeScreenList(raw, order, monitor.len, v.elapsed, v.frozen, v.mode, Hosts(v));
      screen.CalculateTotals(monitor.totals, monitor.pos, monitor.len, v.elapsed, monitor.Abs());
    }

    /** `analyse_data`: flows and totals stay as they are, and the screen shows what they hold. */
    method AnalyseData(v: View) returns (ghost order: seq<AddrPair>)
      requires Valid() && Clamped(v)
      modifies monitor`lineOf, monitor`lines, monitor`shown, monitor`lineMem, monitor.heap, screen
      ensures Valid() && monitor.Abs() == old(monitor.Abs())
      ensures v.paused ==> screen.lines == old(screen.lines) && screen.list == old(screen.list) &&
                           screen.totals == old(screen.totals) && screen.peaks == old(screen.peaks)
      ensures !v.paused ==>
                && Analysed(monitor.Abs(), v, old(monitor.lines), order, monitor.lines, screen.lines, screen.list, screen.totals)
                && (v.frozen ==> screen.list == old(screen.list))
                && PeaksOf(screen.peaks, if v.frozen then old(screen.peaks) else NO_PEAKS, monitor.totals)
    {
      order := [];
      if v.paused {
        return;
      }
      order := Regroup(v);
      if v.frozen {
        FrozenListStays(monitor.Abs(), v, old(monitor.lines), order, screen.list);
      }
      Show(v);
    }

    /** One step of a run. */
    method Act(a: Action)
      requires Valid() && (a.Analyse? ==> Clamped(a.view))
      modifies monitor, monitor.heap, monitor.pool, screen
      ensures Valid()
      ensures monitor.Abs() == if a.Happens? then Step(old(monitor.Abs()), a.event) else old(monitor.Abs())
    {
      match a {
        case Happens(e) => monitor.Handle(e);
        case Analyse(v) => ghost var _ := AnalyseData(v);
      }
    }

    /** Any run of packets, rotations and analyses: the flow table holds the state of the ledger after the
        packets and rotations alone, and the screen stays valid. */
    method Replay(actions: seq<Action>)
      requires Valid() && monitor.Abs() == Initial()
      requires forall a | a in actions && a.Analyse? :: Clamped(a.view)
      modifies monitor, monitor.heap, monitor.pool, screen
      ensures Valid() && monitor.Abs() == Run(EventsOf(actions))
    {
      var i := 0;
      while i < |actions|
        invariant 0 <= i <= |actions| && Valid() && monitor.Abs() == Run(EventsOf(actions[..i]))
      {
        EventsExtend(actions, i);
        assert actions[i] in actions;
        Act(actions[i]);
        i := i + 1;
      }
      assert actions[..i] == actions;
    }

    /** Whatever has happened and been shown before, after one more analysis the screen tells the truth, its
        list is in order unless frozen, and the rates on it add up to the totals on it exactly when the
        flows left off the list are idle.  `before` are the lines there were before the analysis. */
    method Watch(actions: seq<Action>, v: View) returns (ghost before: Lines)
      requires Valid() && monitor.Abs() == Initial() && Clamped(v)
      requires forall a | a in actions && a.Analyse? :: Clamped(a.view)
      modifies monitor, monitor.heap, monitor.pool, screen
      ensures Valid() && monitor.Abs() == Run(EventsOf(actions))
      ensures !v.paused ==> forall j: nat | j < HISTORY_DIVISIONS ::
                RatesAddUp(screen.list, screen.lines, screen.totals, j) <==>
                && UnlistedIdle(Run(EventsOf(actions)), v.grouping, screen.list, true, j)
                && UnlistedIdle(Run(EventsOf(actions)), v.grouping, screen.list, false, j)
      ensures !v.paused && !v.frozen ==> forall j: nat | j < HISTORY_DIVISIONS ::
                RatesAddUp(screen.list, screen.lines, screen.totals, j)
      ensures !v.paused ==> Truthful(EventsOf(actions), v, before, screen.lines, screen.totals)
      ensures !v.paused && !v.frozen ==>
                ListsAll(screen.list, screen.lines.Keys) && InOrder(v, screen.lines, screen.list)
    {
      Replay(actions);
      before := monitor.lines;
      ghost var order := AnalyseData(v);
      if !v.paused {
        AnalysedIsTruthful(EventsOf(actions), v, before, order, monitor.lines, screen.lines, screen.list, screen.totals);
        if !v.frozen {
          AnalysedIsInOrder(monitor.Abs(), v, before, order, monitor.lines, screen.lines, screen.list, screen.totals);
        }
        forall j: nat | j < HISTORY_DIVISIONS
          ensures RatesAddUp(screen.list, screen.lines, screen.totals, j) <==>
                  && UnlistedIdle(Run(EventsOf(actions)), v.grouping, screen.list, true, j)
                  && UnlistedIdle(Run(EventsOf(actions)), v.grouping, screen.list, false, j)
          ensures !v.frozen ==> RatesAddUp(screen.list, screen.lines, screen.totals, j)
        {
          AnalysedRates(EventsOf(actions), v, before, order, monitor.lines, screen.lines, screen.list, screen.totals, j);
        }
      }
    }
  }
}
