/** The display order: the comparators of src/ui/ui.c.  `After(m, a, b)` is the comparator's answer 1,
    "a does not belong before b". */
module ScreenOrder {
  import opened CString
  import opened Packets
  import opened Ledger

  datatype SortBy = SortDiv1 | SortDiv2 | SortDiv3 | SortSrc | SortDest

  datatype LineDisplay = TwoLine | OneLineBoth | OneLineRecv | OneLineSent

  datatype Mode = Mode(sort: SortBy, display: LineDisplay)

  /** `host_pair_line` once it is scaled to bytes per second; `host` is `cached_hostname`. */
  datatype Row = Row(pair: AddrPair, recv: seq<real>, sent: seq<real>, totalRecv: int, totalSent: int, host: string)
  {
    predicate Sized() {
      |recv| == HISTORY_DIVISIONS && |sent| == HISTORY_DIVISIONS
    }
  }

  const ZERO_ROW := Row(ZERO_PAIR, [0.0, 0.0, 0.0], [0.0, 0.0, 0.0], 0, 0, "")

  type Line = r: Row | r.Sized() witness ZERO_ROW

  // ---- Lexicographic keys ----

  function FirstColumn(display: LineDisplay, r: Line, start: nat): seq<real>
    requires start < HISTORY_DIVISIONS
  {
    match display
    case OneLineSent => r.sent[start..]
    case OneLineRecv => r.recv[start..]
    case _ => []
  }

  /** Both directions together. */
  function BothWays(r: Line): seq<real> {
    [r.recv[0] + r.sent[0], r.recv[1] + r.sent[1], r.recv[2] + r.sent[2]]
  }

  function BandwidthKey(display: LineDisplay, r: Line, start: nat): seq<real>
    requires start < HISTORY_DIVISIONS
  {
    FirstColumn(display, r, start) + BothWays(r)[start..]
  }

  predicate LexLeq(a: seq<real>, b: seq<real>) {
    if a == [] || b == [] then a == []
    else a[0] < b[0] || (a[0] == b[0] && LexLeq(a[1..], b[1..]))
  }

  lemma {:induction false} FirstDifference(a: seq<real>, b: seq<real>, i: nat)
    requires i < |a| && i < |b| && a[..i] == b[..i] && a[i] != b[i]
    ensures LexLeq(a, b) == (a[i] < b[i])
  {
    if i == 0 {
    } else {
      assert a[0] == a[..i][0] == b[..i][0] == b[0];
      assert a[1..][..i - 1] == a[..i][1..] == b[..i][1..] == b[1..][..i - 1];
      FirstDifference(a[1..], b[1..], i - 1);
    }
  }

  lemma {:induction false} LexReflexive(a: seq<real>)
    ensures LexLeq(a, a)
  {
    if a == [] {
    } else {
      LexReflexive(a[1..]);
    }
  }

  lemma {:induction false} LexConcat(u: seq<real>, x: seq<real>, v: seq<real>, y: seq<real>)
    requires |u| == |v|
    ensures LexLeq(u + x, v + y) == if u == v then LexLeq(x, y) else LexLeq(u, v)
  {
    if u == [] {
      assert u + x == x && v + y == y;
    } else {
      LexConcat(u[1..], x, v[1..], y);
      assert (u + x)[1..] == u[1..] + x && (v + y)[1..] == v[1..] + y;
      assert u == [u[0]] + u[1..] && v == [v[0]] + v[1..];
    }
  }

  lemma {:induction false} LexTotalOrder(a: seq<real>, b: seq<real>, c: seq<real>)
    ensures LexLeq(a, b) || LexLeq(b, a)
    ensures LexLeq(a, b) && LexLeq(b, a) ==> a == b
    ensures LexLeq(a, b) && LexLeq(b, c) ==> LexLeq(a, c)
  {
    if a != [] && b != [] {
      LexTotalOrder(a[1..], b[1..], if c == [] then c else c[1..]);
      assert a == [a[0]] + a[1..] && b == [b[0]] + b[1..];
    }
  }

  // ---- The comparators as written ----

  /** The scan shared by the three loops of the comparator: the first division that differs. */
  method FirstDiffering(a: seq<real>, b: seq<real>, start: nat) returns (i: nat)
    requires |a| == |b| == HISTORY_DIVISIONS && start < HISTORY_DIVISIONS
    ensures start <= i <= HISTORY_DIVISIONS && (i < HISTORY_DIVISIONS ==> a[i] != b[i])
    ensures LexLeq(a[start..], b[start..]) == (i == HISTORY_DIVISIONS || a[i] < b[i])
    ensures a[start..] == b[start..] <==> i == HISTORY_DIVISIONS
  {
    i := start;
    while i < HISTORY_DIVISIONS && a[i] == b[i]
      invariant start <= i <= HISTORY_DIVISIONS && forall j | start <= j < i :: a[j] == b[j]
    {
      i := i + 1;
    }
    if i < HISTORY_DIVISIONS {
      assert a[start..][i - start] == a[i] && b[start..][i - start] == b[i];
      FirstDifference(a[start..], b[start..], i - start);
    } else {
      assert a[start..] == b[start..];
      LexReflexive(a[start..]);
    }
  }

  /** `screen_line_bandwidth_compare` */
  method BandwidthCompare(display: LineDisplay, a: Line, b: Line, start: nat) returns (after: bool)
    requires start < HISTORY_DIVISIONS
    ensures after == LexLeq(BandwidthKey(display, a, start), BandwidthKey(display, b, start))
  {
    LexConcat(FirstColumn(display, a, start), BothWays(a)[start..], FirstColumn(display, b, start), BothWays(b)[start..]);
    var i;
    if display == OneLineSent {
      i := FirstDiffering(a.sent, b.sent, start);
      if i < HISTORY_DIVISIONS {
        return a.sent[i] < b.sent[i];
      }
    } else if display == OneLineRecv {
      i := FirstDiffering(a.recv, b.recv, start);
      if i < HISTORY_DIVISIONS {
        return a.recv[i] < b.recv[i];
      }
    }
    i := FirstDiffering(BothWays(a), BothWays(b), start);
    return i == HISTORY_DIVISIONS || a.recv[i] + a.sent[i] < b.recv[i] + b.sent[i];
  }

  // ---- The order of a mode ----

  /** What a mode sorts by: first the host name, descending here so that it shows ascending, then the
      bandwidth columns. */
  datatype Key = Key(host: string, bandwidth: seq<real>)

  predicate ByHost(m: Mode) {
    m.sort == SortSrc || m.sort == SortDest
  }

  function StartDiv(m: Mode): (d: nat)
    ensures d < HISTORY_DIVISIONS
  {
    match m.sort
    case SortDiv1 => 0
    case SortDiv2 => 1
    case _ => 2
  }

  function KeyOf(m: Mode, r: Line): Key {
    Key(if ByHost(m) then r.host else "", BandwidthKey(m.display, r, StartDiv(m)))
  }

  predicate KeyAfter(a: Key, b: Key) {
    if a.host == b.host then LexLeq(a.bandwidth, b.bandwidth) else Strcmp(a.host, b.host) > 0
  }

  predicate After(m: Mode, a: Line, b: Line) {
    KeyAfter(KeyOf(m, a), KeyOf(m, b))
  }

  /** `screen_line_compare` in every mode. */
  method Compare(m: Mode, a: Line, b: Line) returns (after: bool)
    ensures after == After(m, a, b)
  {
    StrcmpTotalOrder(a.host, b.host, a.host);
    if m.sort == SortDiv1 {
      after := BandwidthCompare(m.display, a, b, 0);
    } else if m.sort == SortDiv2 {
      after := BandwidthCompare(m.display, a, b, 1);
    } else if m.sort == SortDiv3 {
      after := BandwidthCompare(m.display, a, b, 2);
    } else {
      var c := Strcmp(a.host, b.host);
      if c == 0 {
        after := BandwidthCompare(m.display, a, b, 2);
      } else {
        after := c > 0;
      }
    }
  }

  lemma KeyOrder(a: Key, b: Key, c: Key)
    ensures KeyAfter(a, b) || KeyAfter(b, a)
    ensures KeyAfter(a, b) && KeyAfter(b, a) ==> a == b
    ensures KeyAfter(a, b) && KeyAfter(b, c) ==> KeyAfter(a, c)
  {
    LexTotalOrder(a.bandwidth, b.bandwidth, c.bandwidth);
    StrcmpTotalOrder(a.host, b.host, a.host);
    StrcmpTotalOrder(b.host, c.host, b.host);
    StrcmpTotalOrder(c.host, b.host, a.host);
    StrcmpTotalOrder(c.host, a.host, c.host);
  }

  /** In every sort and display mode the comparator is a total preorder: two lines tie exactly when their
      keys are equal. */
  lemma AfterIsTotalPreorder(m: Mode, a: Line, b: Line, c: Line)
    ensures After(m, a, a) && (After(m, a, b) || After(m, b, a))
    ensures After(m, a, b) && After(m, b, c) ==> After(m, a, c)
    ensures After(m, a, b) && After(m, b, a) <==> KeyOf(m, a) == KeyOf(m, b)
  {
    KeyOrder(KeyOf(m, a), KeyOf(m, b), KeyOf(m, c));
    KeyOrder(KeyOf(m, a), KeyOf(m, a), KeyOf(m, a));
  }

  // ---- What the order means on the screen ----

  /** Compared from division `d` on, at the first division where they differ `u` is larger. */
  ghost predicate NoLess(u: seq<real>, l: seq<real>, d: nat)
    requires |u| == |l|
  {
    forall i | d <= i < |u| && (forall k | d <= k < i :: u[k] == l[k]) :: l[i] <= u[i]
  }

  lemma {:induction false} LexMeans(l: seq<real>, u: seq<real>)
    requires |l| == |u|
    ensures LexLeq(l, u) <==> NoLess(u, l, 0)
  {
    if l == [] {
    } else {
      LexMeans(l[1..], u[1..]);
      if NoLess(u, l, 0) && l[0] == u[0] {
        forall i | 0 <= i < |u[1..]| && (forall k | 0 <= k < i :: u[1..][k] == l[1..][k])
          ensures l[1..][i] <= u[1..][i]
        {
          assert forall k | 0 < k < i + 1 :: u[k] == u[1..][k - 1] == l[1..][k - 1] == l[k];
        }
      }
      if LexLeq(l, u) {
        forall i | 0 <= i < |u| && (forall k | 0 <= k < i :: u[k] == l[k])
          ensures l[i] <= u[i]
        {
          if i > 0 {
            assert l[0] == u[0] && NoLess(u[1..], l[1..], 0);
            assert forall k | 0 <= k < i - 1 :: u[1..][k] == l[1..][k];
            assert l[1..][i - 1] <= u[1..][i - 1];
          }
        }
      }
    }
  }

  lemma LexMeansFrom(l: seq<real>, u: seq<real>, d: nat)
    requires |l| == |u| && d <= |l|
    ensures LexLeq(l[d..], u[d..]) <==> NoLess(u, l, d)
  {
    LexMeans(l[d..], u[d..]);
    if NoLess(u, l, d) {
      forall i | 0 <= i < |u[d..]| && (forall k | 0 <= k < i :: u[d..][k] == l[d..][k])
        ensures l[d..][i] <= u[d..][i]
      {
        assert forall k | d <= k < d + i :: u[k] == u[d..][k - d] == l[d..][k - d] == l[k];
      }
    }
    if NoLess(u[d..], l[d..], 0) {
      forall i | d <= i < |u| && (forall k | d <= k < i :: u[k] == l[k])
        ensures l[i] <= u[i]
      {
        assert forall k | 0 <= k < i - d :: u[d..][k] == l[d..][k];
        assert l[d..][i - d] <= u[d..][i - d];
      }
    }
  }

  /** The upper line has no less traffic, in both directions together. */
  ghost predicate NoLessBoth(u: Line, l: Line, d: nat) {
    NoLess([u.recv[0] + u.sent[0], u.recv[1] + u.sent[1], u.recv[2] + u.sent[2]],
           [l.recv[0] + l.sent[0], l.recv[1] + l.sent[1], l.recv[2] + l.sent[2]], d)
  }

  /** The upper line has no less of what the display mode shows; where that ties, no less altogether. */
  ghost predicate Above(display: LineDisplay, u: Line, l: Line, d: nat)
    requires d < HISTORY_DIVISIONS
  {
    && (display == OneLineSent ==> NoLess(u.sent, l.sent, d) && (u.sent[d..] == l.sent[d..] ==> NoLessBoth(u, l, d)))
    && (display == OneLineRecv ==> NoLess(u.recv, l.recv, d) && (u.recv[d..] == l.recv[d..] ==> NoLessBoth(u, l, d)))
    && (display == TwoLine || display == OneLineBoth ==> NoLessBoth(u, l, d))
  }

  lemma BandwidthMeans(display: LineDisplay, u: Line, l: Line, d: nat)
    requires d < HISTORY_DIVISIONS
    ensures LexLeq(BandwidthKey(display, l, d), BandwidthKey(display, u, d)) <==> Above(display, u, l, d)
  {
    LexConcat(FirstColumn(display, l, d), BothWays(l)[d..], FirstColumn(display, u, d), BothWays(u)[d..]);
    LexMeansFrom(BothWays(l), BothWays(u), d);
    LexMeansFrom(l.sent, u.sent, d);
    LexMeansFrom(l.recv, u.recv, d);
    LexReflexive(l.sent[d..]);
    LexReflexive(l.recv[d..]);
  }

  /** Line `u` may stand above line `l`: in the bandwidth modes by the first, second or third division on,
      in the host modes by name in ascending order, and by the third division between equal names. */
  ghost predicate Ranked(m: Mode, u: Line, l: Line) {
    && (m.sort == SortDiv1 ==> Above(m.display, u, l, 0))
    && (m.sort == SortDiv2 ==> Above(m.display, u, l, 1))
    && (m.sort == SortDiv3 ==> Above(m.display, u, l, 2))
    && (m.sort == SortSrc || m.sort == SortDest ==>
          Before(u.host, l.host) || (u.host == l.host && Above(m.display, u, l, 2)))
  }

  /** The comparator says what the screen is meant to show. */
  lemma AfterMeansRanked(m: Mode, u: Line, l: Line)
    ensures After(m, l, u) <==> Ranked(m, u, l)
  {
    BandwidthMeans(m.display, u, l, StartDiv(m));
    StrcmpTotalOrder(u.host, l.host, u.host);
    StrcmpIsDictionaryOrder(u.host, l.host);
  }
}
