/** The screen list in every mode: what the comparators of src/ui/ui.c and the list of
    src/data/sorted_list.c give together. */
module DisplayOrder {
  import opened ScreenOrder
  import opened SortedList

  function ModeComparator(m: Mode): Comparator<Line> {
    (a: Line, b: Line) => After(m, a, b)
  }

  lemma ComparatorIsTotalPreorder(m: Mode)
    ensures TotalPreorder(ModeComparator(m))
  {
    var f := ModeComparator(m);
    forall a: Line, b: Line
      ensures f(a, b) || f(b, a)
    {
      AfterIsTotalPreorder(m, a, b, a);
    }
    forall a: Line, b: Line, c: Line | f(a, b) && f(b, c)
      ensures f(a, c)
    {
      AfterIsTotalPreorder(m, a, b, c);
    }
  }

  lemma KeyAfterIsTotalOrder()
    ensures TotalOrder(KeyAfter)
  {
    forall a: Key, b: Key
      ensures KeyAfter(a, b) || KeyAfter(b, a)
      ensures KeyAfter(a, b) && KeyAfter(b, a) ==> a == b
    {
      KeyOrder(a, b, a);
    }
  }

  /** In every mode, inserting the lines one by one into an empty list leaves them sorted, none lost and
      none repeated, with ties in the order of insertion; and whatever sort `qsort` uses for a batch, its
      result can differ only among lines that tie. */
  lemma ScreenListIsSorted(m: Mode, items: seq<Line>, e: Line, sorted: seq<Line>)
    requires SortOf(ModeComparator(m), items, sorted)
    ensures var s := InsertAll(ModeComparator(m), items);
            && SortOf(ModeComparator(m), items, s)
            && Ties(ModeComparator(m), s, e) == Ties(ModeComparator(m), items, e)
            && |sorted| == |s| && forall i | 0 <= i < |s| :: KeyOf(m, sorted[i]) == KeyOf(m, s[i])
  {
    var f := ModeComparator(m);
    ComparatorIsTotalPreorder(m);
    InsertAllSortsStably(f, items, e);
    KeyAfterIsTotalOrder();
    SortsAgreeUpToTies(f, (r: Line) => KeyOf(m, r), KeyAfter, sorted, InsertAll(f, items));
  }

  /** Of any two lines of a sorted list the upper one ranks above the lower one. */
  lemma ListIsRanked(m: Mode, rows: seq<Line>, i: nat, k: nat)
    requires Sorted(ModeComparator(m), rows) && i < k < |rows|
    ensures Ranked(m, rows[i], rows[k])
  {
    assert ModeComparator(m)(rows[k], rows[i]);
    AfterMeansRanked(m, rows[i], rows[k]);
  }
}
