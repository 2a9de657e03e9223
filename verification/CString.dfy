/** `strcmp`. */
module CString {

  /** The sign of `strcmp`. */
  function Strcmp(a: string, b: string): int {
    if a == [] && b == [] then 0
    else if a == [] then -1
    else if b == [] then 1
    else if a[0] < b[0] then -1
    else if a[0] > b[0] then 1
    else Strcmp(a[1..], b[1..])
  }

  lemma {:induction false} StrcmpTotalOrder(a: string, b: string, c: string)
    ensures Strcmp(a, b) == 0 <==> a == b
    ensures Strcmp(a, b) == -Strcmp(b, a)
    ensures Strcmp(a, b) <= 0 && Strcmp(b, c) <= 0 ==> Strcmp(a, c) <= 0
    ensures Strcmp(a, b) < 0 && Strcmp(b, c) <= 0 ==> Strcmp(a, c) < 0
    ensures Strcmp(a, b) <= 0 && Strcmp(b, c) < 0 ==> Strcmp(a, c) < 0
  {
    if a != [] && b != [] {
      StrcmpTotalOrder(a[1..], b[1..], if c == [] then c else c[1..]);
      assert a == [a[0]] + a[1..] && b == [b[0]] + b[1..];
    }
  }

  /** Dictionary order: at the first position where they differ `a` has the smaller character, or ends. */
  ghost predicate Before(a: string, b: string) {
    exists i: nat | i <= |a| && i < |b| :: a[..i] == b[..i] && (i == |a| || a[i] < b[i])
  }

  lemma BeforeTail(a: string, b: string)
    requires a != [] && b != [] && a[0] == b[0]
    ensures Before(a, b) <==> Before(a[1..], b[1..])
  {
    if Before(a, b) {
      var i: nat :| i <= |a| && i < |b| && a[..i] == b[..i] && (i == |a| || a[i] < b[i]);
      assert i > 0 && a[1..][..i - 1] == a[..i][1..] == b[..i][1..] == b[1..][..i - 1];
    }
    if Before(a[1..], b[1..]) {
      var i: nat :| i <= |a[1..]| && i < |b[1..]| && a[1..][..i] == b[1..][..i] && (i == |a[1..]| || a[1..][i] < b[1..][i]);
      assert a[..i + 1] == [a[0]] + a[1..][..i] && b[..i + 1] == [b[0]] + b[1..][..i];
    }
  }

  lemma BeforeHead(a: string, b: string)
    requires a == [] || b == [] || a[0] != b[0]
    ensures Before(a, b) <==> b != [] && (a == [] || a[0] < b[0])
  {
    assert forall i: nat | 0 < i <= |a| && i <= |b| && a[..i] == b[..i] :: a[0] == a[..i][0] == b[..i][0] == b[0];
    if b != [] && (a == [] || a[0] < b[0]) {
      assert a[..0] == b[..0];
    }
  }

  /** `strcmp` is dictionary order. */
  lemma {:induction false} StrcmpIsDictionaryOrder(a: string, b: string)
    ensures Strcmp(a, b) < 0 <==> Before(a, b)
  {
    if a == [] || b == [] || a[0] != b[0] {
      BeforeHead(a, b);
    } else {
      StrcmpIsDictionaryOrder(a[1..], b[1..]);
      BeforeTail(a, b);
    }
  }
}
