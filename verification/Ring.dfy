/** Cyclic indices, for rings of any size `n`: the slots of the flow history and the resolver queue. */
module Ring {

  /** Quotient and remainder are unique. */
  lemma SameRemainder(n: int, q: int, r: int)
    requires 0 <= r < n
    ensures (q * n + r) % n == r
  {
    var x := q * n + r;
    var d := x / n - q;
    assert x == n * (x / n) + x % n;
    assert n * d == r - x % n;
    assert d >= 1 ==> n * d >= n;
    assert d <= -1 ==> n * d <= -n;
  }

  /** `x % n` for the two ranges in which the program uses it. */
  lemma ModOnce(n: int, x: int)
    requires 0 < n
    ensures 0 <= x < n ==> x % n == x
    ensures n <= x < 2 * n ==> x % n == x - n
  {
    if 0 <= x < n {
      SameRemainder(n, 0, x);
    } else if n <= x < 2 * n {
      SameRemainder(n, 1, x - n);
    }
  }

  /** The index after `i`. */
  function Next(n: int, i: int): (r: int)
    requires 0 <= i < n
    ensures r == if i + 1 < n then i + 1 else 0
  {
    ModOnce(n, i + 1);
    (i + 1) % n
  }

  /** The index `age` steps before `pos`. */
  function Back(n: int, pos: int, age: nat): (i: int)
    requires 0 <= pos < n && age < n
    ensures i == if age <= pos then pos - age else pos - age + n
  {
    ModOnce(n, n + pos - age);
    (n + pos - age) % n
  }

  /** How far `head` is ahead of `tail`. */
  function Ahead(n: int, tail: int, head: int): (k: nat)
    requires 0 <= tail < n && 0 <= head < n
    ensures k == if tail <= head then head - tail else head - tail + n
  {
    ModOnce(n, head - tail + n);
    (head - tail + n) % n
  }

  /** Advancing moves every index but the recycled one back by one age. */
  lemma BackShifts(n: int, pos: int, age: nat)
    requires 0 <= pos < n && 0 < age < n
    ensures Back(n, Next(n, pos), age) == Back(n, pos, age - 1) != Next(n, pos)
  {
  }

  lemma BackOfNow(n: int, pos: int, age: nat)
    requires 0 <= pos < n && age < n
    ensures Back(n, pos, age) == pos <==> age == 0
  {
  }

  /** The index about to be recycled is the oldest one and no other. */
  lemma BackExpires(n: int, pos: int, age: nat)
    requires 0 <= pos < n && age < n
    ensures Back(n, pos, age) == Next(n, pos) <==> age == n - 1
  {
  }

  /** Every index has exactly one age. */
  lemma BackCovers(n: int, pos: int, i: int)
    requires 0 <= pos < n && 0 <= i < n
    ensures Back(n, pos, Ahead(n, i, pos)) == i
    ensures forall age: nat | age < n && Back(n, pos, age) == i :: age == Ahead(n, i, pos)
  {
  }

  /** A clock that advances in the ring is the number of its steps. */
  lemma ClockStep(n: int, steps: nat)
    requires 0 < n
    ensures 0 <= steps % n < n && Next(n, steps % n) == (steps + 1) % n
  {
    var q, r := steps / n, steps % n;
    assert steps == q * n + r;
    if r + 1 < n {
      SameRemainder(n, q, r + 1);
    } else {
      assert (q + 1) * n == q * n + n;
      SameRemainder(n, q + 1, 0);
    }
  }
}
