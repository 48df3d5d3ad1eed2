/** Following next pointers: where a walk gets to, and what two pointers of different speed find out. */
module ListWalk {

  /** NULL among element numbers. */
  const NULL: int := -1

  /** The element k steps from x; a walk that has left the list stays at NULL. */
  function At(next: seq<int>, x: int, k: nat): int {
    if k == 0 then x
    else
      var y := At(next, x, k - 1);
      if 0 <= y < |next| then next[y] else NULL
  }

  /** Following next from an element of r stays in r or ends at NULL. */
  ghost predicate Closed(next: seq<int>, r: set<int>) {
    forall y :: y in r ==> 0 <= y < |next| && (next[y] == NULL || next[y] in r)
  }

  ghost predicate Inside(r: set<int>, x: int) {
    x == NULL || x in r
  }

  /** The list that starts at x runs into a cycle. */
  ghost predicate Revisits(next: seq<int>, x: int, i: nat, j: nat) {
    i < j && At(next, x, i) == At(next, x, j) != NULL
  }

  ghost predicate HasCycle(next: seq<int>, x: int) {
    exists i: nat, j: nat :: Revisits(next, x, i, j)
  }

  lemma {:induction false} StaysInside(next: seq<int>, r: set<int>, x: int, k: nat)
    requires Closed(next, r) && Inside(r, x)
    ensures Inside(r, At(next, x, k))
  {
    if 0 < k {
      StaysInside(next, r, x, k - 1);
    }
  }

  /** Once at NULL, always at NULL. */
  lemma {:induction false} NullStays(next: seq<int>, x: int, n: nat, k: nat)
    requires At(next, x, n) == NULL && n <= k
    ensures At(next, x, k) == NULL
  {
    if n < k {
      NullStays(next, x, n, k - 1);
    }
  }

  /** From its first repetition on, a walk repeats with that period. */
  lemma {:induction false} Period(next: seq<int>, x: int, i: nat, p: nat, k: nat)
    requires At(next, x, i) == At(next, x, i + p) && i <= k
    ensures At(next, x, k) == At(next, x, k + p)
  {
    if i < k {
      Period(next, x, i, p, k - 1);
    }
  }

  lemma {:induction false} Periods(next: seq<int>, x: int, i: nat, p: nat, k: nat, m: nat)
    requires At(next, x, i) == At(next, x, i + p) && i <= k
    ensures At(next, x, k) == At(next, x, k + m * p)
  {
    if 0 < m {
      Periods(next, x, i, p, k, m - 1);
      Period(next, x, i, p, k + (m - 1) * p);
      assert k + (m - 1) * p + p == k + m * p;
    }
  }

  /** A list that ends has no cycle. */
  lemma EndMeansNoCycle(next: seq<int>, x: int, n: nat)
    requires At(next, x, n) == NULL
    ensures !HasCycle(next, x)
  {
    forall i: nat, j: nat
      ensures !Revisits(next, x, i, j)
    {
      if i < j && At(next, x, i) == At(next, x, j) {
        Periods(next, x, i, j - i, i, n);
        assert n <= n * (j - i);
        NullStays(next, x, n, i + n * (j - i));
      }
    }
  }

  /** The elements met in the first n steps. */
  function Met(next: seq<int>, x: int, n: nat): set<int> {
    set k | 0 <= k < n :: At(next, x, k)
  }

  lemma {:induction false} DistinctMet(next: seq<int>, x: int, n: nat)
    requires forall i, j :: 0 <= i < j < n ==> At(next, x, i) != At(next, x, j)
    ensures |Met(next, x, n)| == n
  {
    if 0 < n {
      DistinctMet(next, x, n - 1);
      assert Met(next, x, n) == Met(next, x, n - 1) + {At(next, x, n - 1)};
    }
  }

  /** Among finitely many elements a walk ends or comes back. */
  lemma EndsOrRevisits(next: seq<int>, r: set<int>, x: int) returns (i: nat, j: nat)
    requires Closed(next, r) && Inside(r, x)
    ensures At(next, x, j) == NULL || Revisits(next, x, i, j)
  {
    var n := |r| + 1;
    if u, v :| 0 <= u < v < n && At(next, x, u) == At(next, x, v) {
      i, j := u, v;
    } else {
      DistinctMet(next, x, n);
      if forall k :: 0 <= k < n ==> At(next, x, k) != NULL {
        forall k | 0 <= k < n
          ensures At(next, x, k) in r
        {
          StaysInside(next, r, x, k);
        }
        SubsetSize(Met(next, x, n), r);
        assert false;
      } else {
        j :| 0 <= j < n && At(next, x, j) == NULL;
        i := 0;
      }
    }
  }

  lemma SubsetSize(a: set<int>, b: set<int>)
    requires a <= b
    ensures |a| <= |b|
  {
    assert b == a + (b - a);
  }

  /** The hare starts one ahead and goes two elements a turn. After some number of turns it has left the list
      or stands where the tortoise stands. */
  lemma HareDecides(next: seq<int>, r: set<int>, x: int) returns (turns: nat)
    requires Closed(next, r) && Inside(r, x)
    ensures At(next, x, 2 * turns + 1) == NULL || At(next, x, turns) == At(next, x, 2 * turns + 1)
  {
    var i, j := EndsOrRevisits(next, r, x);
    if At(next, x, j) == NULL {
      turns := j;
      NullStays(next, x, j, 2 * j + 1);
    } else {
      turns := MeetingTurn(i, j - i);
      Periods(next, x, i, j - i, turns, i + 1);
    }
  }

  /** A turn count not below i whose successor is a multiple of the period p. */
  lemma MeetingTurn(i: nat, p: nat) returns (turns: nat)
    requires 0 < p
    ensures i <= turns && turns + (i + 1) * p == 2 * turns + 1
  {
    assert (i + 1) * 1 <= (i + 1) * p;
    turns := (i + 1) * p - 1;
  }
}
