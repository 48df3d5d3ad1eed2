/** memp.c: fixed-size element pools with free lists threaded through the elements, and memp_sanity. */
module Memp {
  import opened ListWalk

  /** One past the last element of pool t, when pool elements are numbered in memory order. */
  function Bound(num: seq<nat>, t: nat): nat
    requires t <= |num|
  {
    if t == 0 then 0 else Bound(num, t - 1) + num[t - 1]
  }

  lemma {:induction false} BoundGrows(num: seq<nat>, t: nat, u: nat)
    requires t <= u <= |num|
    ensures Bound(num, t) <= Bound(num, u)
  {
    if t < u {
      BoundGrows(num, t, u - 1);
    }
  }

  /** Element y belongs to pool t. */
  predicate InPool(num: seq<nat>, t: nat, y: int) {
    t < |num| && Bound(num, t) <= y < Bound(num, t + 1)
  }

  lemma OnePool(num: seq<nat>, t: nat, u: nat, y: int)
    requires InPool(num, t, y) && InPool(num, u, y)
    ensures t == u
  {
    if t < u {
      BoundGrows(num, t + 1, u);
    } else if u < t {
      BoundGrows(num, u + 1, t);
    }
  }

  function HeadOf(l: seq<int>): int {
    if l == [] then NULL else l[0]
  }

  /** The free list of a pool, as its table entry and the next fields hold it. */
  ghost predicate Threaded(num: seq<nat>, next: seq<int>, t: nat, head: int, l: seq<int>) {
    && head == HeadOf(l)
    && (forall k :: 0 <= k < |l| ==> InPool(num, t, l[k]) && 0 <= l[k] < |next|)
    && (forall k :: 0 <= k < |l| ==> next[l[k]] == HeadOf(l[k + 1..]))
    && (forall j, k :: 0 <= j < k < |l| ==> l[j] != l[k])
  }

  /** Writing an element outside a list leaves the list as it is. */
  lemma ThreadedElsewhere(num: seq<nat>, next: seq<int>, t: nat, head: int, l: seq<int>, y: int, v: int)
    requires Threaded(num, next, t, head, l) && 0 <= y < |next| && y !in l
    ensures Threaded(num, next[y := v], t, head, l)
  {
  }

  lemma {:induction false} WalkOfThreaded(num: seq<nat>, next: seq<int>, t: nat, head: int, l: seq<int>, k: nat)
    requires Threaded(num, next, t, head, l) && k <= |l|
    ensures At(next, head, k) == HeadOf(l[k..])
  {
    if 0 < k {
      WalkOfThreaded(num, next, t, head, l, k - 1);
      assert l[k - 1..][0] == l[k - 1];
    }
  }

  class Pools {
    const num: seq<nat>         // memp_num
    const next: array<int>      // struct memp, by element number
    const tab: array<int>       // memp_tab
    ghost var lists: seq<seq<int>>

    ghost predicate Valid()
      reads this, next, tab
    {
      && next != tab
      && |lists| == tab.Length == |num| && next.Length == Bound(num, |num|)
      && forall t :: 0 <= t < |num| ==> Threaded(num, next[..], t, tab[t], lists[t])
    }

    /** Element y is handed out: no free list holds it. */
    ghost predicate Allocated(t: nat, y: int)
      requires t < |lists|
      reads this
    {
      InPool(num, t, y) && y !in lists[t]
    }

    /** memp_sanity */
    method Sanity(ghost r: set<int>) returns (ok: bool)
      requires Closed(next[..], r)
      requires forall t :: 0 <= t < tab.Length ==> Inside(r, tab[t])
      ensures ok <==> forall t :: 0 <= t < tab.Length ==> !HasCycle(next[..], tab[t])
    {
      ghost var nx := next[..];
      for i := 0 to tab.Length
        invariant forall t :: 0 <= t < i ==> !HasCycle(nx, tab[t])
      {
        var good := CheckList(tab[i], r);
        if !good {
          return false;
        }
      }
      return true;
    }

    /** The body of memp_sanity's loop: one list. */
    method CheckList(head: int, ghost r: set<int>) returns (good: bool)
      requires Closed(next[..], r) && Inside(r, head)
      ensures good <==> !HasCycle(next[..], head)
    {
      var t := head;
      if t == NULL {
        EndMeansNoCycle(next[..], head, 0);
        return true;
      }
      ghost var nx := next[..];
      ghost var turns := HareDecides(nx, r, head);
      var h := next[t];
      ghost var k: nat := 0;
      assert At(nx, head, 1) == nx[At(nx, head, 0)];
      while t != NULL && h != NULL
        invariant k <= turns && t == At(nx, head, k) && h == At(nx, head, 2 * k + 1)
        invariant Inside(r, t) && Inside(r, h)
        decreases turns - k
      {
        if t == h {
          assert Revisits(nx, head, k, 2 * k + 1);
          return false;
        }
        HareMoves(nx, r, head, 2 * k + 1);
        StaysInside(nx, r, head, k + 1);
        StaysInside(nx, r, head, 2 * k + 3);
        t := next[t];
        h := if next[h] != NULL && next[next[h]] != NULL then next[next[h]] else NULL;
        k := k + 1;
      }
      if t == NULL {
        EndMeansNoCycle(nx, head, k);
      } else {
        EndMeansNoCycle(nx, head, 2 * k + 1);
      }
      return true;
    }

    /** memp_init: carve the memory into one list per pool. */
    constructor (num: seq<nat>)
      ensures this.num == num && Valid() && fresh(next) && fresh(tab)
      ensures forall t, y :: 0 <= t < |num| && InPool(num, t, y) ==> y in lists[t]
    {
      this.num := num;
      next := new int[Bound(num, |num|)](_ => NULL);
      tab := new int[|num|](_ => NULL);
      lists := seq(|num|, _ => []);
      new;
      var memp := 0;
      for i := 0 to |num|
        invariant |lists| == |num| && next != tab && fresh(next) && fresh(tab)
        invariant memp == Bound(num, i)
        invariant forall t :: 0 <= t < i ==> Threaded(num, next[..], t, tab[t], lists[t])
        invariant forall t :: i <= t < |num| ==> lists[t] == []
        invariant forall t, y :: 0 <= t < i && InPool(num, t, y) ==> y in lists[t]
      {
        memp := Carve(i, memp);
      }
    }

    /** memp_init's inner loop: push the elements of pool i, one after the other. */
    method Carve(i: nat, start: int) returns (memp: int)
      requires next != tab && |lists| == tab.Length == |num| && next.Length == Bound(num, |num|)
      requires i < |num| && start == Bound(num, i) && lists[i] == []
      requires forall t :: 0 <= t < i ==> Threaded(num, next[..], t, tab[t], lists[t])
      modifies this`lists, next, tab
      ensures memp == Bound(num, i + 1) && |lists| == |num|
      ensures forall t :: 0 <= t < i ==> tab[t] == old(tab[t]) && lists[t] == old(lists[t])
      ensures forall t :: i < t < |num| ==> lists[t] == old(lists[t])
      ensures forall t :: 0 <= t <= i ==> Threaded(num, next[..], t, tab[t], lists[t])
      ensures forall y :: InPool(num, i, y) ==> y in lists[i]
    {
      memp := start;
      tab[i] := NULL;
      BoundGrows(num, i + 1, |num|);
      ghost var old0 := next[..];
      for j := 0 to num[i]
        invariant memp == start + j && |lists| == |num|
        invariant forall t :: 0 <= t < i ==> tab[t] == old(tab[t])
        invariant forall t :: 0 <= t < |num| && t != i ==> lists[t] == old(lists[t])
        invariant forall t :: 0 <= t < i ==> Threaded(num, next[..], t, tab[t], lists[t])
        invariant Threaded(num, next[..], i, tab[i], lists[i])
        invariant forall y :: y in lists[i] <==> start <= y < memp
      {
        Push(i, memp, i);
        memp := memp + 1;
      }
    }

    /** memp->next = memp_tab[type]; memp_tab[type] = memp: the lists below `upto` stay as they are. */
    method Push(t: nat, y: int, ghost upto: nat)
      requires next != tab && |lists| == tab.Length == |num| && t < |num| && upto <= |num|
      requires InPool(num, t, y) && 0 <= y < next.Length && y !in lists[t]
      requires Threaded(num, next[..], t, tab[t], lists[t])
      requires forall u :: 0 <= u < upto && u != t ==> Threaded(num, next[..], u, tab[u], lists[u])
      modifies this`lists, next, tab
      ensures lists == old(lists)[t := [y] + old(lists)[t]]
      ensures forall u :: 0 <= u < |num| && u != t ==> tab[u] == old(tab[u])
      ensures Threaded(num, next[..], t, tab[t], lists[t])
      ensures forall u :: 0 <= u < upto && u != t ==> Threaded(num, next[..], u, tab[u], lists[u])
    {
      ghost var nx, l, v := next[..], lists[t], tab[t];
      ThreadedElsewhere(num, nx, t, v, l, y, v);
      forall u | 0 <= u < upto && u != t
        ensures Threaded(num, nx[y := v], u, tab[u], lists[u])
      {
        if y in lists[u] {
          OnePool(num, t, u, y);
        }
        ThreadedElsewhere(num, nx, u, tab[u], lists[u], y, v);
      }
      next[y] := tab[t];
      tab[t] := y;
      assert next[..] == nx[y := v];
      PushThreaded(num, next[..], t, v, l, y);
      lists := lists[t := [y] + l];
    }

    /** memp_malloc: NULL when the pool does not exist or is empty. */
    method Malloc(t: nat) returns (y: int)
      requires Valid()
      modifies this`lists, tab
      ensures Valid()
      ensures y == NULL <==> t >= |num| || old(lists)[t] == []
      ensures y == NULL ==> lists == old(lists)
      ensures y != NULL ==> lists == old(lists)[t := old(lists)[t][1..]] && y == old(lists)[t][0] && Allocated(t, y)
    {
      if t >= |num| {
        return NULL;
      }
      y := tab[t];
      assert Threaded(num, next[..], t, tab[t], lists[t]);
      if y != NULL {
        PopThreaded(num, next[..], t, tab[t], lists[t]);
        tab[t] := next[y];
        lists := lists[t := lists[t][1..]];
      }
    }

    /** memp_free, with the sanity check it ends with: the check never fails. */
    method Free(t: nat, y: int) returns (sane: bool)
      requires Valid() && t < |num| && (y == NULL || Allocated(t, y))
      modifies this`lists, next, tab
      ensures Valid() && sane
      ensures lists == if y == NULL then old(lists) else old(lists)[t := [y] + old(lists)[t]]
    {
      if y == NULL {
        return true;
      }
      BoundGrows(num, t + 1, |num|);
      assert Threaded(num, next[..], t, tab[t], lists[t]);
      Push(t, y, |num|);
      sane := Sanity(FreeElements());
      ListsEnd();
    }

    /** Elements in use belong to their users, who may write anything into them, the next field included. */
    method UserWrites(t: nat, y: int, v: int)
      requires Valid() && t < |num| && Allocated(t, y)
      modifies next
      ensures Valid() && 0 <= y < next.Length && next[..] == old(next[..])[y := v]
    {
      BoundGrows(num, t + 1, |num|);
      ghost var nx := next[..];
      forall u | 0 <= u < |num|
        ensures Threaded(num, nx[y := v], u, tab[u], lists[u])
      {
        if y in lists[u] {
          assert Threaded(num, nx, u, tab[u], lists[u]);
          OnePool(num, t, u, y);
        }
        ThreadedElsewhere(num, nx, u, tab[u], lists[u], y, v);
      }
      next[y] := v;
      assert next[..] == nx[y := v];
    }

    ghost function FreeElements(): (r: set<int>)
      requires Valid()
      reads this, next, tab
      ensures Closed(next[..], r)
      ensures forall t :: 0 <= t < tab.Length ==> Inside(r, tab[t])
    {
      var r := set t, k | 0 <= t < |lists| && 0 <= k < |lists[t]| :: lists[t][k];
      assert Closed(next[..], r) by {
        forall y | y in r
          ensures 0 <= y < next.Length && (next[y] == NULL || next[y] in r)
        {
          var t, k :| 0 <= t < |lists| && 0 <= k < |lists[t]| && lists[t][k] == y;
          assert Threaded(num, next[..], t, tab[t], lists[t]);
          if k + 1 < |lists[t]| {
            assert lists[t][k + 1] in r;
          }
        }
      }
      assert forall t :: 0 <= t < tab.Length ==> Inside(r, tab[t]) by {
        forall t | 0 <= t < tab.Length
          ensures Inside(r, tab[t])
        {
          assert Threaded(num, next[..], t, tab[t], lists[t]);
          if lists[t] != [] {
            assert lists[t][0] in r;
          }
        }
      }
      r
    }

    /** In a valid state no free list has a cycle, and the elements handed out are on none. */
    lemma ListsEnd()
      requires Valid()
      ensures forall t :: 0 <= t < tab.Length ==> !HasCycle(next[..], tab[t])
    {
      forall t | 0 <= t < tab.Length
        ensures !HasCycle(next[..], tab[t])
      {
        WalkOfThreaded(num, next[..], t, tab[t], lists[t], |lists[t]|);
        EndMeansNoCycle(next[..], tab[t], |lists[t]|);
      }
    }
  }

  lemma PushThreaded(num: seq<nat>, next: seq<int>, t: nat, head: int, l: seq<int>, y: int)
    requires Threaded(num, next, t, head, l) && InPool(num, t, y) && 0 <= y < |next| && y !in l && next[y] == head
    ensures Threaded(num, next, t, y, [y] + l)
  {
    var m := [y] + l;
    forall k | 0 <= k < |m|
      ensures next[m[k]] == HeadOf(m[k + 1..])
    {
      assert m[k + 1..] == l[k..];
      assert 0 < k ==> m[k] == l[k - 1];
    }
  }

  lemma PopThreaded(num: seq<nat>, next: seq<int>, t: nat, head: int, l: seq<int>)
    requires Threaded(num, next, t, head, l) && l != []
    ensures 0 <= head < |next| && Threaded(num, next, t, next[head], l[1..]) && head !in l[1..]
  {
    var m := l[1..];
    forall k | 0 <= k < |m|
      ensures next[m[k]] == HeadOf(m[k + 1..])
    {
      assert m[k + 1..] == l[k + 2..];
    }
  }

  /** Two more steps of the hare: the guarded double jump is what two steps along the list are. */
  lemma HareMoves(next: seq<int>, r: set<int>, x: int, k: nat)
    requires Closed(next, r) && Inside(r, x) && At(next, x, k) != NULL
    ensures var h := At(next, x, k);
      && h in r && At(next, x, k + 1) == next[h]
      && At(next, x, k + 2) == if next[h] != NULL then next[next[h]] else NULL
  {
    StaysInside(next, r, x, k);
    assert At(next, x, k + 1) == next[At(next, x, k)];
  }
}
