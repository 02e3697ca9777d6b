/** Moving the elements of an array to new places, in place, along the cycles of the permutation. */
module Permutations {
  import opened Counting

  /** p maps the indices below n to each other, one to one. */
  ghost predicate IsPermutation(p: int -> int, n: nat) {
    && (forall i {:trigger p(i)} :: 0 <= i < n ==> 0 <= p(i) < n)
    && forall i, j {:trigger p(i), p(j)} :: 0 <= i < n && 0 <= j < n && p(i) == p(j) ==> i == j
  }

  /** What belongs to a visited index is where it goes, the rest is where it was. */
  ghost predicate Moved<T>(before: seq<T>, now: seq<T>, p: int -> int, store: T -> T, moved: set<int>) {
    && |now| == |before|
    && (forall i {:trigger p(i)} :: i in moved ==> 0 <= i < |before| && 0 <= p(i) < |now| && now[p(i)] == store(before[i]))
    && forall j {:trigger now[j]} {:trigger Untouched(p, moved, j)} :: 0 <= j < |now| && Untouched(p, moved, j) ==> now[j] == before[j]
  }

  ghost predicate Untouched(p: int -> int, moved: set<int>, j: int) {
    forall i {:trigger p(i)} :: i in moved ==> p(i) != j
  }

  /** The visited indices, with the index the cycle has come to: nothing leads to them from
      outside but the link that closes the cycle at its start. */
  ghost predicate OnCycle(p: int -> int, n: nat, visited: set<int>, start: int, curr: int) {
    && WithinBounds(visited, n) && (forall x {:trigger p(x)} :: x in visited ==> p(x) in visited || p(x) == curr)
    && 0 <= start < n && 0 <= curr < n && (start in visited || start == curr)
    && forall x {:trigger p(x)} :: 0 <= x < n && (p(x) in visited || p(x) == curr) && p(x) != start ==> x in visited
  }

  /** The visited indices are whole cycles. */
  ghost predicate Whole(p: int -> int, n: nat, visited: set<int>) {
    && WithinBounds(visited, n) && (forall x {:trigger p(x)} :: x in visited ==> p(x) in visited)
    && forall x {:trigger p(x)} :: 0 <= x < n && p(x) in visited ==> x in visited
  }

  lemma CycleStarts(p: int -> int, n: nat, visited: set<int>, start: int)
    requires IsPermutation(p, n) && Whole(p, n, visited) && 0 <= start < n && start !in visited
    ensures OnCycle(p, n, visited, start, start)
  {
  }

  /** The next index of the cycle was not visited before, unless it closes the cycle. */
  lemma CycleSteps(p: int -> int, n: nat, visited: set<int>, start: int, curr: int)
    requires IsPermutation(p, n) && OnCycle(p, n, visited, start, curr) && curr !in visited
    ensures OnCycle(p, n, visited + {curr}, start, p(curr))
    ensures p(curr) != start ==> p(curr) !in visited + {curr}
    ensures p(curr) == start ==> Whole(p, n, visited + {curr})
  {
    var visited' := visited + {curr};
    forall x {:trigger p(x)} | 0 <= x < n && (p(x) in visited' || p(x) == p(curr)) && p(x) != start ensures x in visited' {
      if p(x) == p(curr) {
        assert x == curr;
      } else {
        assert p(x) in visited || p(x) == curr;
      }
    }
  }

  /** Storing the carried element at its place moves one more. */
  lemma MoveOne<T>(before: seq<T>, now: seq<T>, p: int -> int, store: T -> T, visited: set<int>, curr: int)
    requires IsPermutation(p, |before|) && 0 <= curr < |before| && curr !in visited
    requires Moved(before, now, p, store, visited)
    ensures now[p(curr)] == before[p(curr)]
    ensures Moved(before, now[p(curr) := store(before[curr])], p, store, visited + {curr})
  {
    forall i {:trigger p(i)} | i in visited ensures p(i) != p(curr) {
      var v := p(i);
      assert 0 <= i < |before| && i != curr;
    }
    assert Untouched(p, visited, p(curr));
    var after, visited' := now[p(curr) := store(before[curr])], visited + {curr};
    forall i {:trigger p(i)} | i in visited'
      ensures 0 <= i < |before| && 0 <= p(i) < |after| && after[p(i)] == store(before[i])
    {
      if i != curr {
        assert i in visited && p(i) != p(curr) && now[p(i)] == store(before[i]);
      }
    }
    forall j {:trigger after[j]} {:trigger Untouched(p, visited', j)} | 0 <= j < |after| && Untouched(p, visited', j)
      ensures after[j] == before[j]
    {
      assert p(curr) != j;
      assert Untouched(p, visited, j);
    }
    assert Moved(before, after, p, store, visited');
  }

  /** Moves every element to its place; an element is changed by store on its way. */
  method Permute<T>(a: array<T>, p: int -> int, store: T -> T)
    requires IsPermutation(p, a.Length)
    modifies a
    ensures Permuted(old(a[..]), a[..], p, store)
  {
    ghost var before := a[..];
    ghost var moved: set<int> := {};
    NoneMoved(before, p, store);
    var visited := new bool[a.Length](_ => false);
    var i := 0;
    while i < a.Length
      invariant 0 <= i <= a.Length
      invariant Whole(p, a.Length, moved) && Moved(before, a[..], p, store, moved)
      invariant Flags(visited[..], moved) && AllBelow(i, moved)
    {
      ghost var sofar := moved;
      assert visited[..][i] == visited[i];
      if !visited[i] {
        moved := FollowCycle(a, p, store, visited, i, before, moved);
      }
      OneMoreBelow(i, sofar, moved);
      i := i + 1;
    }
    AllMoved(before, a[..], p, store, moved);
  }

  ghost predicate AllBelow(i: nat, moved: set<int>) {
    forall j :: 0 <= j < i ==> j in moved
  }

  lemma OneMoreBelow(i: nat, sofar: set<int>, moved: set<int>)
    requires AllBelow(i, sofar) && sofar <= moved && i in moved
    ensures AllBelow(i + 1, moved)
  {
  }

  lemma NoneMoved<T>(before: seq<T>, p: int -> int, store: T -> T)
    ensures Moved(before, before, p, store, {}) && Whole(p, |before|, {})
  {
  }

  /** Every element is where it belongs, changed by store. */
  ghost predicate Permuted<T>(before: seq<T>, now: seq<T>, p: int -> int, store: T -> T) {
    |now| == |before| && forall i {:trigger p(i)} :: 0 <= i < |before| ==> 0 <= p(i) < |now| && now[p(i)] == store(before[i])
  }

  lemma AllMoved<T>(before: seq<T>, now: seq<T>, p: int -> int, store: T -> T, moved: set<int>)
    requires Moved(before, now, p, store, moved) && AllBelow(|before|, moved)
    ensures Permuted(before, now, p, store)
  {
  }

  ghost predicate Flags(visited: seq<bool>, moved: set<int>) {
    forall j {:trigger visited[j]} :: 0 <= j < |visited| ==> (visited[j] <==> j in moved)
  }

  method FollowCycle<T>(a: array<T>, p: int -> int, store: T -> T, visited: array<bool>, start: int, ghost before: seq<T>, ghost moved0: set<int>)
    returns (ghost moved: set<int>)
    requires IsPermutation(p, a.Length) && |before| == a.Length == visited.Length && 0 <= start < a.Length && start !in moved0
    requires Whole(p, a.Length, moved0) && Moved(before, a[..], p, store, moved0) && Flags(visited[..], moved0)
    requires a as object != visited as object
    modifies a, visited
    ensures Whole(p, a.Length, moved) && Moved(before, a[..], p, store, moved) && Flags(visited[..], moved)
    ensures moved0 <= moved && start in moved
  {
    moved := moved0;
    var curr := start;
    var carry := a[curr];
    CycleStarts(p, a.Length, moved, start);
    assert a[..][curr] == before[curr];
    while true
      invariant OnCycle(p, a.Length, moved, start, curr) && curr !in moved && moved0 <= moved
      invariant Moved(before, a[..], p, store, moved) && carry == before[curr] && Flags(visited[..], moved)
      decreases a.Length - |moved|
    {
      CycleSteps(p, a.Length, moved, start, curr);
      Bounded(moved + {curr}, a.Length);
      carry := Exchange(a, p, store, visited, curr, carry, before, moved);
      moved := moved + {curr};
      curr := p(curr);
      if curr == start {
        break;
      }
    }
  }

  /** Stores the carried element at its place and takes what was there. */
  method Exchange<T>(a: array<T>, p: int -> int, store: T -> T, visited: array<bool>, curr: int, carry: T, ghost before: seq<T>, ghost moved: set<int>)
    returns (next: T)
    requires IsPermutation(p, a.Length) && |before| == a.Length == visited.Length && 0 <= curr < a.Length && curr !in moved
    requires Moved(before, a[..], p, store, moved) && Flags(visited[..], moved) && carry == before[curr]
    requires a as object != visited as object
    modifies a, visited
    ensures Moved(before, a[..], p, store, moved + {curr}) && Flags(visited[..], moved + {curr}) && next == before[p(curr)]
  {
    MoveOne(before, a[..], p, store, moved, curr);
    visited[curr] := true;
    var dest := p(curr);
    next := a[dest];
    a[dest] := store(carry);
  }

  /** Every index is the image of one. */
  lemma {:induction false} Onto(p: int -> int, n: nat, y: int) returns (x: int)
    requires IsPermutation(p, n) && 0 <= y < n
    ensures 0 <= x < n && p(x) == y
  {
    var images := set i | 0 <= i < n :: p(i);
    if y !in images {
      ImageSize(p, n, n);
      assert ImageSet(p, n) == images;
      FewerBelow(images, n, y);
    }
    x :| 0 <= x < n && p(x) == y;
  }

  ghost function ImageSet(p: int -> int, k: nat): set<int> {
    set i | 0 <= i < k :: p(i)
  }

  lemma {:induction false} ImageSize(p: int -> int, n: nat, k: nat)
    requires IsPermutation(p, n) && k <= n
    ensures |ImageSet(p, k)| == k
  {
    if k > 0 {
      ImageSize(p, n, k - 1);
      assert ImageSet(p, k) == ImageSet(p, k - 1) + {p(k - 1)};
      assert p(k - 1) !in ImageSet(p, k - 1);
    } else {
      assert ImageSet(p, k) == {};
    }
  }

  lemma FewerBelow(s: set<int>, n: nat, y: int)
    requires (forall x :: x in s ==> 0 <= x < n) && 0 <= y < n && y !in s
    ensures |s| < n
  {
    Bounded(s + {y}, n);
  }

  /** Every element at the place p gives it. */
  ghost function Rearranged<T>(lists: seq<T>, p: int -> int): (r: seq<T>)
    requires IsPermutation(p, |lists|)
    ensures |r| == |lists| && forall u :: 0 <= u < |lists| ==> r[p(u)] == lists[u]
  {
    seq(|lists|, v requires 0 <= v < |lists| => lists[PreImage(p, |lists|, v)])
  }

  ghost function PreImage(p: int -> int, n: nat, y: int): (x: int)
    requires IsPermutation(p, n) && 0 <= y < n
    ensures 0 <= x < n && p(x) == y
  {
    assert exists x :: 0 <= x < n && p(x) == y by {
      var x := Onto(p, n, y);
    }
    var x :| 0 <= x < n && p(x) == y;
    x
  }
}
