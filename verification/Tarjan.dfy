/** Tarjan's depth-first search for strongly connected components, as functions on its state,
    and the proof that it emits exactly the components. */
module Tarjan {
  import opened Counting
  import opened Connectivity

  const NO_INDEX := -1

  /** The keys with the order they were found in, the lowest index each is known to reach on
      the stack, the stack of keys whose component is open, and the components found. */
  datatype TarjanState = TarjanState(index: seq<int>, low: seq<int>, stack: seq<int>, currIndex: int, emitted: seq<seq<int>>)

  ghost predicate Shape(g: Successors, s: TarjanState) {
    && |s.index| == |g| && |s.low| == |g| && AreKeys(g, s.stack)
    && (forall i {:trigger s.stack[i]} :: 0 <= i < |s.stack| ==> Indexed(s, s.stack[i]))
    && NoRepeats(s.stack)
  }

  ghost predicate Differ(ks: seq<int>, i: nat, j: nat)
    requires i < |ks| && j < |ks|
  {
    ks[i] != ks[j]
  }

  ghost predicate NoRepeats(ks: seq<int>) {
    forall i, j {:trigger Differ(ks, i, j)} :: 0 <= i < j < |ks| ==> Differ(ks, i, j)
  }

  /** Every key found is on the stack or in one emitted component, and in it once. */
  ghost predicate Counted(s: TarjanState) {
    |White(s)| + |s.stack| + Total(s.emitted) == |s.index|
  }

  ghost predicate Indexed(s: TarjanState, k: int) {
    0 <= k < |s.index| && s.index[k] != NO_INDEX
  }

  ghost function White(s: TarjanState): set<int> {
    set k | 0 <= k < |s.index| && s.index[k] == NO_INDEX
  }

  /** What is found stays found, and the stack below stays as it is. */
  ghost predicate Grows(s: TarjanState, r: TarjanState) {
    && |r.index| == |s.index| && White(r) <= White(s) && s.stack <= r.stack
    && forall k :: Indexed(s, k) ==> r.index[k] == s.index[k]
  }

  lemma FewerWhite(s: TarjanState, r: TarjanState)
    requires White(r) <= White(s)
    ensures |White(r)| <= |White(s)|
  {
    assert White(s) == White(r) + (White(s) - White(r));
  }

  function Setup(s: TarjanState, p: int): TarjanState
    requires 0 <= p < |s.index| && p < |s.low|
  {
    TarjanState(s.index[p := s.currIndex], s.low[p := s.currIndex], s.stack + [p], s.currIndex + 1, s.emitted)
  }

  lemma SetupGrows(g: Successors, s: TarjanState, p: int)
    requires Shape(g, s) && 0 <= p < |g| && s.index[p] == NO_INDEX && s.currIndex >= 0
    ensures Shape(g, Setup(s, p)) && Grows(s, Setup(s, p)) && |White(Setup(s, p))| < |White(s)|
    ensures Counted(s) ==> Counted(Setup(s, p))
  {
    assert White(Setup(s, p)) == White(s) - {p};
    var r := Setup(s, p);
    forall i: nat, j: nat | i < j < |r.stack| ensures Differ(r.stack, i, j) {
      assert j < |s.stack| ==> Differ(s.stack, i, j);
      assert Indexed(s, s.stack[i]);
    }
  }

  function MinTo(s: TarjanState, p: int, value: int): TarjanState
    requires 0 <= p < |s.low|
  {
    if s.low[p] > value then s.(low := s.low[p := value]) else s
  }

  /** The keys popped off the stack down to p, last one first. */
  function PoppedTo(stack: seq<int>, p: int): (r: seq<int>)
    requires p in stack
    ensures r != [] && |r| <= |stack| && r[|r| - 1] == p
    ensures forall i :: 0 <= i < |r| ==> r[i] == stack[|stack| - 1 - i]
    ensures forall i :: 0 <= i < |r| - 1 ==> r[i] != p
  {
    var n := |stack| - 1;
    if stack[n] == p then [p] else [stack[n]] + PoppedTo(stack[..n], p)
  }

  lemma PoppedAbove(stack: seq<int>, p: int, j: nat)
    requires j < |stack| && stack[j] == p
    ensures |PoppedTo(stack, p)| <= |stack| - j
  {
    if stack[|stack| - 1] != p {
      PoppedAbove(stack[..|stack| - 1], p, j);
    }
  }

  function Build(s: TarjanState, p: int): TarjanState
    requires 0 <= p < |s.index| && p < |s.low| && p in s.stack
  {
    if s.low[p] != s.index[p] then s else
    var c := PoppedTo(s.stack, p);
    s.(stack := s.stack[..|s.stack| - |c|], emitted := s.emitted + [c])
  }

  lemma BuildShape(g: Successors, s: TarjanState, p: int)
    requires Shape(g, s) && 0 <= p < |g| && p in s.stack
    ensures Shape(g, Build(s, p)) && (Counted(s) ==> Counted(Build(s, p)))
  {
    var r := Build(s, p);
    forall i: nat, j: nat | i < j < |r.stack| ensures Differ(r.stack, i, j) {
      assert Differ(s.stack, i, j);
    }
    assert White(r) == White(s);
  }

  /** Finds everything there is to find from p, whose neighbours are next. */
  function Visit(g: Successors, p: int, next: seq<int>, s: TarjanState): (r: TarjanState)
    requires ValidGraph(g) && Shape(g, s) && 0 <= p < |g| && s.index[p] == NO_INDEX && s.currIndex >= 0
    requires AreKeys(g, next)
    ensures Shape(g, r) && Grows(s, r) && r.currIndex >= 0 && Indexed(r, p) && (Counted(s) ==> Counted(r))
    decreases |White(s)|, 0
  {
    SetupGrows(g, s, p);
    var s1 := Setup(s, p);
    var s2 := HandleAll(g, p, next, s1);
    assert s2.stack[|s.stack|] == p;
    PoppedAbove(s2.stack, p, |s.stack|);
    BuildShape(g, s2, p);
    Build(s2, p)
  }

  function HandleAll(g: Successors, p: int, qs: seq<int>, s: TarjanState): (r: TarjanState)
    requires ValidGraph(g) && Shape(g, s) && Indexed(s, p) && s.currIndex >= 0
    requires AreKeys(g, qs)
    ensures Shape(g, r) && Grows(s, r) && r.currIndex >= 0 && (Counted(s) ==> Counted(r))
    decreases |White(s)|, 2 + |qs|
  {
    if qs == [] then s else
    var s1 := Handle(g, p, qs[0], s);
    FewerWhite(s, s1);
    HandleAll(g, p, qs[1..], s1)
  }

  function Handle(g: Successors, p: int, q: int, s: TarjanState): (r: TarjanState)
    requires ValidGraph(g) && Shape(g, s) && Indexed(s, p) && 0 <= q < |g| && s.currIndex >= 0
    ensures Shape(g, r) && Grows(s, r) && r.currIndex >= 0 && (Counted(s) ==> Counted(r))
    decreases |White(s)|, 1
  {
    if s.index[q] == NO_INDEX then
      var s1 := Visit(g, q, g[q], s);
      MinTo(s1, p, s1.low[q])
    else if q in s.stack then MinTo(s, p, s.index[q])
    else s
  }

  // ----- the invariant

  ghost function Keys(c: seq<int>): set<int> {
    set k | k in c
  }

  ghost predicate Listed(cs: seq<seq<int>>, k: int) {
    exists i :: 0 <= i < |cs| && k in cs[i]
  }

  ghost predicate Emitted(s: TarjanState, k: int) {
    Listed(s.emitted, k)
  }

  /** From y a key that is still being explored can be reached, one found no later than y. */
  ghost predicate Anchored(g: Successors, s: TarjanState, gray: set<int>, y: int) {
    exists x :: x in gray && Indexed(s, x) && Indexed(s, y) && s.index[x] <= s.index[y] && Reach(g, y, x)
  }

  /** A key that is explored has no successor that was not found. */
  ghost predicate Closed(g: Successors, s: TarjanState, k: int) {
    forall y :: IsEdge(g, k, y) ==> Indexed(s, y)
  }

  /** A key higher up on the stack was found later. */
  ghost predicate Ascends(s: TarjanState, i: nat, j: nat)
    requires i < |s.stack| && j < |s.stack|
  {
    Indexed(s, s.stack[i]) && Indexed(s, s.stack[j]) && s.index[s.stack[i]] < s.index[s.stack[j]]
  }

  ghost predicate StackOk(g: Successors, s: TarjanState) {
    && (forall i {:trigger s.stack[i]} :: 0 <= i < |s.stack| ==> Indexed(s, s.stack[i]) && s.index[s.stack[i]] < s.currIndex)
    && (forall i, j {:trigger Ascends(s, i, j)} :: 0 <= i < j < |s.stack| ==> Ascends(s, i, j))
    && (forall i, j {:trigger Reach(g, s.stack[i], s.stack[j])} :: 0 <= i <= j < |s.stack| ==> Reach(g, s.stack[i], s.stack[j]))
  }

  /** Every found key is on the stack or in an emitted component, not both. */
  ghost predicate Sorted(s: TarjanState) {
    && (forall k {:trigger Indexed(s, k)} :: Indexed(s, k) ==> k in s.stack || Emitted(s, k))
    && (forall k {:trigger Emitted(s, k)} :: Emitted(s, k) ==> Indexed(s, k) && k !in s.stack)
  }

  ghost predicate Inv(g: Successors, s: TarjanState, gray: set<int>) {
    && Shape(g, s) && s.currIndex >= 0 && StackOk(g, s) && Sorted(s)
    && (forall x :: x in gray ==> x in s.stack)
    && (forall k {:trigger Closed(g, s, k)} :: Indexed(s, k) && k !in gray ==> Closed(g, s, k))
    && (forall y {:trigger Anchored(g, s, gray, y)} :: y in s.stack ==> Anchored(g, s, gray, y))
    && (forall i {:trigger s.emitted[i]} :: 0 <= i < |s.emitted| ==> IsComponent(g, Keys(s.emitted[i])))
  }

  /** Some key on the stack has the index low[p], and p reaches it. */
  ghost predicate LowOk(g: Successors, s: TarjanState, p: int) {
    && Indexed(s, p) && p < |s.low| && s.low[p] <= s.index[p]
    && exists y :: y in s.stack && Indexed(s, y) && s.index[y] == s.low[p] && Reach(g, p, y)
  }

  /** No edge from a key above the base to one in the base leads below low[p]. */
  ghost predicate Bounds(g: Successors, s: TarjanState, base: nat, from: nat, p: int)
    requires Shape(g, s) && 0 <= p < |g| && base <= |s.stack|
  {
    forall j, i {:trigger IsEdge(g, s.stack[j], s.stack[i])} ::
      from <= j < |s.stack| && 0 <= i < base && IsEdge(g, s.stack[j], s.stack[i]) ==> s.low[p] <= s.index[s.stack[i]]
  }

  /** What visiting p has done to the state. */
  ghost predicate Visited(g: Successors, s: TarjanState, r: TarjanState, p: int)
    requires Shape(g, s) && Shape(g, r) && 0 <= p < |g|
  {
    && Grows(s, r) && s.emitted <= r.emitted && (forall k :: Indexed(s, k) ==> r.low[k] == s.low[k])
    && Indexed(r, p) && r.index[p] == s.currIndex && r.low[p] <= r.index[p]
    && (if p in r.stack then LowOk(g, r, p) else r.low[p] == r.index[p])
    && Bounds(g, r, |s.stack|, |s.stack|, p)
  }

  /** Key p is the topmost key being explored, on top of the base. */
  ghost predicate OnTop(g: Successors, s: TarjanState, gray: set<int>, base: nat, p: int) {
    && p in gray && base < |s.stack| && s.stack[base] == p && 0 <= p < |g|
    && forall j :: base < j < |s.stack| ==> s.stack[j] !in gray
  }

  /** No edge of p to a done successor in the base leads below low[p]. */
  ghost predicate DoneOk(s: TarjanState, base: nat, p: int, done: seq<int>)
    requires base <= |s.stack| && 0 <= p < |s.low|
  {
    && (forall y {:trigger y in done} :: y in done ==> Indexed(s, y))
    && forall i {:trigger s.stack[i]} :: 0 <= i < base && s.stack[i] in done && Indexed(s, s.stack[i]) ==> s.low[p] <= s.index[s.stack[i]]
  }

  /** Key p is being explored, with the given successors behind it. */
  ghost predicate Exploring(g: Successors, s: TarjanState, gray: set<int>, base: nat, p: int, done: seq<int>) {
    && Inv(g, s, gray) && OnTop(g, s, gray, base, p)
    && LowOk(g, s, p) && Bounds(g, s, base, base + 1, p) && DoneOk(s, base, p, done)
  }

  lemma SetupStack(g: Successors, p: int, s: TarjanState)
    requires Shape(g, s) && StackOk(g, s) && Sorted(s) && 0 <= p < |g| && s.index[p] == NO_INDEX && s.currIndex >= 0
    requires forall x :: x in s.stack ==> Reach(g, x, p)
    ensures StackOk(g, Setup(s, p)) && Sorted(Setup(s, p)) && p !in s.stack
  {
    var r := Setup(s, p);
    SetupGrows(g, s, p);
    ReachSelf(g, p);
    assert p !in s.stack by {
      assert forall i :: 0 <= i < |s.stack| ==> Indexed(s, s.stack[i]);
    }
    forall i: nat, j: nat | i < j < |r.stack| ensures Ascends(r, i, j) {
      assert j < |s.stack| ==> Ascends(s, i, j);
    }
    forall i, j | 0 <= i <= j < |r.stack| ensures Reach(g, r.stack[i], r.stack[j]) {
      if j < |s.stack| {
        assert Reach(g, s.stack[i], s.stack[j]);
      }
    }
    assert forall k :: Emitted(r, k) <==> Emitted(s, k);
    forall k | Indexed(r, k) ensures k in r.stack || Emitted(r, k) {
      assert k != p ==> Indexed(s, k);
    }
  }

  lemma SetupOk(g: Successors, p: int, s: TarjanState, gray: set<int>)
    requires Inv(g, s, gray) && 0 <= p < |g| && s.index[p] == NO_INDEX
    requires forall x :: x in s.stack ==> Reach(g, x, p)
    ensures Exploring(g, Setup(s, p), gray + {p}, |s.stack|, p, [])
  {
    var r, gray' := Setup(s, p), gray + {p};
    SetupGrows(g, s, p);
    SetupStack(g, p, s);
    ReachSelf(g, p);
    forall k | Indexed(r, k) && k !in gray' ensures Closed(g, r, k) {
      assert Closed(g, s, k);
    }
    forall y | y in r.stack ensures Anchored(g, r, gray', y) {
      if y != p {
        assert Anchored(g, s, gray, y);
      } else {
        assert p in gray';
      }
    }
  }

  /** The lows play no part in the invariant. */
  lemma MinToOk(g: Successors, s: TarjanState, gray: set<int>, p: int, value: int)
    requires Inv(g, s, gray) && 0 <= p < |g|
    ensures Inv(g, MinTo(s, p, value), gray)
  {
    var r := MinTo(s, p, value);
    assert forall k :: Emitted(r, k) <==> Emitted(s, k);
    assert forall k :: Indexed(r, k) <==> Indexed(s, k);
    forall i: nat, j: nat | i < j < |r.stack| ensures Ascends(r, i, j) {
      assert Ascends(s, i, j);
    }
    forall k | Indexed(r, k) && k !in gray ensures Closed(g, r, k) {
      assert Closed(g, s, k);
    }
    forall y | y in r.stack ensures Anchored(g, r, gray, y) {
      assert Anchored(g, s, gray, y);
    }
  }

  lemma NotBelow(g: Successors, s: TarjanState, n: nat, j: nat)
    requires StackOk(g, s) && n <= j < |s.stack|
    ensures s.stack[j] !in s.stack[..n]
  {
    forall i: nat | i < n ensures s.stack[i] != s.stack[j] {
      assert Ascends(s, i, j);
    }
  }

  /** Every key on the stack reaches the key explored on top of it. */
  lemma StackReaches(g: Successors, s: TarjanState, gray: set<int>, base: nat, p: int, x: int)
    requires Inv(g, s, gray) && OnTop(g, s, gray, base, p) && x in s.stack
    ensures Reach(g, x, p)
  {
    assert Anchored(g, s, gray, x);
    var y :| y in gray && Indexed(s, y) && s.index[y] <= s.index[x] && Reach(g, x, y);
    var i :| 0 <= i < |s.stack| && s.stack[i] == y;
    assert i <= base;
    assert Reach(g, s.stack[i], s.stack[base]);
    ReachTrans(g, x, y, p);
  }

  /** A successor on the stack lowers low[p] to its index. */
  lemma OnStackOk(g: Successors, s: TarjanState, gray: set<int>, base: nat, p: int, done: seq<int>, q: int)
    requires Exploring(g, s, gray, base, p, done) && IsEdge(g, p, q) && q in s.stack && Indexed(s, q)
    ensures Exploring(g, MinTo(s, p, s.index[q]), gray, base, p, done + [q])
  {
    var r := MinTo(s, p, s.index[q]);
    MinToOk(g, s, gray, p, s.index[q]);
    ReachEdge(g, p, q);
    assert Bounds(g, r, base, base + 1, p);
    assert LowOk(g, r, p) by {
      if r.low[p] == s.low[p] {
        var y :| y in s.stack && Indexed(s, y) && s.index[y] == s.low[p] && Reach(g, p, y);
        assert y in r.stack && Indexed(r, y);
      } else {
        assert q in r.stack && Indexed(r, q);
      }
    }
  }

  /** A successor in an emitted component changes nothing. */
  lemma OffStackOk(g: Successors, s: TarjanState, gray: set<int>, base: nat, p: int, done: seq<int>, q: int)
    requires Exploring(g, s, gray, base, p, done) && q !in s.stack && Indexed(s, q)
    ensures Exploring(g, s, gray, base, p, done + [q])
  {
  }

  /** A visit leaves the keys being explored where they are. */
  lemma FoundOnTop(g: Successors, s: TarjanState, gray: set<int>, base: nat, p: int, r: TarjanState)
    requires Inv(g, s, gray) && OnTop(g, s, gray, base, p) && StackOk(g, r) && s.stack <= r.stack
    ensures OnTop(g, r, gray, base, p)
  {
    forall j | base < j < |r.stack| ensures r.stack[j] !in gray {
      if j >= |s.stack| {
        NotBelow(g, r, |s.stack|, j);
        assert r.stack[..|s.stack|] == s.stack;
      }
    }
  }

  lemma FoundLow(g: Successors, s: TarjanState, p: int, q: int, s1: TarjanState)
    requires Shape(g, s) && Shape(g, s1) && LowOk(g, s, p) && IsEdge(g, p, q) && 0 <= q < |g| && s.index[p] < s.currIndex
    requires Visited(g, s, s1, q)
    ensures LowOk(g, MinTo(s1, p, s1.low[q]), p)
  {
    var r := MinTo(s1, p, s1.low[q]);
    ReachEdge(g, p, q);
    if s1.low[q] < s.low[p] {
      assert q in s1.stack;
      var y :| y in s1.stack && Indexed(s1, y) && s1.index[y] == s1.low[q] && Reach(g, q, y);
      ReachTrans(g, p, q, y);
      assert y in r.stack && Indexed(r, y);
    } else {
      var y :| y in s.stack && Indexed(s, y) && s.index[y] == s.low[p] && Reach(g, p, y);
      assert y in r.stack && Indexed(r, y);
    }
  }

  lemma FoundBounds(g: Successors, s: TarjanState, base: nat, p: int, done: seq<int>, q: int, s1: TarjanState)
    requires Shape(g, s) && Shape(g, s1) && StackOk(g, s) && Indexed(s, p) && 0 <= q < |g| && s.index[q] == NO_INDEX
    requires base < |s.stack| && Bounds(g, s, base, base + 1, p) && DoneOk(s, base, p, done) && Visited(g, s, s1, q)
    ensures Bounds(g, MinTo(s1, p, s1.low[q]), base, base + 1, p) && DoneOk(MinTo(s1, p, s1.low[q]), base, p, done + [q])
  {
    var r := MinTo(s1, p, s1.low[q]);
    forall j, i | base + 1 <= j < |r.stack| && 0 <= i < base && IsEdge(g, r.stack[j], r.stack[i])
      ensures r.low[p] <= r.index[r.stack[i]]
    {
      assert r.stack[i] == s.stack[i] && Indexed(s, s.stack[i]);
      if j < |s.stack| {
        assert IsEdge(g, s.stack[j], s.stack[i]);
      } else {
        assert IsEdge(g, s1.stack[j], s1.stack[i]);
      }
    }
    forall i | 0 <= i < base && r.stack[i] in done + [q] ensures r.low[p] <= r.index[r.stack[i]] {
      assert r.stack[i] == s.stack[i] && Indexed(s, s.stack[i]);
    }
  }

  /** A successor found just now passes on its low. */
  lemma FoundOk(g: Successors, s: TarjanState, gray: set<int>, base: nat, p: int, done: seq<int>, q: int, s1: TarjanState)
    requires Exploring(g, s, gray, base, p, done) && IsEdge(g, p, q) && 0 <= q < |g| && s.index[q] == NO_INDEX
    requires Inv(g, s1, gray) && Visited(g, s, s1, q)
    ensures Exploring(g, MinTo(s1, p, s1.low[q]), gray, base, p, done + [q])
  {
    MinToOk(g, s1, gray, p, s1.low[q]);
    FoundOnTop(g, s, gray, base, p, s1);
    assert s.index[s.stack[base]] < s.currIndex;
    FoundLow(g, s, p, q, s1);
    FoundBounds(g, s, base, p, done, q, s1);
  }

  // ----- p is explored

  /** What p reaches below it, keys anchored at p reach too. */
  lemma AnchoredBelow(g: Successors, s: TarjanState, gray: set<int>, p: int, y: int)
    requires LowOk(g, s, p) && s.low[p] != s.index[p] && Anchored(g, s, gray, y)
    requires forall x {:trigger Anchored(g, s, gray, x)} :: x in s.stack ==> Anchored(g, s, gray, x)
    ensures Anchored(g, s, gray - {p}, y)
  {
    var x :| x in gray && Indexed(s, x) && s.index[x] <= s.index[y] && Reach(g, y, x);
    if x == p {
      var y0 :| y0 in s.stack && Indexed(s, y0) && s.index[y0] == s.low[p] && Reach(g, p, y0);
      assert Anchored(g, s, gray, y0);
      var x0 :| x0 in gray && Indexed(s, x0) && s.index[x0] <= s.index[y0] && Reach(g, y0, x0);
      ReachTrans(g, p, y0, x0);
      ReachTrans(g, y, p, x0);
      assert x0 in gray - {p};
    } else {
      assert x in gray - {p};
    }
  }

  lemma ExploredClosed(g: Successors, s: TarjanState, gray: set<int>, base: nat, p: int)
    requires 0 <= p < |g| && Exploring(g, s, gray, base, p, g[p])
    ensures forall k :: Indexed(s, k) && k !in gray - {p} ==> Closed(g, s, k)
    ensures Bounds(g, s, base, base, p)
  {
    forall k | Indexed(s, k) && k !in gray - {p} ensures Closed(g, s, k) {
      assert k != p ==> Closed(g, s, k);
    }
  }

  /** The index of p is not the lowest it reaches: p stays on the stack. */
  lemma StayOk(g: Successors, s: TarjanState, gray: set<int>, base: nat, p: int)
    requires 0 <= p < |g| && Exploring(g, s, gray, base, p, g[p]) && s.low[p] != s.index[p]
    ensures Inv(g, s, gray - {p}) && Bounds(g, s, base, base, p)
  {
    ExploredClosed(g, s, gray, base, p);
    forall y | y in s.stack ensures Anchored(g, s, gray - {p}, y) {
      assert Anchored(g, s, gray, y);
      AnchoredBelow(g, s, gray, p, y);
    }
  }

  // ----- p is the first key of a component

  /** The keys from p upwards are popped. */
  lemma PoppedCount(g: Successors, s: TarjanState, base: nat, p: int)
    requires StackOk(g, s) && base < |s.stack| && s.stack[base] == p
    ensures |PoppedTo(s.stack, p)| == |s.stack| - base
  {
    var c := PoppedTo(s.stack, p);
    PoppedAbove(s.stack, p, base);
    var n := |s.stack| - |c|;
    assert c[|c| - 1] == s.stack[n] == s.stack[base];
    assert base < n ==> Ascends(s, base, n);
  }

  lemma PoppedExactly(g: Successors, s: TarjanState, base: nat, p: int)
    requires StackOk(g, s) && base < |s.stack| && s.stack[base] == p
    ensures |PoppedTo(s.stack, p)| == |s.stack| - base
    ensures forall k :: k in PoppedTo(s.stack, p) <==> k in s.stack && k !in s.stack[..base]
  {
    var c := PoppedTo(s.stack, p);
    PoppedCount(g, s, base, p);
    forall k | k in c ensures k in s.stack && k !in s.stack[..base] {
      var i :| 0 <= i < |c| && c[i] == k;
      NotBelow(g, s, base, |s.stack| - 1 - i);
    }
    forall k | k in s.stack && k !in s.stack[..base] ensures k in c {
      var j :| 0 <= j < |s.stack| && s.stack[j] == k;
      assert j >= base;
      assert c[|s.stack| - 1 - j] == k;
    }
  }

  /** An edge out of these keys leads to a component emitted before. */
  lemma EdgesLeave(g: Successors, s: TarjanState, gray: set<int>, base: nat, p: int, u: int, v: int)
    requires 0 <= p < |g| && Exploring(g, s, gray, base, p, g[p]) && s.low[p] == s.index[p]
    requires u in s.stack && u !in s.stack[..base] && IsEdge(g, u, v) && (v in s.stack[..base] || v !in s.stack)
    ensures Emitted(s, v)
  {
    ExploredClosed(g, s, gray, base, p);
    var j :| 0 <= j < |s.stack| && s.stack[j] == u;
    assert j >= base;
    assert Closed(g, s, u) by {
      if j > base { assert u !in gray; } else { assert u == p; }
    }
    forall i | 0 <= i < base ensures s.stack[i] != v {
      assert Ascends(s, i, base);
      assert !IsEdge(g, s.stack[j], s.stack[i]);
    }
    assert v !in s.stack;
  }

  lemma PoppedMutual(g: Successors, s: TarjanState, gray: set<int>, base: nat, p: int, x: int)
    requires Inv(g, s, gray) && OnTop(g, s, gray, base, p) && x in s.stack && x !in s.stack[..base]
    ensures Mutual(g, p, x)
  {
    var j :| 0 <= j < |s.stack| && s.stack[j] == x;
    assert j >= base && Reach(g, s.stack[base], s.stack[j]);
    StackReaches(g, s, gray, base, p, x);
  }

  /** A key of an emitted component is not reached from it again. */
  lemma NotMutual(g: Successors, s: TarjanState, gray: set<int>, p: int, v: int)
    requires Inv(g, s, gray) && p in s.stack && Emitted(s, v)
    ensures !Mutual(g, v, p)
  {
    var i :| 0 <= i < |s.emitted| && v in s.emitted[i];
    assert IsComponent(g, Keys(s.emitted[i])) && v in Keys(s.emitted[i]);
    assert p in Keys(s.emitted[i]) ==> Emitted(s, p);
  }

  /** The keys from p upwards are a component. */
  lemma PoppedComponent(g: Successors, s: TarjanState, gray: set<int>, base: nat, p: int)
    requires 0 <= p < |g| && Exploring(g, s, gray, base, p, g[p]) && s.low[p] == s.index[p]
    ensures IsComponent(g, Keys(PoppedTo(s.stack, p)))
  {
    var c := Keys(PoppedTo(s.stack, p));
    PoppedExactly(g, s, base, p);
    NotBelow(g, s, base, base);
    forall x | x in c ensures Mutual(g, p, x) {
      PoppedMutual(g, s, gray, base, p, x);
    }
    forall u, v | u in c && IsEdge(g, u, v) && v !in c ensures !Reach(g, v, p) {
      EdgesLeave(g, s, gray, base, p, u, v);
      NotMutual(g, s, gray, p, v);
      ReachEdge(g, u, v);
      ReachTrans(g, p, u, v);
    }
    ComponentFrom(g, c, p);
  }

  lemma AnchoredRest(g: Successors, s: TarjanState, gray: set<int>, base: nat, p: int, r: TarjanState, y: int)
    requires Inv(g, s, gray) && base < |s.stack| && s.stack[base] == p && y in s.stack[..base] && r.index == s.index
    ensures Anchored(g, r, gray - {p}, y)
  {
    assert Anchored(g, s, gray, y);
    var x :| x in gray && Indexed(s, x) && s.index[x] <= s.index[y] && Reach(g, y, x);
    var i :| 0 <= i < base && s.stack[i] == y;
    assert Ascends(s, i, base);
    assert x in gray - {p} && Indexed(r, x) && Indexed(r, y);
  }

  lemma SortedRest(g: Successors, s: TarjanState, base: nat, p: int)
    requires Shape(g, s) && StackOk(g, s) && Sorted(s) && base < |s.stack| && s.stack[base] == p && 0 <= p < |g| && s.low[p] == s.index[p]
    ensures Build(s, p).stack == s.stack[..base] && Sorted(Build(s, p)) && StackOk(g, Build(s, p)) && Shape(g, Build(s, p))
  {
    var r, c := Build(s, p), PoppedTo(s.stack, p);
    BuildShape(g, s, p);
    PoppedExactly(g, s, base, p);
    EmittedMore(s, c, r);
    assert r.stack == s.stack[..base];
    assert forall k :: Indexed(r, k) <==> Indexed(s, k);
    forall k | k in c ensures Indexed(r, k) {
      var j :| 0 <= j < |s.stack| && s.stack[j] == k;
    }
    forall i: nat, j: nat | i < j < |r.stack| ensures Ascends(r, i, j) {
      assert Ascends(s, i, j);
    }
    forall i, j | 0 <= i <= j < |r.stack| ensures Reach(g, r.stack[i], r.stack[j]) {
      assert Reach(g, s.stack[i], s.stack[j]);
    }
  }

  lemma EmittedComponents(g: Successors, emitted: seq<seq<int>>, c: seq<int>, all: seq<seq<int>>)
    requires (forall i {:trigger emitted[i]} :: 0 <= i < |emitted| ==> IsComponent(g, Keys(emitted[i]))) && IsComponent(g, Keys(c))
    requires all == emitted + [c]
    ensures forall i {:trigger all[i]} :: 0 <= i < |all| ==> IsComponent(g, Keys(all[i]))
  {
  }

  lemma GrayRest(g: Successors, s: TarjanState, gray: set<int>, base: nat, p: int)
    requires Inv(g, s, gray) && OnTop(g, s, gray, base, p)
    ensures forall x :: x in gray - {p} ==> x in s.stack[..base]
  {
    forall x | x in gray - {p} ensures x in s.stack[..base] {
      var j :| 0 <= j < |s.stack| && s.stack[j] == x;
      assert j < base;
    }
  }

  /** The component of p is emitted. */
  lemma EmitOk(g: Successors, s: TarjanState, gray: set<int>, base: nat, p: int)
    requires 0 <= p < |g| && Exploring(g, s, gray, base, p, g[p]) && s.low[p] == s.index[p]
    ensures Inv(g, Build(s, p), gray - {p}) && Build(s, p).stack == s.stack[..base]
  {
    var r := Build(s, p);
    PoppedComponent(g, s, gray, base, p);
    SortedRest(g, s, base, p);
    ExploredClosed(g, s, gray, base, p);
    forall y | y in r.stack ensures Anchored(g, r, gray - {p}, y) {
      AnchoredRest(g, s, gray, base, p, r, y);
    }
    forall k | Indexed(r, k) && k !in gray - {p} ensures Closed(g, r, k) {
      assert Indexed(s, k) && Closed(g, s, k);
    }
    GrayRest(g, s, gray, base, p);
    EmittedComponents(g, s.emitted, PoppedTo(s.stack, p), r.emitted);
  }

  lemma EmittedMore(s: TarjanState, c: seq<int>, r: TarjanState)
    requires r.emitted == s.emitted + [c]
    ensures forall k :: Emitted(r, k) <==> Emitted(s, k) || k in c
  {
    forall k ensures Emitted(r, k) <==> Emitted(s, k) || k in c {
      if Emitted(s, k) {
        var i :| 0 <= i < |s.emitted| && k in s.emitted[i];
        assert r.emitted[i] == s.emitted[i];
      }
      if k in c {
        assert r.emitted[|s.emitted|] == c;
      }
    }
  }

  // ----- the search as a whole

  /** Nothing but low[p] has changed for the keys found before. */
  ghost predicate OnlyLow(s: TarjanState, r: TarjanState, p: int) {
    && Grows(s, r) && s.emitted <= r.emitted && |s.low| == |s.index| && |r.low| == |r.index|
    && forall k {:trigger r.low[k]} :: Indexed(s, k) && k != p ==> r.low[k] == s.low[k]
  }

  lemma StackReachesNext(g: Successors, s: TarjanState, gray: set<int>, base: nat, p: int, done: seq<int>, q: int)
    requires ValidGraph(g) && Exploring(g, s, gray, base, p, done) && IsEdge(g, p, q)
    ensures forall x :: x in s.stack ==> Reach(g, x, q)
  {
    forall x | x in s.stack ensures Reach(g, x, q) {
      StackReaches(g, s, gray, base, p, x);
      ReachEdge(g, p, q);
      ReachTrans(g, x, p, q);
    }
  }

  lemma {:induction false} HandleOk(g: Successors, p: int, q: int, done: seq<int>, s: TarjanState, gray: set<int>, base: nat)
    requires ValidGraph(g) && Exploring(g, s, gray, base, p, done) && IsEdge(g, p, q) && 0 <= q < |g|
    ensures Exploring(g, Handle(g, p, q, s), gray, base, p, done + [q]) && OnlyLow(s, Handle(g, p, q, s), p)
    decreases |White(s)|, 1
  {
    if s.index[q] == NO_INDEX {
      StackReachesNext(g, s, gray, base, p, done, q);
      VisitOk(g, q, s, gray);
      FoundOk(g, s, gray, base, p, done, q, Visit(g, q, g[q], s));
    } else if q in s.stack {
      OnStackOk(g, s, gray, base, p, done, q);
    } else {
      OffStackOk(g, s, gray, base, p, done, q);
    }
  }

  lemma OnlyLowTransitive(s: TarjanState, s1: TarjanState, r: TarjanState, p: int)
    requires OnlyLow(s, s1, p) && OnlyLow(s1, r, p)
    ensures OnlyLow(s, r, p)
  {
    assert forall k :: Indexed(s, k) ==> Indexed(s1, k);
  }

  lemma Consecutive(a: seq<int>, b: seq<int>, c: seq<int>)
    requires a + b == c && b != []
    ensures a + [b[0]] + b[1..] == c && b[0] in c
  {
    assert c[|a|] == b[0];
  }

  lemma {:induction false} HandleAllOk(g: Successors, p: int, qs: seq<int>, done: seq<int>, s: TarjanState, gray: set<int>, base: nat)
    requires ValidGraph(g) && Exploring(g, s, gray, base, p, done) && done + qs == g[p]
    ensures AreKeys(g, qs) && Exploring(g, HandleAll(g, p, qs, s), gray, base, p, g[p]) && OnlyLow(s, HandleAll(g, p, qs, s), p)
    decreases |White(s)|, 2 + |qs|
  {
    assert AreKeys(g, g[p]);
    assert forall i :: 0 <= i < |qs| ==> qs[i] == g[p][|done| + i];
    if qs == [] {
      assert done == g[p];
    } else {
      Consecutive(done, qs, g[p]);
      var s1 := Handle(g, p, qs[0], s);
      HandleOk(g, p, qs[0], done, s, gray, base);
      FewerWhite(s, s1);
      HandleAllOk(g, p, qs[1..], done + [qs[0]], s1, gray, base);
      OnlyLowTransitive(s, s1, HandleAll(g, p, qs[1..], s1), p);
    }
  }

  /** A visit keeps the invariant, and passes on the lowest index that is reached. */
  lemma {:induction false} VisitOk(g: Successors, p: int, s: TarjanState, gray: set<int>)
    requires ValidGraph(g) && Inv(g, s, gray) && 0 <= p < |g| && s.index[p] == NO_INDEX
    requires forall x :: x in s.stack ==> Reach(g, x, p)
    ensures Inv(g, Visit(g, p, g[p], s), gray) && Visited(g, s, Visit(g, p, g[p], s), p)
    decreases |White(s)|, 0
  {
    SetupGrows(g, s, p);
    var s1, gray' := Setup(s, p), gray + {p};
    SetupOk(g, p, s, gray);
    HandleAllOk(g, p, g[p], [], s1, gray', |s.stack|);
    var s2 := HandleAll(g, p, g[p], s1);
    assert p !in s.stack && p !in gray by {
      assert p in s.stack ==> Indexed(s, p);
    }
    assert gray' - {p} == gray;
    BuildOk(g, s, s2, gray', p);
  }

  lemma BuildOk(g: Successors, s: TarjanState, s2: TarjanState, gray: set<int>, p: int)
    requires Shape(g, s) && 0 <= p < |g| && s.index[p] == NO_INDEX && s.currIndex >= 0
    requires Exploring(g, s2, gray, |s.stack|, p, g[p]) && OnlyLow(Setup(s, p), s2, p)
    ensures Inv(g, Build(s2, p), gray - {p}) && Visited(g, s, Build(s2, p), p)
  {
    var base := |s.stack|;
    var r := Build(s2, p);
    SetupGrows(g, s, p);
    assert s2.stack[base] == p && Indexed(Setup(s, p), p);
    assert s.stack == s2.stack[..base];
    assert forall k :: Indexed(s, k) ==> Indexed(Setup(s, p), k) && k != p;
    if s2.low[p] == s2.index[p] {
      EmitOk(g, s2, gray, base, p);
      NotBelow(g, s2, base, base);
    } else {
      StayOk(g, s2, gray, base, p);
    }
  }
}
