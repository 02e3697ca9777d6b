/** The components of the edge keys of a road network, as the search edge by edge finds them.
    The backward key of an edge is searched from the wrong end of the edge; what that costs. */
module EdgeComponents {
  import opened Counting
  import opened Connectivity
  import opened Tarjan

  /** Edges with their ends, for each node the keys of the edges that leave it, and the turns
      that are allowed from an edge onto an edge key. */
  datatype Network = Network(edges: seq<(int, int)>, leaving: seq<seq<int>>, allowed: (int, int) -> bool) {
    ghost predicate Valid() {
      && (forall e {:trigger edges[e]} :: 0 <= e < |edges| ==> 0 <= edges[e].0 < |leaving| && 0 <= edges[e].1 < |leaving|)
      && forall u {:trigger leaving[u]} :: 0 <= u < |leaving| ==> forall i :: 0 <= i < |leaving[u]| ==> 0 <= leaving[u][i] < 2 * |edges|
    }

    /** The node an edge key leads to. */
    function Head(key: int): int
      requires 0 <= key < 2 * |edges|
    {
      if key % 2 == 0 then edges[key / 2].1 else edges[key / 2].0
    }

    /** The keys among the given ones onto which a turn from the edge is allowed. */
    function Allowed(edge: int, keys: seq<int>): seq<int> {
      if keys == [] then [] else (if allowed(edge, keys[0]) then [keys[0]] else []) + Allowed(edge, keys[1..])
    }

    /** The keys that may follow the edge at the node. */
    function Next(edge: int, node: int): seq<int>
      requires 0 <= node < |leaving|
    {
      Allowed(edge, leaving[node])
    }

    ghost function Transitions(): Successors
      requires Valid()
    {
      seq(2 * |edges|, k requires 0 <= k < 2 * |edges| => Next(k / 2, Head(k)))
    }

    lemma {:induction false} AllowedKeys(edge: int, keys: seq<int>)
      ensures forall k :: k in Allowed(edge, keys) <==> k in keys && allowed(edge, k)
    {
      if keys != [] {
        AllowedKeys(edge, keys[1..]);
      }
    }

    lemma TransitionsOk()
      requires Valid()
      ensures ValidGraph(Transitions())
    {
      var g := Transitions();
      forall k | 0 <= k < |g| ensures AreKeys(g, g[k]) {
        AllowedKeys(k / 2, leaving[Head(k)]);
        forall i | 0 <= i < |g[k]| ensures 0 <= g[k][i] < |g| {
          assert g[k][i] in g[k];
        }
      }
    }
  }

  // ----- what a visit finds

  /** Only keys that p reaches are found. */
  ghost predicate FoundFrom(g: Successors, s: TarjanState, r: TarjanState, p: int) {
    forall k {:trigger Indexed(r, k)} :: Indexed(r, k) && !Indexed(s, k) ==> Reach(g, p, k)
  }

  lemma {:induction false} VisitFinds(g: Successors, p: int, s: TarjanState)
    requires ValidGraph(g) && Shape(g, s) && 0 <= p < |g| && s.index[p] == NO_INDEX && s.currIndex >= 0
    ensures FoundFrom(g, s, Visit(g, p, g[p], s), p)
    decreases |White(s)|, 0
  {
    SetupGrows(g, s, p);
    ReachSelf(g, p);
    HandleAllFinds(g, p, g[p], Setup(s, p));
    var s2 := HandleAll(g, p, g[p], Setup(s, p));
    forall k | Indexed(Visit(g, p, g[p], s), k) && !Indexed(s, k) ensures Reach(g, p, k) {
      assert Indexed(s2, k);
      assert Indexed(Setup(s, p), k) ==> k == p;
    }
  }

  lemma {:induction false} HandleAllFinds(g: Successors, p: int, qs: seq<int>, s: TarjanState)
    requires ValidGraph(g) && Shape(g, s) && Indexed(s, p) && s.currIndex >= 0 && AreKeys(g, qs)
    requires forall q :: q in qs ==> IsEdge(g, p, q)
    ensures FoundFrom(g, s, HandleAll(g, p, qs, s), p)
    decreases |White(s)|, 2 + |qs|
  {
    if qs != [] {
      var q, s1 := qs[0], Handle(g, p, qs[0], s);
      assert q in qs;
      if s.index[q] == NO_INDEX {
        VisitFinds(g, q, s);
        var s2 := Visit(g, q, g[q], s);
        forall k | Indexed(s1, k) && !Indexed(s, k) ensures Reach(g, p, k) {
          assert Indexed(s2, k);
          ReachEdge(g, p, q);
          ReachTrans(g, p, q, k);
        }
      }
      FewerWhite(s, s1);
      HandleAllFinds(g, p, qs[1..], s1);
      assert forall k :: Indexed(s, k) ==> Indexed(s1, k);
    }
  }

  /** Keys that were found before take no part in a visit, so it does not matter what follows them. */
  lemma {:induction false} VisitCut(g: Successors, cut: set<int>, p: int, next: seq<int>, s: TarjanState)
    requires ValidGraph(g) && ValidGraph(Cut(g, cut)) && Shape(g, s) && Shape(Cut(g, cut), s)
    requires 0 <= p < |g| && s.index[p] == NO_INDEX && s.currIndex >= 0
    requires AreKeys(g, next) && AreKeys(Cut(g, cut), next) && forall c :: c in cut ==> Indexed(s, c)
    ensures Visit(g, p, next, s) == Visit(Cut(g, cut), p, next, s)
    decreases |White(s)|, 0
  {
    SetupGrows(g, s, p);
    SetupGrows(Cut(g, cut), s, p);
    assert forall c :: c in cut ==> Indexed(Setup(s, p), c);
    HandleAllCut(g, cut, p, next, Setup(s, p));
  }

  lemma {:induction false} HandleAllCut(g: Successors, cut: set<int>, p: int, qs: seq<int>, s: TarjanState)
    requires ValidGraph(g) && ValidGraph(Cut(g, cut)) && Shape(g, s) && Shape(Cut(g, cut), s)
    requires Indexed(s, p) && s.currIndex >= 0
    requires AreKeys(g, qs) && AreKeys(Cut(g, cut), qs) && forall c :: c in cut ==> Indexed(s, c)
    ensures HandleAll(g, p, qs, s) == HandleAll(Cut(g, cut), p, qs, s)
    decreases |White(s)|, 2 + |qs|
  {
    if qs != [] {
      var q, s1 := qs[0], Handle(g, p, qs[0], s);
      if s.index[q] == NO_INDEX {
        assert q !in cut;
        VisitCut(g, cut, q, g[q], s);
      }
      FewerWhite(s, s1);
      assert forall c :: c in cut ==> Indexed(s1, c);
      HandleAllCut(g, cut, p, qs[1..], s1);
    }
  }

  lemma CutValid(g: Successors, cut: set<int>)
    requires ValidGraph(g)
    ensures ValidGraph(Cut(g, cut))
  {
    forall x | 0 <= x < |g| ensures AreKeys(Cut(g, cut), Cut(g, cut)[x]) {
      assert AreKeys(g, g[x]);
    }
  }

  /** Successors that were found before and are off the stack are passed over. */
  lemma {:induction false} HandleAllIdle(g: Successors, p: int, qs: seq<int>, s: TarjanState)
    requires ValidGraph(g) && Shape(g, s) && Indexed(s, p) && s.currIndex >= 0 && AreKeys(g, qs)
    requires forall q :: q in qs ==> Indexed(s, q) && q !in s.stack
    ensures HandleAll(g, p, qs, s) == s
    decreases |qs|
  {
    if qs != [] {
      assert qs[0] in qs;
      HandleAllIdle(g, p, qs[1..], s);
    }
  }

  // ----- edge by edge

  function Fwd(e: int): int { 2 * e }
  function Bwd(e: int): int { 2 * e + 1 }

  function Initial(n: nat): TarjanState {
    TarjanState(seq(n, _ => NO_INDEX), seq(n, _ => NO_INDEX), [], 0, [])
  }

  /** The keys of an edge are searched, if they were not found before: both from the node the
      forward key leads to. */
  function SearchEdge(g: Successors, e: nat, s: TarjanState): (r: TarjanState)
    requires ValidGraph(g) && Shape(g, s) && s.currIndex >= 0 && 2 * e + 1 < |g|
    ensures Shape(g, r) && r.currIndex >= 0 && Indexed(r, Fwd(e)) && Indexed(r, Bwd(e)) && (Counted(s) ==> Counted(r)) && Grows(s, r)
  {
    var s1 := if s.index[Fwd(e)] == NO_INDEX then Visit(g, Fwd(e), g[Fwd(e)], s) else s;
    if s1.index[Bwd(e)] == NO_INDEX then Visit(g, Bwd(e), g[Fwd(e)], s1) else s1
  }

  function SearchTo(g: Successors, e: nat): (r: TarjanState)
    requires ValidGraph(g) && 2 * e <= |g|
    ensures Shape(g, r) && r.currIndex >= 0
  {
    if e == 0 then Initial(|g|) else SearchEdge(g, e - 1, SearchTo(g, e - 1))
  }

  /** Some forward key among those of the first e edges reaches k past the cut keys. */
  ghost predicate RootReaches(g: Successors, cut: set<int>, e: nat, k: int) {
    exists e' :: 0 <= e' < e && Reach(Cut(g, cut), Fwd(e'), k)
  }

  /** The backward keys that no forward search before them finds. */
  ghost function Leftovers(g: Successors, e: nat): set<int> {
    if e == 0 then {} else
    var before := Leftovers(g, e - 1);
    if RootReaches(g, before, e, Bwd(e - 1)) then before else before + {Bwd(e - 1)}
  }

  /** After e edges, what the first e forward keys reach is found and sorted into components,
      except that nothing was searched from the leftover keys. */
  ghost predicate SearchInv(g: Successors, e: nat, cut: set<int>, s: TarjanState) {
    && Inv(Cut(g, cut), s, {}) && s.stack == [] && Counted(s) && Shape(g, s)
    && BackwardKeys(cut, e) && FoundIs(g, e, cut, s)
  }

  ghost predicate BackwardKeys(cut: set<int>, e: nat) {
    forall k {:trigger k in cut} :: k in cut ==> 0 <= k < 2 * e && k % 2 == 1
  }

  ghost predicate FoundIs(g: Successors, e: nat, cut: set<int>, s: TarjanState) {
    forall k {:trigger RootReaches(g, cut, e, k)} {:trigger Indexed(s, k)} :: Indexed(s, k) <==> RootReaches(g, cut, e, k) || k in cut
  }

  lemma EmptyStack(g: Successors, s: TarjanState)
    requires Inv(g, s, {})
    ensures s.stack == []
  {
    forall y ensures y !in s.stack {
      assert !Anchored(g, s, {}, y);
    }
    if s.stack != [] {
      var y := AnElement(s.stack);
    }
  }

  lemma AnElement(ks: seq<int>) returns (k: int)
    requires ks != []
    ensures k in ks
  {
    k := ks[0];
  }

  /** What a found key reaches is found. */
  lemma {:induction false} FoundPath(g: Successors, s: TarjanState, x: int, p: seq<int>, y: int)
    requires Inv(g, s, {}) && Indexed(s, x) && IsPath(g, x, p, y)
    ensures Indexed(s, y)
    decreases |p|
  {
    if p != [] {
      assert Closed(g, s, x);
      FoundPath(g, s, p[0], p[1..], y);
    }
  }

  lemma FoundReach(g: Successors, s: TarjanState, x: int, y: int)
    requires Inv(g, s, {}) && Indexed(s, x) && Reach(g, x, y)
    ensures Indexed(s, y)
  {
    var p :| IsPath(g, x, p, y);
    FoundPath(g, s, x, p, y);
  }

  /** The forward key of edge e finds what it reaches. */
  lemma ForwardOk(g: Successors, e: nat, cut: set<int>, s: TarjanState, s1: TarjanState)
    requires ValidGraph(g) && SearchInv(g, e, cut, s) && 2 * e + 1 < |g|
    requires s1 == if s.index[Fwd(e)] == NO_INDEX then Visit(g, Fwd(e), g[Fwd(e)], s) else s
    ensures SearchInv(g, e + 1, cut, s1) && Indexed(s1, Fwd(e))
  {
    var gc := Cut(g, cut);
    CutValid(g, cut);
    ReachSelf(gc, Fwd(e));
    if s.index[Fwd(e)] == NO_INDEX {
      assert Fwd(e) !in cut;
      VisitCut(g, cut, Fwd(e), g[Fwd(e)], s);
      VisitOk(gc, Fwd(e), s, {});
      VisitFinds(gc, Fwd(e), s);
    }
    EmptyStack(gc, s1);
    ForwardFound(g, e, cut, s, s1);
  }

  lemma ForwardFound(g: Successors, e: nat, cut: set<int>, s: TarjanState, s1: TarjanState)
    requires FoundIs(g, e, cut, s) && Inv(Cut(g, cut), s1, {}) && Indexed(s1, Fwd(e)) && Grows(s, s1)
    requires s1 == s || FoundFrom(Cut(g, cut), s, s1, Fwd(e))
    requires RootReaches(g, cut, e + 1, Fwd(e))
    ensures FoundIs(g, e + 1, cut, s1)
  {
    var gc, e1 := Cut(g, cut), e + 1;
    forall k ensures Indexed(s1, k) <==> RootReaches(g, cut, e1, k) || k in cut {
      if Indexed(s, k) && RootReaches(g, cut, e, k) {
        var e' :| 0 <= e' < e && Reach(gc, Fwd(e'), k);
        assert e' < e1;
      } else if Indexed(s1, k) && !Indexed(s, k) {
        assert Reach(gc, Fwd(e), k) && e < e1;
      }
      if k in cut {
        assert Indexed(s, k);
      }
      if RootReaches(g, cut, e1, k) {
        var e' :| 0 <= e' < e1 && Reach(gc, Fwd(e'), k);
        if e' < e {
          ReachSelf(gc, Fwd(e'));
          assert RootReaches(g, cut, e, Fwd(e'));
          assert Indexed(s, Fwd(e'));
        }
        FoundReach(gc, s1, Fwd(e'), k);
      }
    }
  }

  lemma CutTwice(g: Successors, cut: set<int>, b: int)
    ensures Cut(Cut(g, cut), {b}) == Cut(g, cut + {b})
  {
  }

  /** Cutting a key that is not found changes nothing for those that are. */
  lemma FoundUncut(g: Successors, s: TarjanState, b: int, x: int, y: int)
    requires Inv(g, s, {}) && Indexed(s, x) && !Indexed(s, b)
    ensures Reach(Cut(g, {b}), x, y) <==> Reach(g, x, y)
  {
    if Reach(Cut(g, {b}), x, y) {
      ReachInCut(g, {b}, x, y);
    } else if Reach(g, x, y) {
      var p :| IsPath(g, x, p, y);
      var c := PathToCut(g, {b}, x, p, y);
      FoundReach(g, s, x, c);
    }
  }

  lemma CutLater(g: Successors, s: TarjanState, b: int)
    requires Inv(g, s, {}) && 0 <= b < |g| && !Indexed(s, b)
    ensures Inv(Cut(g, {b}), s, {})
  {
    var h := Cut(g, {b});
    EmptyStack(g, s);
    forall k | Indexed(s, k) ensures Closed(h, s, k) {
      assert Closed(g, s, k);
    }
    forall i | 0 <= i < |s.emitted| ensures IsComponent(h, Keys(s.emitted[i])) {
      forall x, y | x in Keys(s.emitted[i]) ensures Mutual(h, x, y) <==> y in Keys(s.emitted[i]) {
        assert Emitted(s, x) && Indexed(s, x);
        FoundUncut(g, s, b, x, y);
        assert Mutual(g, x, y) <==> y in Keys(s.emitted[i]);
        if Reach(g, x, y) {
          FoundReach(g, s, x, y);
          FoundUncut(g, s, b, y, x);
        }
      }
    }
  }

  /** A leftover backward key comes out as a component by itself: the search starts at the
      wrong end of its edge, where everything is found and sorted already. */
  lemma LeftoverVisit(g: Successors, e: nat, cut: set<int>, s: TarjanState)
    requires ValidGraph(g) && SearchInv(g, e + 1, cut, s) && 2 * e + 1 < |g| && Indexed(s, Fwd(e)) && !Indexed(s, Bwd(e))
    ensures ValidGraph(Cut(g, cut + {Bwd(e)})) && Shape(Cut(g, cut + {Bwd(e)}), s)
    ensures Visit(g, Bwd(e), g[Fwd(e)], s) == Visit(Cut(g, cut + {Bwd(e)}), Bwd(e), [], s)
    ensures Visit(g, Bwd(e), g[Fwd(e)], s).index == s.index[Bwd(e) := s.currIndex]
  {
    var b := Bwd(e);
    CutValid(g, cut);
    CutValid(g, cut + {b});
    SetupGrows(g, s, b);
    assert Fwd(e) !in cut;
    assert Closed(Cut(g, cut), s, Fwd(e));
    forall q | q in g[Fwd(e)] ensures Indexed(Setup(s, b), q) && q !in Setup(s, b).stack {
      assert IsEdge(Cut(g, cut), Fwd(e), q) && Indexed(s, q);
    }
    HandleAllIdle(g, b, g[Fwd(e)], Setup(s, b));
  }

  lemma BackwardOk(g: Successors, e: nat, cut: set<int>, s: TarjanState)
    requires ValidGraph(g) && SearchInv(g, e + 1, cut, s) && 2 * e + 1 < |g| && Indexed(s, Fwd(e)) && !Indexed(s, Bwd(e))
    ensures SearchInv(g, e + 1, cut + {Bwd(e)}, Visit(g, Bwd(e), g[Fwd(e)], s))
  {
    var b, e1 := Bwd(e), e + 1;
    var gc, cut' := Cut(g, cut), cut + {b};
    var gd, r := Cut(g, cut'), Visit(g, b, g[Fwd(e)], s);
    LeftoverVisit(g, e, cut, s);
    CutTwice(g, cut, b);
    CutLater(gc, s, b);
    LeftoverSorted(gd, b, s, r);
    BackwardFound(g, e1, cut, s, b, r);
    OneMoreKey(cut, e);
  }

  lemma OneMoreKey(cut: set<int>, e: nat)
    requires BackwardKeys(cut, e + 1)
    ensures BackwardKeys(cut + {Bwd(e)}, e + 1)
  {
  }

  lemma LeftoverSorted(g: Successors, b: int, s: TarjanState, r: TarjanState)
    requires ValidGraph(g) && Inv(g, s, {}) && 0 <= b < |g| && s.index[b] == NO_INDEX && g[b] == []
    requires r == Visit(g, b, [], s)
    ensures Inv(g, r, {}) && r.stack == []
  {
    EmptyStack(g, s);
    assert r == Visit(g, b, g[b], s);
    VisitOk(g, b, s, {});
    EmptyStack(g, r);
  }

  lemma BackwardFound(g: Successors, e: nat, cut: set<int>, s: TarjanState, b: int, r: TarjanState)
    requires FoundIs(g, e, cut, s) && Inv(Cut(g, cut), s, {}) && 0 <= b < |g| && !Indexed(s, b)
    requires forall k :: Indexed(r, k) <==> Indexed(s, k) || k == b
    ensures FoundIs(g, e, cut + {b}, r)
  {
    var gc, cut' := Cut(g, cut), cut + {b};
    CutTwice(g, cut, b);
    forall k ensures Indexed(r, k) <==> RootReaches(g, cut', e, k) || k in cut' {
      if RootReaches(g, cut, e, k) {
        var e' :| 0 <= e' < e && Reach(gc, Fwd(e'), k);
        RootFound(g, cut, e, s, e');
        FoundUncut(gc, s, b, Fwd(e'), k);
      }
      if RootReaches(g, cut', e, k) {
        var e' :| 0 <= e' < e && Reach(Cut(g, cut'), Fwd(e'), k);
        ReachInCut(gc, {b}, Fwd(e'), k);
      }
    }
  }

  lemma RootFound(g: Successors, cut: set<int>, e: nat, s: TarjanState, e': nat)
    requires FoundIs(g, e, cut, s) && e' < e
    ensures Indexed(s, Fwd(e'))
  {
    ReachSelf(Cut(g, cut), Fwd(e'));
    assert RootReaches(g, cut, e, Fwd(e'));
  }

  lemma SearchEdgeOk(g: Successors, e: nat, cut: set<int>, s: TarjanState)
    requires ValidGraph(g) && SearchInv(g, e, cut, s) && 2 * e + 1 < |g|
    ensures SearchInv(g, e + 1, if RootReaches(g, cut, e + 1, Bwd(e)) then cut else cut + {Bwd(e)}, SearchEdge(g, e, s))
  {
    var s1 := if s.index[Fwd(e)] == NO_INDEX then Visit(g, Fwd(e), g[Fwd(e)], s) else s;
    ForwardOk(g, e, cut, s, s1);
    assert Bwd(e) !in cut;
    assert Indexed(s1, Bwd(e)) <==> RootReaches(g, cut, e + 1, Bwd(e));
    if s1.index[Bwd(e)] == NO_INDEX {
      BackwardOk(g, e, cut, s1);
    }
  }

  lemma OneMoreEdge(g: Successors, e: nat)
    requires ValidGraph(g) && 2 * e + 1 < |g|
    ensures SearchTo(g, e + 1) == SearchEdge(g, e, SearchTo(g, e))
    ensures Leftovers(g, e + 1) == if RootReaches(g, Leftovers(g, e), e + 1, Bwd(e)) then Leftovers(g, e) else Leftovers(g, e) + {Bwd(e)}
  {
  }

  lemma {:induction false} SearchToOk(g: Successors, e: nat)
    requires ValidGraph(g) && 2 * e <= |g|
    ensures SearchInv(g, e, Leftovers(g, e), SearchTo(g, e))
  {
    if e == 0 {
      InitialOk(g);
    } else {
      var e0, before := e - 1, Leftovers(g, e - 1);
      SearchToOk(g, e0);
      SearchEdgeOk(g, e0, before, SearchTo(g, e0));
      OneMoreEdge(g, e0);
    }
  }

  lemma InitialOk(g: Successors)
    ensures SearchInv(g, 0, {}, Initial(|g|))
  {
    var s := Initial(|g|);
    InitialWhite(|g|);
    assert forall k :: !Emitted(s, k);
  }

  lemma InitialWhite(n: nat)
    ensures |White(Initial(n))| == n
  {
    if n > 0 {
      InitialWhite(n - 1);
      assert White(Initial(n)) == White(Initial(n - 1)) + {n - 1};
    }
  }

  // ----- the components found

  /** The emitted lists are exactly the components of g: every key is in one of them, and each
      of them lists one component. */
  ghost predicate AreComponents(g: Successors, emitted: seq<seq<int>>) {
    && (forall k {:trigger Listed(emitted, k)} :: 0 <= k < |g| ==> Listed(emitted, k))
    && (forall i {:trigger emitted[i]} :: 0 <= i < |emitted| ==> AreKeys(g, emitted[i]) && IsComponent(g, Keys(emitted[i])))
    && Total(emitted) == |g|
  }

  /** The whole search lists the components of the transitions, but for those out of leftover
      keys. */
  lemma SearchFinds(g: Successors, e: nat)
    requires ValidGraph(g) && |g| == 2 * e
    ensures AreComponents(Cut(g, Leftovers(g, e)), SearchTo(g, e).emitted)
  {
    SearchToOk(g, e);
    var s := SearchTo(g, e);
    AllFound(g, e);
    forall k | 0 <= k < |g| ensures Listed(s.emitted, k) && k !in White(s) {
      assert Indexed(s, k) && Emitted(s, k);
    }
    assert White(s) == {};
    forall i, j | 0 <= i < |s.emitted| && 0 <= j < |s.emitted[i]| ensures 0 <= s.emitted[i][j] < |g| {
      assert s.emitted[i][j] in s.emitted[i];
      assert Emitted(s, s.emitted[i][j]);
    }
  }

  lemma {:induction false} AllFound(g: Successors, e: nat)
    requires ValidGraph(g) && 2 * e <= |g|
    ensures forall k :: 0 <= k < 2 * e ==> Indexed(SearchTo(g, e), k)
  {
    if e > 0 {
      AllFound(g, e - 1);
      var s := SearchTo(g, e - 1);
      forall k | 0 <= k < 2 * e ensures Indexed(SearchTo(g, e), k) {
        assert k == Fwd(e - 1) || k == Bwd(e - 1) || Indexed(s, k);
      }
    }
  }

  lemma LeftoversAreKeys(g: Successors, e: nat)
    ensures forall k :: k in Leftovers(g, e) ==> 0 <= k < 2 * e && k % 2 == 1
  {
  }

  /** The search lists the components of the transitions exactly when every leftover backward
      key is a component by itself. */
  lemma SearchExact(g: Successors, e: nat)
    requires ValidGraph(g) && |g| == 2 * e
    ensures AreComponents(g, SearchTo(g, e).emitted) <==> forall k :: k in Leftovers(g, e) ==> Alone(g, k)
  {
    var cut, emitted := Leftovers(g, e), SearchTo(g, e).emitted;
    var h := Cut(g, cut);
    SearchFinds(g, e);
    LeftoversAreKeys(g, e);
    CutComponents(g, cut);
    if AreComponents(g, emitted) {
      SameLists(g, h, emitted);
    }
    if SameComponents(h, g) {
      forall i | 0 <= i < |emitted| ensures IsComponent(g, Keys(emitted[i])) {
        SameComponent(g, h, Keys(emitted[i]));
      }
    }
  }

  lemma SameComponent(g: Successors, h: Successors, c: set<int>)
    requires SameComponents(h, g) && IsComponent(h, c)
    ensures IsComponent(g, c)
  {
    forall x, y | x in c ensures Mutual(g, x, y) <==> y in c {
      assert Mutual(h, x, y) <==> Mutual(g, x, y);
    }
  }

  /** Graphs on the same keys with the same lists of components have the same components. */
  lemma SameLists(g: Successors, h: Successors, emitted: seq<seq<int>>)
    requires AreComponents(g, emitted) && AreComponents(h, emitted) && |g| == |h|
    ensures SameComponents(h, g)
  {
    forall x, y ensures Mutual(h, x, y) <==> Mutual(g, x, y) {
      if 0 <= x < |g| {
        assert Listed(emitted, x);
        var i :| 0 <= i < |emitted| && x in emitted[i];
        assert IsComponent(g, Keys(emitted[i])) && IsComponent(h, Keys(emitted[i])) && x in Keys(emitted[i]);
      } else {
        NoKeyNoEdge(g, x, y);
        NoKeyNoEdge(h, x, y);
      }
    }
  }

  lemma NoKeyNoEdge(g: Successors, x: int, y: int)
    requires !(0 <= x < |g|)
    ensures Mutual(g, x, y) <==> x == y
  {
    ReachSelf(g, x);
    if Reach(g, x, y) {
      var p :| IsPath(g, x, p, y);
      NoWayOut(g, x, p, y);
    }
  }

  lemma NoWayOut(g: Successors, x: int, p: seq<int>, y: int)
    requires !(0 <= x < |g|) && IsPath(g, x, p, y)
    ensures x == y
  {
  }

  /** If a turn onto a key implies that the u-turn onto it is allowed, every leftover key is one
      that no turn leads onto, and so the search is exact. */
  lemma UTurnsSuffice(g: Successors, e: nat)
    requires ValidGraph(g) && |g| == 2 * e && UTurnsAllowed(g)
    ensures AreComponents(g, SearchTo(g, e).emitted)
    ensures forall k :: k in Leftovers(g, e) ==> Alone(g, k)
  {
    forall k, y | k in Leftovers(g, e) && Mutual(g, k, y) ensures y == k {
      LeftoverUnreached(g, e, k);
      LeftoversAreKeys(g, e);
      assert forall z :: !IsEdge(g, z, k);
      var p :| IsPath(g, y, p, k);
      LastEdge(g, y, p, k);
    }
    SearchExact(g, e);
  }

  /** Where a turn leads onto a key, so does the u-turn from the opposite key. */
  ghost predicate UTurnsAllowed(g: Successors) {
    forall x, k :: IsEdge(g, x, k) ==> IsEdge(g, if k % 2 == 0 then k + 1 else k - 1, k)
  }

  lemma {:induction false} LastEdge(g: Successors, x: int, p: seq<int>, y: int)
    requires IsPath(g, x, p, y)
    ensures x == y || exists z :: IsEdge(g, z, y)
    decreases |p|
  {
    if p != [] {
      LastEdge(g, p[0], p[1..], y);
    }
  }

  lemma {:induction false} LeftoverUnreached(g: Successors, e: nat, k: int)
    requires k in Leftovers(g, e)
    ensures !IsEdge(g, k - 1, k)
  {
    var before := Leftovers(g, e - 1);
    if k in before {
      LeftoverUnreached(g, e - 1, k);
    } else if IsEdge(g, k - 1, k) {
      LeftoversAreKeys(g, e - 1);
      assert Fwd(e - 1) !in before;
      assert IsEdge(Cut(g, before), Fwd(e - 1), k);
      ReachEdge(Cut(g, before), Fwd(e - 1), k);
    }
  }
}
