/** Bidirectional node-based search with a balanced potential: Dijkstra when the
    potential is zero, A* otherwise. */
module BidirSearches {
  import opened Counting
  import opened Walks
  import opened SearchTrees
  import opened RoutingGraphs
  import opened Meetings
  import opened SearchRuns
  import opened Paths

  /** Estimates added to the heap weights of the two directions, and the offset of the stop test. */
  datatype Potential = Potential(forwardEstimate: int -> real, backwardEstimate: int -> real, stopOffset: real) {
    function Estimate(reverse: bool): int -> real {
      if reverse then backwardEstimate else forwardEstimate
    }

    /** The estimates of the two directions add up to the same constant everywhere, and no arc
        gets a negative reduced weight. */
    ghost predicate Fits(g: Adjacency, total: real) {
      && (forall v {:trigger forwardEstimate(v)} {:trigger backwardEstimate(v)} :: forwardEstimate(v) + backwardEstimate(v) == total)
      && (forall a :: a in Steps(g, false) ==> forwardEstimate(a.from) <= a.weight + forwardEstimate(a.to))
      && (forall a :: a in Steps(g, true) ==> backwardEstimate(a.from) <= a.weight + backwardEstimate(a.to))
    }
  }

  /** One direction ran dry, or the nodes popped last are too far apart. */
  predicate Stops(s: Search, stopOffset: real) {
    s.finishedFrom || s.finishedTo || (s.best.Meeting? && s.fwd.curr.weight + s.bwd.curr.weight >= s.best.total + stopOffset)
  }

  function EndsAt(graph: Adjacency, node: int): seq<HalfEdge> {
    if 0 <= node < |graph| then graph[node] else []
  }

  function PlainRules(graph: Adjacency, potential: Potential): Rules {
    Rules((u, reverse) => EndsAt(graph, u), potential.forwardEstimate, potential.backwardEstimate,
          (t, reverse) => false, s => Stops(s, potential.stopOffset))
  }

  /** What is searched. */
  datatype Request = Request(graph: Adjacency, from: int, to: int, potential: Potential) {
    function Rules(): Rules {
      PlainRules(graph, potential)
    }

    ghost predicate Valid(total: real) {
      ValidGraph(graph) && 0 <= from < |graph| && 0 <= to < |graph| && potential.Fits(graph, total)
    }

    ghost function Job(reverse: bool): Task {
      Task(Steps(graph, reverse), if reverse then to else from, potential.Estimate(reverse))
    }

    /** The search in direction reverse, seen first. */
    ghost predicate Facing(s: Search, hs: Histories, reverse: bool) {
      Duel(graph, Job(reverse), s.Tree(reverse), hs.Of(reverse), Job(!reverse), s.Tree(!reverse), hs.Of(!reverse), s.best, reverse)
    }

    ghost predicate Settles(s: Search, hs: Histories, reverse: bool) {
      hs.Of(reverse).expanded == hs.Of(reverse).settled && (s.Dry(reverse) ==> hs.Of(reverse).settled == s.Tree(reverse).best.Keys)
    }

    ghost predicate Sound(s: Search, hs: Histories) {
      Facing(s, hs, false) && Settles(s, hs, false) && Settles(s, hs, true)
    }

    lemma Opposite(s: Search, hs: Histories, reverse: bool)
      requires Facing(s, hs, reverse)
      ensures Facing(s, hs, !reverse)
    {
      DuelOpposite(graph, Job(reverse), s.Tree(reverse), hs.Of(reverse), Job(!reverse), s.Tree(!reverse), hs.Of(!reverse), s.best, reverse);
    }

    lemma StartSound(total: real)
      requires Valid(total)
      ensures Sound(Rules().Start(from, to), NOTHING_SETTLED)
    {
      StepsNonNegative(graph, false);
      StepsNonNegative(graph, true);
      DuelStart(graph, Job(false), Job(true), potential.forwardEstimate(from), potential.backwardEstimate(to));
    }

    lemma PopSound(s: Search, hs: Histories, reverse: bool, t: SearchTree) returns (hs': Histories)
      requires ValidGraph(graph) && Facing(s, hs, reverse) && Settles(s, hs, reverse) && Pops(s.Tree(reverse), t)
      ensures Facing(Rules().Expanded(s, reverse, t), hs', reverse) && Settles(Rules().Expanded(s, reverse, t), hs', reverse)
      ensures hs'.Of(!reverse) == hs.Of(!reverse)
      ensures t.curr.adjNode !in hs.Of(reverse).settled && hs'.Of(reverse).settled == hs.Of(reverse).settled + {t.curr.adjNode}
    {
      var k, ko, o, h := Job(reverse), Job(!reverse), s.Tree(!reverse), hs.Of(reverse);
      PopsOk(k, s.Tree(reverse), h, t);
      MeetingAfterPop(k, s.Tree(reverse), t, ko, o, s.best, reverse);
      var h1 := h.(settled := h.settled + {t.curr.adjNode});
      FillOk(graph, reverse, k, t, h1, ko, o, s.best);
      hs' := hs.With(reverse, h1.(expanded := h1.expanded + {t.curr.adjNode}));
    }

    /** Nodes that can still be settled, and directions that can still run dry. */
    ghost function Remaining(s: Search, hs: Histories): int {
      2 * |graph| - |hs.fwd.settled| - |hs.bwd.settled| + (if s.finishedFrom then 0 else 1) + (if s.finishedTo then 0 else 1)
    }

    lemma SettledBound(s: Search, hs: Histories)
      requires Sound(s, hs)
      ensures |hs.fwd.settled| <= |graph| && |hs.bwd.settled| <= |graph|
    {
      Bounded(hs.fwd.settled, |graph|);
      Bounded(hs.bwd.settled, |graph|);
    }

    lemma DrySound(s: Search, hs: Histories, reverse: bool, t: SearchTree)
      requires Facing(s, hs, reverse) && Settles(s, hs, reverse) && RunsDry(s.Tree(reverse), t)
      ensures var s' := s.With(reverse, t, s.best, true); Facing(s', hs, reverse) && Settles(s', hs, reverse)
    {
      DryOk(Job(reverse), s.Tree(reverse), hs.Of(reverse), t);
      MeetingAfterPop(Job(reverse), s.Tree(reverse), t, Job(!reverse), s.Tree(!reverse), s.best, reverse);
    }

    lemma StepSound(s: Search, hs: Histories, reverse: bool, s': Search) returns (hs': Histories)
      requires ValidGraph(graph) && Facing(s, hs, reverse) && Settles(s, hs, reverse) && Rules().Advances(s, reverse, s')
      ensures Facing(s', hs', reverse) && Settles(s', hs', reverse) && hs'.Of(!reverse) == hs.Of(!reverse)
      ensures |hs'.Of(reverse).settled| == |hs.Of(reverse).settled| + if s'.Dry(reverse) then 0 else 1
      ensures s' == s.With(reverse, s'.Tree(reverse), s'.best, s'.Dry(reverse))
    {
      var t :| Rules().AdvancesOver(s, reverse, t, s');
      if Pops(s.Tree(reverse), t) && s' == Rules().Expanded(s, reverse, t) {
        hs' := PopSound(s, hs, reverse, t);
      } else {
        hs' := hs;
        DrySound(s, hs, reverse, t);
      }
    }

    /** A step of one direction keeps all labels walks of their weights, everything settled
        expanded, and the best path no heavier than any two labels that meet. */
    lemma AdvanceSound(s: Search, hs: Histories, reverse: bool, s': Search) returns (hs': Histories)
      requires ValidGraph(graph) && Sound(s, hs) && !s.Dry(reverse) && Rules().Advances(s, reverse, s')
      ensures Sound(s', hs') && Remaining(s', hs') < Remaining(s, hs) && s'.Dry(!reverse) == s.Dry(!reverse)
    {
      if reverse {
        Opposite(s, hs, false);
      }
      hs' := StepSound(s, hs, reverse, s');
      if reverse {
        Opposite(s', hs', true);
      }
    }

    lemma TurnSound(s: Search, hs: Histories, reverse: bool, s': Search) returns (hs': Histories)
      requires ValidGraph(graph) && Sound(s, hs) && Rules().Turn(s, reverse, s')
      ensures Sound(s', hs')
    {
      hs' := hs;
      if !s.Dry(reverse) {
        hs' := AdvanceSound(s, hs, reverse, s');
      }
    }

    /** Every state of every run is sound. */
    lemma {:induction false} RunSound(total: real, run: seq<Search>, i: nat) returns (hs: Histories)
      requires Valid(total) && Rules().IsRun(from, to, run) && i < |run|
      ensures Sound(run[i], hs)
    {
      if i == 0 {
        StartSound(total);
        return NOTHING_SETTLED;
      }
      hs := RunSound(total, run, i - 1);
      assert Rules().Follows(run, i);
      var mid :| Rules().Round(run[i - 1], mid, run[i]);
      hs := TurnSound(run[i - 1], hs, false, mid);
      hs := TurnSound(mid, hs, true, run[i]);
    }

    /** The kept labels join to a walk of the best weight, and the best weight is the distance,
        if the stop test allows for the constant that the estimates add, or nothing was found. */
    ghost predicate Answered(m: Meeting, total: real) {
      && (m.NoMeeting? || potential.stopOffset >= total ==> IsDistance(Steps(graph, false), from, to, m.Weight()))
      && (m.Meeting? ==>
            && IsEnd(Job(false), m.fwd) && IsEnd(Job(true), m.bwd)
            && var p := m.fwd.Path() + Backwards(m.bwd.Path());
               IsWalk(Steps(graph, false), from, to, p) && Length(p) == m.total)
    }

    /** When the search stops, no walk is lighter than the best path. */
    lemma NoneLighter(s: Search, hs: Histories, total: real, p: Walk)
      requires Valid(total) && Sound(s, hs) && Stops(s, potential.stopOffset)
      requires s.best.NoMeeting? || potential.stopOffset >= total
      requires IsWalk(Steps(graph, false), from, to, p)
      ensures s.best.Meeting? && s.best.total <= Length(p)
    {
      var k, ko := Job(false), Job(true);
      if s.finishedFrom {
        ExhaustedBound(k, s.fwd, hs.fwd, ko, s.bwd, s.best, false, p);
      } else if s.finishedTo {
        StepsReversed(graph, false);
        WalkBackwards(k.graph, from, to, p);
        MeetingOkOpposite(k, s.fwd, ko, s.bwd, s.best, false);
        ExhaustedBound(ko, s.bwd, hs.bwd, k, s.fwd, s.best, true, Backwards(p));
      } else {
        StopBound(graph, k, s.fwd, hs.fwd, ko, s.bwd, hs.bwd, s.best, false, total, p);
      }
    }

    /** When the search stops, its best weight is the distance from source to target. */
    lemma StopsAtDistance(s: Search, hs: Histories, total: real)
      requires Valid(total) && Sound(s, hs) && Stops(s, potential.stopOffset)
      ensures Answered(s.best, total)
    {
      if s.best.NoMeeting? || potential.stopOffset >= total {
        forall p | IsWalk(Steps(graph, false), from, to, p) ensures s.best.Meeting? && s.best.total <= Length(p) {
          NoneLighter(s, hs, total, p);
        }
      }
      if s.best.Meeting? {
        MeetingWalk(graph, Job(false), s.fwd, Job(true), s.bwd, s.best);
      }
    }

    /** Every run that ends has the answer. */
    lemma OutcomeAnswers(m: Meeting, total: real)
      requires Valid(total) && Rules().Outcome(from, to, m)
      ensures Answered(m, total)
    {
      var run: seq<Search> :| Rules().IsRun(from, to, run) && |run| > 1 && Rules().stops(run[|run| - 1]) && run[|run| - 1].best == m;
      var hs := RunSound(total, run, |run| - 1);
      StopsAtDistance(run[|run| - 1], hs, total);
    }
  }

  class BidirSearch {
    const request: Request
    ghost const total: real

    var fwd: SearchTree
    var bwd: SearchTree
    var best: Meeting
    var finishedFrom: bool
    var finishedTo: bool
    ghost var histories: Histories

    function State(): Search
      reads this
    {
      Search(fwd, bwd, best, finishedFrom, finishedTo)
    }

    ghost predicate Valid()
      reads this
    {
      request.Valid(total) && request.Sound(State(), histories)
    }

    constructor (request: Request, ghost total: real)
      requires request.Valid(total)
      ensures Valid() && this.request == request && this.total == total
      ensures State() == request.Rules().Start(request.from, request.to)
    {
      this.request, this.total := request, total;
      var start := request.Rules().Start(request.from, request.to);
      fwd, bwd, best, finishedFrom, finishedTo := start.fwd, start.bwd, start.best, false, false;
      histories := NOTHING_SETTLED;
      new;
      request.StartSound(total);
    }

    /** Pops the next node of one direction and relaxes its edges. */
    method Advance(reverse: bool)
      requires Valid() && !State().Dry(reverse)
      modifies this
      ensures Valid() && request.Rules().Advances(old(State()), reverse, State())
      ensures request.Remaining(State(), histories) < request.Remaining(old(State()), old(histories))
      ensures State().Dry(!reverse) == old(State().Dry(!reverse))
    {
      ghost var s := State();
      var ok, t := PopNext(if reverse then bwd else fwd);
      var m := best;
      if ok {
        InGraph(reverse, t);
        ghost var popped := t;
        t, m := FillEdges(request.graph, t, if reverse then fwd else bwd, best, request.potential.Estimate(reverse), reverse);
        assert s.With(reverse, t, m, false) == request.Rules().Expanded(s, reverse, popped);
        assert request.Rules().AdvancesOver(s, reverse, popped, s.With(reverse, t, m, false));
      } else {
        assert request.Rules().AdvancesOver(s, reverse, t, s.With(reverse, t, m, true));
      }
      best := m;
      if reverse {
        bwd, finishedTo := t, !ok;
      } else {
        fwd, finishedFrom := t, !ok;
      }
      assert State() == s.With(reverse, t, m, !ok);
      histories := request.AdvanceSound(s, histories, reverse, State());
    }

    lemma InGraph(reverse: bool, t: SearchTree)
      requires Valid() && Pops(State().Tree(reverse), t)
      ensures 0 <= t.curr.adjNode < |request.graph|
    {
      if reverse {
        request.Opposite(State(), histories, false);
      }
      PopsOk(request.Job(reverse), State().Tree(reverse), histories.Of(reverse), t);
    }

    predicate Finished()
      reads this
    {
      Stops(State(), request.potential.stopOffset)
    }

    /** One round: each direction that has not run dry advances. */
    method AdvanceBoth()
      requires Valid() && (!finishedFrom || !finishedTo)
      modifies this
      ensures Valid() && request.Rules().IsRound(old(State()), State())
      ensures request.Remaining(State(), histories) < request.Remaining(old(State()), old(histories))
    {
      if !finishedFrom {
        Advance(false);
      }
      ghost var mid := State();
      if !finishedTo {
        Advance(true);
      }
      assert request.Rules().Round(old(State()), mid, State());
    }

    method Run()
      requires Valid() && State() == request.Rules().Start(request.from, request.to)
      modifies this
      ensures request.Rules().Outcome(request.from, request.to, best)
    {
      // the source and the target are in the open sets, so neither direction is dry yet
      ghost var rules, from, to := request.Rules(), request.from, request.to;
      ghost var run := [State()];
      AdvanceBoth();
      rules.OneMoreRound(from, to, run, State());
      run := run + [State()];
      while !Finished()
        invariant Valid() && |run| > 1 && run[|run| - 1] == State() && rules.IsRun(from, to, run)
        decreases request.Remaining(State(), histories)
      {
        request.SettledBound(State(), histories);
        AdvanceBoth();
        rules.OneMoreRound(from, to, run, State());
        run := run + [State()];
      }
    }
  }

  /** A shortest path from source to target, or the finding that there is none. */
  method CalcPath(request: Request, ghost total: real) returns (path: Path)
    requires request.Valid(total)
    ensures exists m :: request.Rules().Outcome(request.from, request.to, m) && path.Weight() == m.Weight()
    ensures path.NotFound? || request.potential.stopOffset >= total ==> IsDistance(Steps(request.graph, false), request.from, request.to, path.Weight())
    ensures Describes(Steps(request.graph, false), request.from, request.to, path)
  {
    var search := new BidirSearch(request, total);
    search.Run();
    request.OutcomeAnswers(search.best, total);
    match search.best
    case NoMeeting =>
      path := NotFound;
    case Meeting(weight, fwd, bwd) =>
      path := Extract(weight, fwd, bwd);
      assert path.fromNode == request.Job(false).root && path.endNode == request.Job(true).root;
  }
}
