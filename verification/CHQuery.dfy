/** The bidirectional query of a contraction hierarchy, with or without stalling, and with or
    without estimates. */
module CHQueries {
  import opened Counting
  import opened Walks
  import opened RoutingGraphs
  import opened SearchTrees
  import opened Meetings
  import opened SearchRuns
  import opened CHStorages
  import opened Contraction
  import opened Hierarchies
  import opened UpwardGraphs
  import opened CHSearch

  /** What the two directions add to their heap weights. */
  datatype Estimates = Estimates(forward: int -> real, backward: int -> real) {
    function Estimate(reverse: bool): int -> real {
      if reverse then backward else forward
    }

    ghost predicate Zero() {
      forall v :: forward(v) == 0.0 && backward(v) == 0.0
    }

    /** No base arc lowers an estimate by more than its weight. */
    ghost predicate Fits(ch: CHGraph) {
      && (forall a :: a in BaseSteps(ch, false) ==> forward(a.from) <= a.weight + forward(a.to))
      && (forall a :: a in BaseSteps(ch, true) ==> backward(a.from) <= a.weight + backward(a.to))
    }

    /** The estimate of a direction is not positive where that direction ends. */
    predicate Vanish(from: int, to: int) {
      forward(to) <= 0.0 && backward(from) <= 0.0
    }
  }

  ghost function Job(ch: CHGraph, root: int, estimate: int -> real, reverse: bool): Task
    requires ch.Valid()
  {
    Task(Steps(UpAdjacency(ch), reverse), root, estimate)
  }

  /** Estimates that fit the base arcs fit the shortcuts too. */
  lemma JobAdmissible(ch: CHGraph, root: int, estimate: int -> real, reverse: bool)
    requires Hierarchical(ch) && forall a :: a in BaseSteps(ch, reverse) ==> estimate(a.from) <= a.weight + estimate(a.to)
    ensures Job(ch, root, estimate, reverse).Admissible()
  {
    var up := Steps(UpAdjacency(ch), reverse);
    UpAdjacencyOk(ch);
    StepsNonNegative(UpAdjacency(ch), reverse);
    SearchCovered(ch, reverse);
    forall a | a in up ensures estimate(a.from) <= a.weight + estimate(a.to) {
      var p :| IsWalk(BaseSteps(ch, reverse), a.from, a.to, p) && Length(p) <= a.weight;
      PotentialAlong(BaseSteps(ch, reverse), estimate, a.from, a.to, p);
    }
  }

  /** Both searches with what they have left out so far. */
  ghost predicate Query(ch: CHGraph, k: Task, t: SearchTree, past: History, ko: Task, o: SearchTree, pastO: History, m: Meeting, reverse: bool)
    requires ch.Valid()
  {
    && Duel(UpAdjacency(ch), k, t, past, ko, o, pastO, m, reverse)
    && StalledOk(BaseSteps(ch, reverse), k, t, past) && StalledOk(BaseSteps(ch, !reverse), ko, o, pastO)
  }

  /** Both directions ran dry, or both have passed the weight of the best path. */
  ghost predicate Stopped(t: SearchTree, past: History, o: SearchTree, pastO: History, m: Meeting) {
    || (past.settled == t.best.Keys && pastO.settled == o.best.Keys)
    || (m.Meeting? && t.curr.weight >= m.total && o.curr.weight >= m.total)
  }

  /** At a node where an up and a down walk meet, a direction that has not got there yet has
      already passed the weight of the best path. */
  lemma PassedBound(base: Graph, k: Task, t: SearchTree, past: History, o: SearchTree, pastO: History, m: Meeting, goal: int, v: int, w: real, p: Walk)
    requires Stopped(t, past, o, pastO, m) && past.settled != t.best.Keys && w + k.potential(v) >= t.curr.weight
    requires (forall a :: a in base ==> k.potential(a.from) <= a.weight + k.potential(a.to)) && k.potential(goal) <= 0.0
    requires IsWalk(base, v, goal, p)
    ensures m.Meeting? && m.total <= w + Length(p)
  {
    PotentialAlong(base, k.potential, v, goal, p);
  }

  /** An up and a down walk that meet at v bound the best weight, unless stalling has shown that
      the base graph has a lighter walk. */
  lemma UpDownBound(ch: CHGraph, est: Estimates, k: Task, t: SearchTree, past: History, ko: Task, o: SearchTree, pastO: History,
                    m: Meeting, v: int, p: Walk, q: Walk)
    requires Hierarchical(ch) && est.Fits(ch) && (m.Meeting? ==> est.Vanish(k.root, ko.root))
    requires k == Job(ch, k.root, est.forward, false) && ko == Job(ch, ko.root, est.backward, true)
    requires Query(ch, k, t, past, ko, o, pastO, m, false) && Stopped(t, past, o, pastO, m)
    requires IsWalk(k.graph, k.root, v, p) && IsWalk(ko.graph, ko.root, v, q)
    ensures (m.Meeting? && m.total <= Length(p) + Length(q))
            || Reaches(ChArcs(ch.base.edges, []), k.root, ko.root, Length(p) + Length(q) - STALL_PRECISION)
  {
    var base, back := BaseSteps(ch, false), BaseSteps(ch, true);
    SearchCovered(ch, false);
    SearchCovered(ch, true);
    SideOk(base, k, t, past, v, p);
    SideOk(back, ko, o, pastO, v, q);
    CoversWalk(base, k.graph, k.root, v, p);
    CoversWalk(back, ko.graph, ko.root, v, q);
    ReversedTwice(base);
    ReachesReversed(back, ko.root, v, Length(q));
    ReachesReversed(base, k.root, v, Length(p));
    if Reaches(base, k.root, v, Length(p) - STALL_PRECISION) {
      ReachesJoin(base, k.root, v, ko.root, Length(p) - STALL_PRECISION, Length(q));
    } else if Reaches(back, ko.root, v, Length(q) - STALL_PRECISION) {
      ReachesReversed(back, ko.root, v, Length(q) - STALL_PRECISION);
      ReachesJoin(base, k.root, v, ko.root, Length(p), Length(q) - STALL_PRECISION);
    } else if past.settled != t.best.Keys && Length(p) + k.potential(v) >= t.curr.weight {
      var r :| IsWalk(base, v, ko.root, r) && Length(r) <= Length(q);
      PassedBound(base, k, t, past, o, pastO, m, ko.root, v, Length(p), r);
    } else if pastO.settled != o.best.Keys && Length(q) + ko.potential(v) >= o.curr.weight {
      var r :| IsWalk(back, v, k.root, r) && Length(r) <= Length(p);
      PassedBound(back, ko, o, pastO, t, past, m, k.root, v, Length(q), r);
    } else {
      MeetingBound(k, t, ko, o, m, false, v, Length(p), Length(q));
    }
  }

  /** When the query stops, no walk of the base graph is lighter than the best path: either the
      up-down walk that stands for it was found, or stalling points to a walk lighter by more
      than the precision, and so on until there can be no lighter one. */
  lemma {:induction false} NoLighter(ch: CHGraph, est: Estimates, k: Task, t: SearchTree, past: History, ko: Task, o: SearchTree, pastO: History,
                                     m: Meeting, p: Walk, n: nat)
    requires Hierarchical(ch) && est.Fits(ch) && (m.Meeting? ==> est.Vanish(k.root, ko.root))
    requires k == Job(ch, k.root, est.forward, false) && ko == Job(ch, ko.root, est.backward, true)
    requires Query(ch, k, t, past, ko, o, pastO, m, false) && Stopped(t, past, o, pastO, m)
    requires IsWalk(ChArcs(ch.base.edges, []), k.root, ko.root, p) && Length(p) < n as real * STALL_PRECISION
    ensures m.Meeting? && m.total <= Length(p)
    decreases n
  {
    var base, up, down := ChArcs(ch.base.edges, []), UpArcs(ch.base.edges, ch.shortcuts, ch.levels), DownArcs(ch.base.edges, ch.shortcuts, ch.levels);
    BaseNonNegative(ch.base);
    LengthNonNegative(base, p);
    ReachesWalk(base, k.root, ko.root, p);
    var v, a, c := CompleteEnd(base, up, down, k.root, ko.root, Length(p));
    UpSteps(ch);
    var q :| IsWalk(up, k.root, v, q) && Length(q) <= a;
    ReachesReversed(down, v, ko.root, c);
    ReversedTwice(Steps(UpAdjacency(ch), true));
    var r :| IsWalk(ko.graph, ko.root, v, r) && Length(r) <= c;
    UpDownBound(ch, est, k, t, past, ko, o, pastO, m, v, q, r);
    if !(m.Meeting? && m.total <= Length(q) + Length(r)) {
      var p' :| IsWalk(base, k.root, ko.root, p') && Length(p') <= Length(q) + Length(r) - STALL_PRECISION;
      NoLighter(ch, est, k, t, past, ko, o, pastO, m, p', n - 1);
    }
  }

  /** The two labels of the best path belong together, and its weight is the distance in the base
      graph, if the estimates are not positive at their ends, or nothing was found. */
  ghost predicate Answers(ch: CHGraph, est: Estimates, k: Task, ko: Task, m: Meeting) {
    && (m.NoMeeting? || est.Vanish(k.root, ko.root) ==> IsDistance(ChArcs(ch.base.edges, []), k.root, ko.root, m.Weight()))
    && (m.Meeting? ==> IsEnd(k, m.fwd) && IsEnd(ko, m.bwd) && m.fwd.adjNode == m.bwd.adjNode
                       && m.total == m.fwd.VisitedWeight() + m.bwd.VisitedWeight())
  }

  /** The labels of the best path join to a walk that the base graph covers. */
  lemma MeetingReaches(ch: CHGraph, k: Task, t: SearchTree, ko: Task, o: SearchTree, m: Meeting)
    requires Hierarchical(ch) && MeetingOk(k, t, ko, o, m, false) && m.Meeting?
    requires k.graph == Steps(UpAdjacency(ch), false) && ko.graph == Steps(UpAdjacency(ch), true)
    ensures Reaches(ChArcs(ch.base.edges, []), k.root, ko.root, m.total)
  {
    var base, back, v := BaseSteps(ch, false), BaseSteps(ch, true), m.fwd.adjNode;
    SearchCovered(ch, false);
    SearchCovered(ch, true);
    if k.EntryOk(m.fwd) { k.PathOk(m.fwd); }
    if ko.EntryOk(m.bwd) { ko.PathOk(m.bwd); }
    CoversWalk(base, k.graph, k.root, v, m.fwd.Path());
    CoversWalk(back, ko.graph, ko.root, v, m.bwd.Path());
    ReversedTwice(base);
    ReachesReversed(back, ko.root, v, m.bwd.VisitedWeight());
    ReachesJoin(base, k.root, v, ko.root, m.fwd.VisitedWeight(), m.bwd.VisitedWeight());
  }

  /** A query that has stopped has the answer. */
  lemma StoppedAnswers(ch: CHGraph, est: Estimates, k: Task, t: SearchTree, past: History, ko: Task, o: SearchTree, pastO: History, m: Meeting)
    requires Hierarchical(ch) && est.Fits(ch)
    requires k == Job(ch, k.root, est.forward, false) && ko == Job(ch, ko.root, est.backward, true)
    requires Query(ch, k, t, past, ko, o, pastO, m, false) && Stopped(t, past, o, pastO, m)
    ensures Answers(ch, est, k, ko, m)
  {
    if m.NoMeeting? || est.Vanish(k.root, ko.root) {
      forall p | IsWalk(ChArcs(ch.base.edges, []), k.root, ko.root, p) ensures m.Meeting? && m.total <= Length(p) {
        BaseNonNegative(ch.base);
        LengthNonNegative(ChArcs(ch.base.edges, []), p);
        var n := (Length(p) / STALL_PRECISION).Floor + 1;
        NoLighter(ch, est, k, t, past, ko, o, pastO, m, p, n);
      }
    }
    if m.Meeting? {
      MeetingReaches(ch, k, t, ko, o, m);
    }
  }

  /** What popping a node leaves: the stalled nodes are as before, and this one is next. */
  lemma PoppedStalled(base: Graph, k: Task, t: SearchTree, past: History, t': SearchTree, past': History, past2: History)
    requires StalledOk(base, k, t, past) && t'.curr.adjNode !in past.settled
    requires past'.settled == past.settled + {t'.curr.adjNode} && past'.expanded == past.expanded
    requires Keeps(t, t', past) && past.settled <= t.best.Keys
    requires past2 == past'.(expanded := past'.expanded + {t'.curr.adjNode}) || (past2 == past' && Beaten(base, k, t', t'.curr.adjNode))
    ensures StalledOk(base, k, t', past2)
  {
    forall u | u in past2.settled && u !in past2.expanded ensures Beaten(base, k, t', u) {
      assert u in past.settled ==> Beaten(base, k, t, u);
    }
  }

  lemma KeptStalled(base: Graph, k: Task, t: SearchTree, past: History, t': SearchTree)
    requires StalledOk(base, k, t, past) && t'.best == t.best
    ensures StalledOk(base, k, t', past)
  {
    forall u | u in past.settled && u !in past.expanded ensures Beaten(base, k, t', u) {
      assert Beaten(base, k, t, u);
    }
  }

  /** Both directions ran dry, or both have passed the weight of the best path. */
  predicate Stops(s: Search) {
    (s.finishedFrom && s.finishedTo) || (s.best.Meeting? && s.fwd.curr.weight >= s.best.total && s.bwd.curr.weight >= s.best.total)
  }

  ghost function CHRules(ch: CHGraph, estimates: Estimates, stallOnDemand: bool): Rules {
    Rules((u, reverse) => Offered(ch, u, reverse), estimates.forward, estimates.backward,
          (t, reverse) => stallOnDemand && Stallable(ch, t, reverse), s => Stops(s))
  }

  /** What is asked of a hierarchy. */
  datatype Request = Request(ch: CHGraph, from: int, to: int, estimates: Estimates, stallOnDemand: bool) {
    ghost function Rules(): Rules {
      CHRules(ch, estimates, stallOnDemand)
    }

    ghost predicate Valid() {
      && Hierarchical(ch) && 0 <= from < |ch.levels| && 0 <= to < |ch.levels|
      && estimates.Fits(ch) && (stallOnDemand ==> estimates.Zero())
    }

    ghost function Task(reverse: bool): Task
      requires ch.Valid()
    {
      Job(ch, if reverse then to else from, estimates.Estimate(reverse), reverse)
    }

    /** The search in direction reverse, seen first. */
    ghost predicate Facing(s: Search, hs: Histories, reverse: bool)
      requires ch.Valid()
    {
      Query(ch, Task(reverse), s.Tree(reverse), hs.Of(reverse), Task(!reverse), s.Tree(!reverse), hs.Of(!reverse), s.best, reverse)
    }

    ghost predicate Settles(s: Search, hs: Histories, reverse: bool) {
      s.Dry(reverse) ==> hs.Of(reverse).settled == s.Tree(reverse).best.Keys
    }

    ghost predicate Sound(s: Search, hs: Histories)
      requires ch.Valid()
    {
      Facing(s, hs, false) && Settles(s, hs, false) && Settles(s, hs, true)
    }

    lemma Opposite(s: Search, hs: Histories, reverse: bool)
      requires ch.Valid() && Facing(s, hs, reverse)
      ensures Facing(s, hs, !reverse)
    {
      DuelOpposite(UpAdjacency(ch), Task(reverse), s.Tree(reverse), hs.Of(reverse), Task(!reverse), s.Tree(!reverse), hs.Of(!reverse), s.best, reverse);
    }

    lemma StartSound()
      requires Valid()
      ensures Sound(Rules().Start(from, to), NOTHING_SETTLED)
    {
      UpAdjacencyOk(ch);
      JobAdmissible(ch, from, estimates.forward, false);
      JobAdmissible(ch, to, estimates.backward, true);
      DuelStart(UpAdjacency(ch), Task(false), Task(true), estimates.forward(from), estimates.backward(to));
    }

    lemma StalledSound(s: Search, hs: Histories, reverse: bool, t: SearchTree) returns (h': History)
      requires Valid() && Facing(s, hs, reverse) && Pops(s.Tree(reverse), t) && Rules().skips(t, reverse)
      ensures Facing(s.With(reverse, t, s.best, false), hs.With(reverse, h'), reverse)
      ensures t.curr.adjNode !in hs.Of(reverse).settled && h'.settled == hs.Of(reverse).settled + {t.curr.adjNode}
    {
      var k, h, base := Task(reverse), hs.Of(reverse), BaseSteps(ch, reverse);
      PopsOk(k, s.Tree(reverse), h, t);
      MeetingAfterPop(k, s.Tree(reverse), t, Task(!reverse), s.Tree(!reverse), s.best, reverse);
      h' := h.(settled := h.settled + {t.curr.adjNode});
      StallBeats(ch, k, t, h', reverse);
      PoppedStalled(base, k, s.Tree(reverse), h, t, h', h');
    }

    lemma ExpandedSound(s: Search, hs: Histories, reverse: bool, t: SearchTree) returns (h': History)
      requires Valid() && Facing(s, hs, reverse) && Pops(s.Tree(reverse), t) && !Rules().skips(t, reverse)
      ensures Facing(Rules().Expanded(s, reverse, t), hs.With(reverse, h'), reverse)
      ensures t.curr.adjNode !in hs.Of(reverse).settled && h'.settled == hs.Of(reverse).settled + {t.curr.adjNode}
    {
      var k, ko, o, h, base := Task(reverse), Task(!reverse), s.Tree(!reverse), hs.Of(reverse), BaseSteps(ch, reverse);
      PopsOk(k, s.Tree(reverse), h, t);
      MeetingAfterPop(k, s.Tree(reverse), t, ko, o, s.best, reverse);
      var h1 := h.(settled := h.settled + {t.curr.adjNode});
      CHSearch.FillOk(ch, reverse, k, t, h1, ko, o, s.best);
      h' := h1.(expanded := h1.expanded + {t.curr.adjNode});
      PoppedStalled(base, k, s.Tree(reverse), h, Rules().Expanded(s, reverse, t).Tree(reverse), h1, h');
    }

    lemma DrySound(s: Search, hs: Histories, reverse: bool, t: SearchTree)
      requires Valid() && Facing(s, hs, reverse) && RunsDry(s.Tree(reverse), t)
      ensures Facing(s.With(reverse, t, s.best, true), hs, reverse) && hs.Of(reverse).settled == t.best.Keys
    {
      var k, h := Task(reverse), hs.Of(reverse);
      DryOk(k, s.Tree(reverse), h, t);
      MeetingAfterPop(k, s.Tree(reverse), t, Task(!reverse), s.Tree(!reverse), s.best, reverse);
      KeptStalled(BaseSteps(ch, reverse), k, s.Tree(reverse), h, t);
    }

    /** Nodes that can still be settled, and directions that can still run dry. */
    ghost function Remaining(s: Search, hs: Histories): int {
      2 * |ch.levels| - |hs.fwd.settled| - |hs.bwd.settled| + (if s.finishedFrom then 0 else 1) + (if s.finishedTo then 0 else 1)
    }

    lemma SettledBound(s: Search, hs: Histories)
      requires ch.Valid() && Sound(s, hs)
      ensures |hs.fwd.settled| <= |ch.levels| && |hs.bwd.settled| <= |ch.levels|
    {
      Bounded(hs.fwd.settled, |ch.levels|);
      Bounded(hs.bwd.settled, |ch.levels|);
    }

    lemma StepSound(s: Search, hs: Histories, reverse: bool, s': Search) returns (hs': Histories)
      requires Valid() && Facing(s, hs, reverse) && Rules().Advances(s, reverse, s')
      ensures Facing(s', hs', reverse) && Settles(s', hs', reverse) && hs'.Of(!reverse) == hs.Of(!reverse)
      ensures |hs'.Of(reverse).settled| == |hs.Of(reverse).settled| + if s'.Dry(reverse) then 0 else 1
      ensures s' == s.With(reverse, s'.Tree(reverse), s'.best, s'.Dry(reverse))
    {
      var t :| Rules().AdvancesOver(s, reverse, t, s');
      if Pops(s.Tree(reverse), t) && s' == Rules().Expanded(s, reverse, t) {
        var h';
        if Rules().skips(t, reverse) {
          h' := StalledSound(s, hs, reverse, t);
        } else {
          h' := ExpandedSound(s, hs, reverse, t);
        }
        hs' := hs.With(reverse, h');
      } else {
        hs' := hs;
        DrySound(s, hs, reverse, t);
      }
    }

    /** A step of one direction keeps both searches sound: what is settled is expanded, or a base
        walk beats its label. */
    lemma AdvanceSound(s: Search, hs: Histories, reverse: bool, s': Search) returns (hs': Histories)
      requires Valid() && Sound(s, hs) && !s.Dry(reverse) && Rules().Advances(s, reverse, s')
      ensures Sound(s', hs') && Remaining(s', hs') < Remaining(s, hs) && s'.Dry(!reverse) == s.Dry(!reverse)
    {
      if reverse {
        Opposite(s, hs, false);
      }
      hs' := StepSound(s, hs, reverse, s');
      if reverse {
        Opposite(s', hs', true);
      }
    }

    lemma TurnSound(s: Search, hs: Histories, reverse: bool, s': Search) returns (hs': Histories)
      requires Valid() && Sound(s, hs) && Rules().Turn(s, reverse, s')
      ensures Sound(s', hs')
    {
      hs' := hs;
      if !s.Dry(reverse) {
        hs' := AdvanceSound(s, hs, reverse, s');
      }
    }

    /** Every state of every run is sound. */
    lemma {:induction false} RunSound(run: seq<Search>, i: nat) returns (hs: Histories)
      requires Valid() && Rules().IsRun(from, to, run) && i < |run|
      ensures Sound(run[i], hs)
    {
      if i == 0 {
        StartSound();
        return NOTHING_SETTLED;
      }
      hs := RunSound(run, i - 1);
      assert Rules().Follows(run, i);
      var mid :| Rules().Round(run[i - 1], mid, run[i]);
      hs := TurnSound(run[i - 1], hs, false, mid);
      hs := TurnSound(mid, hs, true, run[i]);
    }

    /** Every run that ends has the answer. */
    lemma OutcomeAnswers(m: Meeting)
      requires Valid() && Rules().Outcome(from, to, m)
      ensures Answers(ch, estimates, Task(false), Task(true), m)
    {
      var run: seq<Search> :| Rules().IsRun(from, to, run) && |run| > 1 && Rules().stops(run[|run| - 1]) && run[|run| - 1].best == m;
      var s := run[|run| - 1];
      var hs := RunSound(run, |run| - 1);
      StoppedAnswers(ch, estimates, Task(false), s.fwd, hs.fwd, Task(true), s.bwd, hs.bwd, m);
    }
  }

  class BidirCHSearch {
    const request: Request

    var fwd: SearchTree
    var bwd: SearchTree
    var best: Meeting
    var finishedFrom: bool
    var finishedTo: bool
    ghost var histories: Histories

    function State(): Search
      reads this
    {
      Search(fwd, bwd, best, finishedFrom, finishedTo)
    }

    ghost predicate Valid()
      reads this
    {
      request.Valid() && request.Sound(State(), histories)
    }

    constructor (request: Request)
      requires request.Valid()
      ensures Valid() && this.request == request
      ensures State() == request.Rules().Start(request.from, request.to)
    {
      this.request := request;
      fwd, bwd := StartTree(request.from, request.estimates.forward(request.from)), StartTree(request.to, request.estimates.backward(request.to));
      best := FirstMeeting(request.from, request.to, StartTree(request.from, request.estimates.forward(request.from)).curr);
      finishedFrom, finishedTo, histories := false, false, NOTHING_SETTLED;
      new;
      request.StartSound();
    }

    /** Pops the next node of one direction, and relaxes its upward edges unless it is stalled. */
    method Advance(reverse: bool)
      requires Valid() && !State().Dry(reverse)
      modifies this
      ensures Valid() && request.Rules().Advances(old(State()), reverse, State())
      ensures request.Remaining(State(), histories) < request.Remaining(old(State()), old(histories))
      ensures State().Dry(!reverse) == old(State().Dry(!reverse))
    {
      ghost var s := State();
      var ok, t := PopNext(if reverse then bwd else fwd);
      var m := best;
      ghost var popped := t;
      if ok {
        InGraph(reverse, t);
        t, m := ExpandUnlessStalled(request, s, t, if reverse then fwd else bwd, m, reverse);
      }
      assert request.Rules().AdvancesOver(s, reverse, popped, s.With(reverse, t, m, !ok));
      best := m;
      if reverse {
        bwd, finishedTo := t, !ok;
      } else {
        fwd, finishedFrom := t, !ok;
      }
      assert State() == s.With(reverse, t, m, !ok);
      histories := request.AdvanceSound(s, histories, reverse, State());
    }

    lemma InGraph(reverse: bool, t: SearchTree)
      requires Valid() && Pops(State().Tree(reverse), t)
      ensures 0 <= t.curr.adjNode < |request.ch.levels|
    {
      if reverse {
        request.Opposite(State(), histories, false);
      }
      PopsOk(request.Task(reverse), State().Tree(reverse), histories.Of(reverse), t);
    }

    predicate Finished()
      reads this
    {
      Stops(State())
    }

    /** One round: each direction that has not run dry advances. */
    method AdvanceBoth()
      requires Valid() && (!finishedFrom || !finishedTo)
      modifies this
      ensures Valid() && request.Rules().IsRound(old(State()), State())
      ensures request.Remaining(State(), histories) < request.Remaining(old(State()), old(histories))
    {
      if !finishedFrom {
        Advance(false);
      }
      ghost var mid := State();
      if !finishedTo {
        Advance(true);
      }
      assert request.Rules().Round(old(State()), mid, State());
    }

    method Run()
      requires Valid() && State() == request.Rules().Start(request.from, request.to)
      modifies this
      ensures request.Rules().Outcome(request.from, request.to, best)
    {
      ghost var rules, from, to := request.Rules(), request.from, request.to;
      ghost var run := [State()];
      AdvanceBoth();
      rules.OneMoreRound(from, to, run, State());
      run := run + [State()];
      while !Finished()
        invariant Valid() && |run| > 1 && run[|run| - 1] == State() && rules.IsRun(from, to, run)
        decreases request.Remaining(State(), histories)
      {
        request.SettledBound(State(), histories);
        AdvanceBoth();
        rules.OneMoreRound(from, to, run, State());
        run := run + [State()];
      }
    }
  }

  method ExpandUnlessStalled(request: Request, ghost s: Search, t: SearchTree, o: SearchTree, m: Meeting, reverse: bool) returns (t': SearchTree, m': Meeting)
    requires request.ch.Valid() && 0 <= t.curr.adjNode < |request.ch.levels| && o == s.Tree(!reverse) && m == s.best
    ensures request.Rules().Expanded(s, reverse, t) == s.With(reverse, t', m', false)
  {
    t', m' := t, m;
    var skipped := false;
    if request.stallOnDemand {
      skipped := EntryIsStallable(request.ch, t, reverse);
    }
    if !skipped {
      t', m' := CHSearch.FillEdges(request.ch, t, o, m, request.estimates.Estimate(reverse), reverse);
    }
  }
}
