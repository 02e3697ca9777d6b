/** Runs of a bidirectional search: the loop that lets both directions advance in turn until the
    stop test holds. Searches differ in the edges a node offers, the estimates, the test that
    leaves a popped node unexpanded, and the stop test. */
module SearchRuns {
  import opened SearchTrees
  import opened RoutingGraphs
  import opened Meetings

  datatype Search = Search(fwd: SearchTree, bwd: SearchTree, best: Meeting, finishedFrom: bool, finishedTo: bool) {
    function Tree(reverse: bool): SearchTree {
      if reverse then bwd else fwd
    }

    predicate Dry(reverse: bool) {
      if reverse then finishedTo else finishedFrom
    }

    function With(reverse: bool, t: SearchTree, m: Meeting, dry: bool): Search {
      if reverse then this.(bwd := t, best := m, finishedTo := dry) else this.(fwd := t, best := m, finishedFrom := dry)
    }
  }

  datatype Histories = Histories(fwd: History, bwd: History) {
    function Of(reverse: bool): History {
      if reverse then bwd else fwd
    }

    function With(reverse: bool, h: History): Histories {
      if reverse then this.(bwd := h) else this.(fwd := h)
    }
  }

  const NOTHING_SETTLED := Histories(UNSTARTED, UNSTARTED)

  /** The edges of a node in the order they are relaxed, the estimates, the popped entries that
      are left unexpanded, and the stop test. */
  datatype Rules = Rules(offers: (int, bool) -> seq<HalfEdge>, forward: int -> real, backward: int -> real,
                         skips: (SearchTree, bool) -> bool, stops: Search -> bool)
  {
    function Estimate(reverse: bool): int -> real {
      if reverse then backward else forward
    }

    /** Before the first node is popped. */
    function Start(from: int, to: int): Search {
      var fwd := StartTree(from, forward(from));
      Search(fwd, StartTree(to, backward(to)), FirstMeeting(from, to, fwd.curr), false, false)
    }

    /** What expanding the popped node leaves. */
    function Expanded(s: Search, reverse: bool, t: SearchTree): Search {
      if skips(t, reverse) then s.With(reverse, t, s.best, false) else
      var (t', m') := RelaxAll(t, s.Tree(!reverse), s.best, offers(t.curr.adjNode, reverse), Estimate(reverse), reverse);
      s.With(reverse, t', m', false)
    }

    ghost predicate AdvancesOver(s: Search, reverse: bool, t: SearchTree, s': Search) {
      || (Pops(s.Tree(reverse), t) && s' == Expanded(s, reverse, t))
      || (RunsDry(s.Tree(reverse), t) && s' == s.With(reverse, t, s.best, true))
    }

    /** One direction pops a node and expands it, or runs dry. */
    ghost predicate Advances(s: Search, reverse: bool, s': Search) {
      exists t :: AdvancesOver(s, reverse, t, s')
    }

    /** A direction that ran dry before is left alone. */
    ghost predicate Turn(s: Search, reverse: bool, s': Search) {
      if s.Dry(reverse) then s' == s else Advances(s, reverse, s')
    }

    ghost predicate Round(s: Search, mid: Search, s': Search) {
      Turn(s, false, mid) && Turn(mid, true, s')
    }

    /** Both directions get their turn, the forward one first. */
    ghost predicate IsRound(s: Search, s': Search) {
      exists mid {:trigger Round(s, mid, s')} :: Round(s, mid, s')
    }

    /** A further round, which after the first one comes only if the stop test does not hold. */
    ghost predicate Follows(run: seq<Search>, i: int) {
      0 < i < |run| && (i > 1 ==> !stops(run[i - 1])) && IsRound(run[i - 1], run[i])
    }

    /** The states of a search from source to target, round by round. */
    ghost predicate IsRun(from: int, to: int, run: seq<Search>) {
      run != [] && run[0] == Start(from, to) && forall i {:trigger Follows(run, i)} :: 0 < i < |run| ==> Follows(run, i)
    }

    lemma OneMoreRound(from: int, to: int, run: seq<Search>, s: Search)
      requires IsRun(from, to, run) && (|run| > 1 ==> !stops(run[|run| - 1])) && IsRound(run[|run| - 1], s)
      ensures IsRun(from, to, run + [s])
    {
      var more := run + [s];
      forall i | 0 < i < |more| ensures Follows(more, i) {
        assert i < |run| ==> Follows(run, i);
      }
    }

    /** A run ends with this best path. */
    ghost predicate Outcome(from: int, to: int, m: Meeting) {
      exists run: seq<Search> :: IsRun(from, to, run) && |run| > 1 && stops(run[|run| - 1]) && run[|run| - 1].best == m
    }
  }
}
