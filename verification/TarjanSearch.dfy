/** The search for the components of a road network as it runs: recursively, and on an explicit
    stack of pending steps. */
module TarjanSearch {
  import opened Counting
  import opened Connectivity
  import opened Tarjan
  import opened EdgeComponents

  // ----- executing a stack of steps

  /** A step of the search; the last one on the stack is executed first. */
  datatype Step =
    | UpdateLowLink(p: int, q: int)
    | BuildComponent(p: int)
    | FindComponent(p: int, adj: int)
    | HandleNeighbor(p: int, q: int, adj: int)

  ghost function Flipped(ks: seq<int>): seq<int> {
    seq(|ks|, i requires 0 <= i < |ks| => ks[|ks| - 1 - i])
  }

  /** The transitions in the order in which the explicit stack handles them. */
  ghost function LastFirst(g: Successors): Successors {
    seq(|g|, k requires 0 <= k < |g| => Flipped(g[k]))
  }

  ghost predicate StateOk(g: Successors, s: TarjanState) {
    Shape(g, s) && s.currIndex >= 0
  }

  ghost predicate StepOk(net: Network, a: Step, s: TarjanState)
    requires net.Valid()
  {
    var g := LastFirst(net.Transitions());
    && ValidGraph(g) && StateOk(g, s)
    && match a
       case UpdateLowLink(p, q) => 0 <= p < |g| && 0 <= q < |g|
       case BuildComponent(p) => 0 <= p < |g| && p in s.stack
       case FindComponent(p, adj) => 0 <= p < |g| && s.index[p] == NO_INDEX && 0 <= adj < |net.leaving| && AreKeys(g, Flipped(net.Next(p / 2, adj)))
       case HandleNeighbor(p, q, adj) => Indexed(s, p) && 0 <= q < |g| && adj == net.Head(q)
  }

  /** What a step comes to once everything it puts on the stack is executed too. */
  ghost function Do(net: Network, a: Step, s: TarjanState): TarjanState
    requires net.Valid() && StepOk(net, a, s)
  {
    var g := LastFirst(net.Transitions());
    match a
    case UpdateLowLink(p, q) => MinTo(s, p, s.low[q])
    case BuildComponent(p) => Build(s, p)
    case FindComponent(p, adj) => Visit(g, p, Flipped(net.Next(p / 2, adj)), s)
    case HandleNeighbor(p, q, adj) => Handle(g, p, q, s)
  }

  ghost predicate Safe(net: Network, steps: seq<Step>, s: TarjanState)
    requires net.Valid()
  {
    StateOk(LastFirst(net.Transitions()), s) && ValidGraph(LastFirst(net.Transitions())) &&
    (steps == [] || (StepOk(net, steps[|steps| - 1], s) && Safe(net, steps[..|steps| - 1], Do(net, steps[|steps| - 1], s))))
  }

  ghost function Exec(net: Network, steps: seq<Step>, s: TarjanState): TarjanState
    requires net.Valid() && Safe(net, steps, s)
  {
    if steps == [] then s else Exec(net, steps[..|steps| - 1], Do(net, steps[|steps| - 1], s))
  }

  lemma ExecTop(net: Network, rest: seq<Step>, a: Step, s: TarjanState)
    requires net.Valid() && StepOk(net, a, s)
    ensures Safe(net, rest + [a], s) <==> Safe(net, rest, Do(net, a, s))
    ensures Safe(net, rest + [a], s) ==> Exec(net, rest + [a], s) == Exec(net, rest, Do(net, a, s))
  {
    var steps := rest + [a];
    assert steps[..|steps| - 1] == rest && steps[|steps| - 1] == a;
  }

  /** The pushes for the neighbours of p. */
  function Handles(net: Network, p: int, qs: seq<int>): seq<Step>
    requires forall i :: 0 <= i < |qs| ==> 0 <= qs[i] < 2 * |net.edges|
  {
    seq(|qs|, i requires 0 <= i < |qs| => HandleNeighbor(p, qs[i], net.Head(qs[i])))
  }

  lemma LastHandle(net: Network, rest: seq<Step>, p: int, qs: seq<int>, g: Successors)
    requires qs != [] && (forall i :: 0 <= i < |qs| ==> 0 <= qs[i] < 2 * |net.edges|) && AreKeys(g, Flipped(qs))
    ensures var n := |qs| - 1;
            && Flipped(qs)[0] == qs[n] && Flipped(qs)[1..] == Flipped(qs[..n]) && AreKeys(g, Flipped(qs[..n]))
            && rest + Handles(net, p, qs) == rest + Handles(net, p, qs[..n]) + [HandleNeighbor(p, qs[n], net.Head(qs[n]))]
  {
  }

  /** They are handled in the opposite order. */
  lemma {:induction false} ExecHandles(net: Network, rest: seq<Step>, p: int, qs: seq<int>, s: TarjanState)
    requires net.Valid() && StateOk(LastFirst(net.Transitions()), s) && ValidGraph(LastFirst(net.Transitions()))
    requires Indexed(s, p) && (forall i :: 0 <= i < |qs| ==> 0 <= qs[i] < 2 * |net.edges|) && AreKeys(LastFirst(net.Transitions()), Flipped(qs))
    requires Safe(net, rest, HandleAll(LastFirst(net.Transitions()), p, Flipped(qs), s))
    ensures Safe(net, rest + Handles(net, p, qs), s)
    ensures Exec(net, rest + Handles(net, p, qs), s) == Exec(net, rest, HandleAll(LastFirst(net.Transitions()), p, Flipped(qs), s))
    decreases |qs|
  {
    var g := LastFirst(net.Transitions());
    if qs == [] {
      assert rest + Handles(net, p, qs) == rest;
    } else {
      var n := |qs| - 1;
      var a := HandleNeighbor(p, qs[n], net.Head(qs[n]));
      LastHandle(net, rest, p, qs, g);
      var s1 := Handle(g, p, qs[n], s);
      assert StepOk(net, a, s) && Do(net, a, s) == s1;
      ExecHandles(net, rest, p, qs[..n], s1);
      ExecTop(net, rest + Handles(net, p, qs[..n]), a, s);
    }
  }

  /** Finding a key comes to setting it up, handling its neighbours, and building its component. */
  lemma FindExpands(net: Network, rest: seq<Step>, p: int, adj: int, s: TarjanState)
    requires net.Valid() && StepOk(net, FindComponent(p, adj), s) && Safe(net, rest + [FindComponent(p, adj)], s)
    requires forall i :: 0 <= i < |net.Next(p / 2, adj)| ==> 0 <= net.Next(p / 2, adj)[i] < 2 * |net.edges|
    ensures Safe(net, rest + [BuildComponent(p)] + Handles(net, p, net.Next(p / 2, adj)), Setup(s, p))
    ensures Exec(net, rest + [BuildComponent(p)] + Handles(net, p, net.Next(p / 2, adj)), Setup(s, p)) == Exec(net, rest + [FindComponent(p, adj)], s)
  {
    var g, next := LastFirst(net.Transitions()), net.Next(p / 2, adj);
    ExecTop(net, rest, FindComponent(p, adj), s);
    SetupGrows(g, s, p);
    var s1 := Setup(s, p);
    var s2 := HandleAll(g, p, Flipped(next), s1);
    assert s2.stack[|s.stack|] == p;
    ExecTop(net, rest, BuildComponent(p), s2);
    ExecHandles(net, rest + [BuildComponent(p)], p, next, s1);
  }

  /** Handling a key not found yet comes to finding it and passing on its low. */
  lemma HandleExpands(net: Network, rest: seq<Step>, p: int, q: int, s: TarjanState)
    requires net.Valid() && 0 <= q < 2 * |net.edges| && StepOk(net, HandleNeighbor(p, q, net.Head(q)), s)
    requires Safe(net, rest + [HandleNeighbor(p, q, net.Head(q))], s) && s.index[q] == NO_INDEX
    ensures Safe(net, rest + [UpdateLowLink(p, q)] + [FindComponent(q, net.Head(q))], s)
    ensures Exec(net, rest + [UpdateLowLink(p, q)] + [FindComponent(q, net.Head(q))], s) == Exec(net, rest + [HandleNeighbor(p, q, net.Head(q))], s)
  {
    var g, find := LastFirst(net.Transitions()), FindComponent(q, net.Head(q));
    ExecTop(net, rest, HandleNeighbor(p, q, net.Head(q)), s);
    assert AreKeys(g, g[q]);
    assert StepOk(net, find, s);
    var s1 := Do(net, find, s);
    assert s1 == Visit(g, q, g[q], s);
    ExecTop(net, rest, UpdateLowLink(p, q), s1);
    ExecTop(net, rest + [UpdateLowLink(p, q)], find, s);
  }

  // ----- the stack of pending steps in numbers

  /** The three numbers that stand for a step on the stack. */
  function Encode(a: Step): (int, int, int) {
    match a
    case UpdateLowLink(p, q) => (p, q, -1)
    case BuildComponent(p) => (p, -2, -2)
    case FindComponent(p, adj) => (p, -1, adj)
    case HandleNeighbor(p, q, adj) => (p, q, adj)
  }

  function Decode(low: int, high: int, a: int): Step {
    if a == -1 then UpdateLowLink(low, high)
    else if a == -2 && high == -2 then BuildComponent(low)
    else if high == -1 then FindComponent(low, a)
    else HandleNeighbor(low, high, a)
  }

  /** The sentinels are no keys and no nodes. */
  predicate Encodable(a: Step) {
    match a
    case UpdateLowLink(p, q) => p >= 0 && q >= 0
    case BuildComponent(p) => p >= 0
    case FindComponent(p, adj) => p >= 0 && adj >= 0
    case HandleNeighbor(p, q, adj) => p >= 0 && q >= 0 && adj >= 0
  }

  lemma DecodeEncoded(a: Step)
    ensures var (low, high, adj) := Encode(a); (Encodable(a) ==> Decode(low, high, adj) == a)
  {
  }

  /** How much executing a step can add to the stack before something new is found. */
  function Weight(steps: seq<Step>): nat {
    if steps == [] then 0 else
    Weight(steps[..|steps| - 1]) + (if steps[|steps| - 1].HandleNeighbor? then 3 else 1)
  }

  lemma WeightTop(rest: seq<Step>, a: Step)
    ensures Weight(rest + [a]) == Weight(rest) + (if a.HandleNeighbor? then 3 else 1)
  {
    assert (rest + [a])[..|rest|] == rest;
  }

  // ----- what is reported

  /** Lists of at least two keys are reported as such, single keys as flags. */
  datatype ConnectedComponents = ConnectedComponents(components: seq<seq<int>>, singleEdgeComponents: seq<bool>, biggestComponent: seq<int>,
                                                     numComponents: nat, numEdgeKeys: nat)

  ghost function Larger(emitted: seq<seq<int>>): seq<seq<int>> {
    if emitted == [] then [] else
    Larger(emitted[..|emitted| - 1]) + (if |emitted[|emitted| - 1]| == 1 then [] else [emitted[|emitted| - 1]])
  }

  ghost predicate SinglesOk(singles: seq<bool>, emitted: seq<seq<int>>) {
    forall k {:trigger singles[k]} :: 0 <= k < |singles| ==> (singles[k] <==> [k] in emitted)
  }

  ghost predicate BiggestOk(biggest: seq<int>, larger: seq<seq<int>>) {
    && (if larger == [] then biggest == [] else biggest in larger)
    && forall c :: c in larger ==> |c| <= |biggest|
  }

  ghost predicate Reports(r: ConnectedComponents, emitted: seq<seq<int>>, exclude: bool) {
    && r.components == Larger(emitted) && r.numComponents == |emitted| && r.numEdgeKeys == Total(emitted)
    && (!exclude ==> SinglesOk(r.singleEdgeComponents, emitted))
    && BiggestOk(r.biggestComponent, Larger(emitted))
  }

  function WithSingle(r: ConnectedComponents, p: int, exclude: bool): ConnectedComponents {
    r.(numComponents := r.numComponents + 1, numEdgeKeys := r.numEdgeKeys + 1,
       singleEdgeComponents := if exclude || !(0 <= p < |r.singleEdgeComponents|) then r.singleEdgeComponents else r.singleEdgeComponents[p := true])
  }

  function WithComponent(r: ConnectedComponents, c: seq<int>): ConnectedComponents {
    r.(numComponents := r.numComponents + 1, numEdgeKeys := r.numEdgeKeys + |c|, components := r.components + [c],
       biggestComponent := if |c| > |r.biggestComponent| then c else r.biggestComponent)
  }

  lemma ReportOk(r: ConnectedComponents, emitted: seq<seq<int>>, exclude: bool, c: seq<int>)
    requires Reports(r, emitted, exclude) && c != []
    ensures |c| == 1 ==> Reports(WithSingle(r, c[0], exclude), emitted + [c], exclude)
    ensures |c| > 1 ==> Reports(WithComponent(r, c), emitted + [c], exclude)
  {
    assert (emitted + [c])[..|emitted|] == emitted;
    if |c| == 1 {
      assert c == [c[0]];
      forall k | 0 <= k < |r.singleEdgeComponents| ensures [k] in emitted + [c] <==> [k] in emitted || k == c[0] {
        assert [k] == c <==> [k][0] == c[0];
      }
    } else {
      forall k: int ensures [k] in emitted + [c] <==> [k] in emitted {
        assert |[k]| == 1;
      }
    }
  }

  // ----- the search

  ghost predicate Flags(onStack: seq<bool>, stack: seq<int>) {
    forall k {:trigger onStack[k]} :: 0 <= k < |onStack| ==> (onStack[k] <==> k in stack)
  }

  lemma PopFlag(onStack: seq<bool>, stack: seq<int>)
    requires Flags(onStack, stack) && NoRepeats(stack) && stack != [] && 0 <= stack[|stack| - 1] < |onStack|
    ensures Flags(onStack[stack[|stack| - 1] := false], stack[..|stack| - 1]) && NoRepeats(stack[..|stack| - 1])
  {
    var n := |stack| - 1;
    var rest := stack[..n];
    forall i: nat | i < n ensures rest[i] != stack[n] {
      assert Differ(stack, i, n);
    }
    forall i: nat, j: nat | i < j < n ensures Differ(rest, i, j) {
      assert Differ(stack, i, j);
    }
    assert stack == rest + [stack[n]];
  }

  class EdgeBasedTarjanSCC {
    const net: Network
    const excludeSingleEdgeComponents: bool
    const edgeKeyIndex: array<int>
    const edgeKeyLowLink: array<int>
    const edgeKeyOnStack: array<bool>
    var tarjanStack: seq<int>
    var dfsStackPQ: seq<(int, int)>
    var dfsStackAdj: seq<int>
    var currIndex: int
    var components: ConnectedComponents
    ghost var emitted: seq<seq<int>>

    ghost function State(): TarjanState
      reads this, edgeKeyIndex, edgeKeyLowLink
    {
      TarjanState(edgeKeyIndex[..], edgeKeyLowLink[..], tarjanStack, currIndex, emitted)
    }

    ghost predicate Valid()
      reads this, edgeKeyIndex, edgeKeyLowLink, edgeKeyOnStack
    {
      && net.Valid() && edgeKeyIndex.Length == edgeKeyLowLink.Length == edgeKeyOnStack.Length == 2 * |net.edges|
      && edgeKeyIndex != edgeKeyLowLink
      && StateOk(net.Transitions(), State()) && Flags(edgeKeyOnStack[..], tarjanStack)
      && Reports(components, emitted, excludeSingleEdgeComponents)
    }

    constructor (net: Network, excludeSingle: bool)
      requires net.Valid()
      ensures Valid() && State() == Initial(2 * |net.edges|) && dfsStackPQ == [] && dfsStackAdj == []
      ensures this.net == net && this.excludeSingleEdgeComponents == excludeSingle
      ensures fresh(edgeKeyIndex) && fresh(edgeKeyLowLink) && fresh(edgeKeyOnStack)
    {
      this.net, excludeSingleEdgeComponents := net, excludeSingle;
      edgeKeyIndex := new int[2 * |net.edges|](_ => NO_INDEX);
      edgeKeyLowLink := new int[2 * |net.edges|](_ => NO_INDEX);
      edgeKeyOnStack := new bool[2 * |net.edges|](_ => false);
      tarjanStack, dfsStackPQ, dfsStackAdj, currIndex, emitted := [], [], [], 0, [];
      components := ConnectedComponents([], if excludeSingle then [] else seq(2 * |net.edges|, _ => false), [], 0, 0);
      new;
      assert edgeKeyIndex[..] == Initial(2 * |net.edges|).index && edgeKeyLowLink[..] == Initial(2 * |net.edges|).low;
    }

    method SetupNextEdgeKey(p: int)
      requires Valid() && 0 <= p < 2 * |net.edges| && edgeKeyIndex[p] == NO_INDEX
      modifies this`currIndex, this`tarjanStack, edgeKeyIndex, edgeKeyLowLink, edgeKeyOnStack
      ensures Valid() && State() == Setup(old(State()), p)
    {
      SetupGrows(net.Transitions(), State(), p);
      edgeKeyIndex[p] := currIndex;
      edgeKeyLowLink[p] := currIndex;
      currIndex := currIndex + 1;
      tarjanStack := tarjanStack + [p];
      edgeKeyOnStack[p] := true;
    }

    method MinimizeTo(p: int, value: int)
      requires Valid() && 0 <= p < 2 * |net.edges|
      modifies edgeKeyLowLink
      ensures Valid() && State() == MinTo(old(State()), p, value)
    {
      if edgeKeyLowLink[p] > value {
        edgeKeyLowLink[p] := value;
      }
    }

    method PopKey() returns (q: int)
      requires Flags(edgeKeyOnStack[..], tarjanStack) && NoRepeats(tarjanStack) && tarjanStack != []
      requires 0 <= tarjanStack[|tarjanStack| - 1] < edgeKeyOnStack.Length
      modifies this`tarjanStack, edgeKeyOnStack
      ensures q == old(tarjanStack[|tarjanStack| - 1]) && tarjanStack == old(tarjanStack[..|tarjanStack| - 1])
      ensures Flags(edgeKeyOnStack[..], tarjanStack) && NoRepeats(tarjanStack)
    {
      q := tarjanStack[|tarjanStack| - 1];
      PopFlag(edgeKeyOnStack[..], tarjanStack);
      tarjanStack := tarjanStack[..|tarjanStack| - 1];
      edgeKeyOnStack[q] := false;
    }

    /** Emits the component of p when p is the first of its keys that was found. */
    method BuildComponent(p: int)
      requires Valid() && 0 <= p < 2 * |net.edges| && p in tarjanStack
      modifies this`tarjanStack, this`components, this`emitted, edgeKeyOnStack
      ensures Valid() && State() == Build(old(State()), p)
    {
      BuildShape(net.Transitions(), State(), p);
      if edgeKeyLowLink[p] == edgeKeyIndex[p] {
        TakeComponent(p);
      }
    }

    method TakeComponent(p: int)
      requires Flags(edgeKeyOnStack[..], tarjanStack) && NoRepeats(tarjanStack) && p in tarjanStack
      requires forall i :: 0 <= i < |tarjanStack| ==> 0 <= tarjanStack[i] < edgeKeyOnStack.Length
      requires Reports(components, emitted, excludeSingleEdgeComponents)
      modifies this`tarjanStack, this`components, this`emitted, edgeKeyOnStack
      ensures emitted == old(emitted) + [PoppedTo(old(tarjanStack), p)]
      ensures tarjanStack == old(tarjanStack)[..|old(tarjanStack)| - |PoppedTo(old(tarjanStack), p)|]
      ensures Flags(edgeKeyOnStack[..], tarjanStack) && Reports(components, emitted, excludeSingleEdgeComponents)
    {
      if tarjanStack[|tarjanStack| - 1] == p {
        var _ := PopKey();
        ReportSingle(p);
      } else {
        var component := PopComponent(p);
        ReportComponent(component);
      }
    }

    method ReportSingle(p: int)
      requires Reports(components, emitted, excludeSingleEdgeComponents)
      modifies this`components, this`emitted
      ensures Reports(components, emitted, excludeSingleEdgeComponents) && emitted == old(emitted) + [[p]]
    {
      ReportOk(components, emitted, excludeSingleEdgeComponents, [p]);
      components := WithSingle(components, p, excludeSingleEdgeComponents);
      emitted := emitted + [[p]];
    }

    method ReportComponent(component: seq<int>)
      requires Reports(components, emitted, excludeSingleEdgeComponents) && |component| > 1
      modifies this`components, this`emitted
      ensures Reports(components, emitted, excludeSingleEdgeComponents) && emitted == old(emitted) + [component]
    {
      ReportOk(components, emitted, excludeSingleEdgeComponents, component);
      components := WithComponent(components, component);
      emitted := emitted + [component];
    }

    method PopComponent(p: int) returns (component: seq<int>)
      requires Flags(edgeKeyOnStack[..], tarjanStack) && NoRepeats(tarjanStack) && p in tarjanStack
      requires forall i :: 0 <= i < |tarjanStack| ==> 0 <= tarjanStack[i] < edgeKeyOnStack.Length
      modifies this`tarjanStack, edgeKeyOnStack
      ensures component == PoppedTo(old(tarjanStack), p) && tarjanStack == old(tarjanStack)[..|old(tarjanStack)| - |component|]
      ensures Flags(edgeKeyOnStack[..], tarjanStack) && NoRepeats(tarjanStack)
    {
      component := [];
      while true
        invariant Flags(edgeKeyOnStack[..], tarjanStack) && NoRepeats(tarjanStack) && p in tarjanStack
        invariant |component| <= |old(tarjanStack)| && tarjanStack == old(tarjanStack)[..|old(tarjanStack)| - |component|]
        invariant component + PoppedTo(tarjanStack, p) == PoppedTo(old(tarjanStack), p)
        decreases |tarjanStack|
      {
        PoppedFirst(component, tarjanStack, p);
        var q := PopKey();
        component := component + [q];
        if q == p {
          break;
        }
      }
    }

    // ----- the recursive version

    /** Sets a key up, handles its neighbours at the given node, and builds its component. */
    method FindComponentForEdgeKey(p: int, adj: int)
      requires Valid() && 0 <= p < 2 * |net.edges| && edgeKeyIndex[p] == NO_INDEX && 0 <= adj < |net.leaving|
      modifies this`currIndex, this`tarjanStack, this`components, this`emitted, edgeKeyIndex, edgeKeyLowLink, edgeKeyOnStack
      ensures Valid() && ValidGraph(net.Transitions()) && AreKeys(net.Transitions(), net.Next(p / 2, adj))
      ensures State() == Visit(net.Transitions(), p, net.Next(p / 2, adj), old(State()))
      decreases |White(State())|, 0
    {
      ghost var g, s := net.Transitions(), State();
      net.TransitionsOk();
      NextKeys(net, p / 2, adj);
      SetupGrows(g, s, p);
      SetupNextEdgeKey(p);
      HandleNeighbors(p, adj);
      ghost var s2 := State();
      assert s2.stack[|s.stack|] == p;
      BuildComponent(p);
    }

    method HandleNeighbors(p: int, adj: int)
      requires Valid() && Indexed(State(), p) && 0 <= adj < |net.leaving|
      modifies this`currIndex, this`tarjanStack, this`components, this`emitted, edgeKeyIndex, edgeKeyLowLink, edgeKeyOnStack
      ensures Valid() && ValidGraph(net.Transitions()) && AreKeys(net.Transitions(), net.Next(p / 2, adj))
      ensures State() == HandleAll(net.Transitions(), p, net.Next(p / 2, adj), old(State()))
      decreases |White(State())|, 3
    {
      ghost var g, s := net.Transitions(), State();
      net.TransitionsOk();
      NextKeys(net, p / 2, adj);
      var edge, keys := p / 2, net.leaving[adj];
      ghost var rest := net.Next(edge, adj);
      var i := 0;
      while i < |keys|
        invariant 0 <= i <= |keys| && Valid() && Indexed(State(), p) && Grows(s, State())
        invariant rest == net.Allowed(edge, keys[i..]) && AreKeys(g, rest)
        invariant HandleAll(g, p, rest, State()) == HandleAll(g, p, net.Next(edge, adj), s)
      {
        AllowedStep(net, edge, keys, i, g);
        FewerWhite(s, State());
        rest := HandleNext(p, edge, keys[i], rest, net.Allowed(edge, keys[i + 1..]), s);
        i := i + 1;
      }
    }

    /** Handles the next neighbour if the turn onto it is allowed. */
    method HandleNext(p: int, edge: int, q: int, ghost all: seq<int>, ghost rest: seq<int>, ghost s0: TarjanState) returns (ghost r: seq<int>)
      requires Valid() && Indexed(State(), p) && 0 <= q < 2 * |net.edges| && ValidGraph(net.Transitions()) && Grows(s0, State())
      requires all == (if net.allowed(edge, q) then [q] else []) + rest && AreKeys(net.Transitions(), all) && AreKeys(net.Transitions(), rest)
      modifies this`currIndex, this`tarjanStack, this`components, this`emitted, edgeKeyIndex, edgeKeyLowLink, edgeKeyOnStack
      ensures r == rest && Valid() && Indexed(State(), p) && Grows(s0, State())
      ensures HandleAll(net.Transitions(), p, rest, State()) == HandleAll(net.Transitions(), p, all, old(State()))
      decreases |White(State())|, 2
    {
      r := rest;
      ghost var s := State();
      HandleFirst(net.Transitions(), p, q, net.allowed(edge, q), rest, all, s);
      if net.allowed(edge, q) {
        HandleNeighbor(p, q, net.Head(q));
        GrowsTransitive(s0, s, State());
      }
    }

    method HandleNeighbor(p: int, q: int, adj: int)
      requires Valid() && Indexed(State(), p) && 0 <= q < 2 * |net.edges| && adj == net.Head(q)
      modifies this`currIndex, this`tarjanStack, this`components, this`emitted, edgeKeyIndex, edgeKeyLowLink, edgeKeyOnStack
      ensures Valid() && ValidGraph(net.Transitions()) && State() == Handle(net.Transitions(), p, q, old(State()))
      decreases |White(State())|, 1
    {
      net.TransitionsOk();
      if edgeKeyIndex[q] == NO_INDEX {
        FindComponentForEdgeKey(q, adj);
        MinimizeTo(p, edgeKeyLowLink[q]);
      } else if edgeKeyOnStack[q] {
        MinimizeTo(p, edgeKeyIndex[q]);
      }
    }

    method FindComponentsRecursive()
      requires Valid() && State() == Initial(2 * |net.edges|)
      modifies this, edgeKeyIndex, edgeKeyLowLink, edgeKeyOnStack
      ensures Valid() && ValidGraph(net.Transitions()) && State() == SearchTo(net.Transitions(), |net.edges|)
    {
      ghost var g := net.Transitions();
      net.TransitionsOk();
      var e := 0;
      while e < |net.edges|
        invariant 0 <= e <= |net.edges| && Valid() && State() == SearchTo(g, e)
      {
        SearchEdgeRecursive(e);
        e := e + 1;
      }
    }

    method SearchEdgeRecursive(e: nat)
      requires Valid() && e < |net.edges| && ValidGraph(net.Transitions()) && State() == SearchTo(net.Transitions(), e)
      modifies this, edgeKeyIndex, edgeKeyLowLink, edgeKeyOnStack
      ensures Valid() && State() == SearchTo(net.Transitions(), e + 1)
    {
      OneMoreEdge(net.Transitions(), e);
      var adj := net.edges[e].1;
      BothFromHead(net, e);
      FindUnlessFound(Fwd(e), adj, net.Transitions()[Fwd(e)]);
      FindUnlessFound(Bwd(e), adj, net.Transitions()[Fwd(e)]);
    }

    method FindUnlessFound(key: int, adj: int, ghost next: seq<int>)
      requires Valid() && 0 <= key < 2 * |net.edges| && 0 <= adj < |net.leaving| && next == net.Next(key / 2, adj)
      requires ValidGraph(net.Transitions()) && AreKeys(net.Transitions(), next)
      modifies this, edgeKeyIndex, edgeKeyLowLink, edgeKeyOnStack
      ensures Valid() && State() == if old(State()).index[key] == NO_INDEX then Visit(net.Transitions(), key, next, old(State())) else old(State())
    {
      if edgeKeyIndex[key] == NO_INDEX {
        FindComponentForEdgeKey(key, adj);
      }
    }

    // ----- the version on an explicit stack

    /** The numbers on the stack stand for the given steps. */
    ghost predicate Holds(steps: seq<Step>)
      reads this
    {
      && |dfsStackPQ| == |dfsStackAdj| == |steps|
      && forall i {:trigger steps[i]} :: 0 <= i < |steps| ==>
           Encodable(steps[i]) && Encode(steps[i]) == (dfsStackPQ[i].0, dfsStackPQ[i].1, dfsStackAdj[i])
    }

    method Push(a: Step, ghost steps: seq<Step>) returns (ghost steps': seq<Step>)
      requires Holds(steps) && Encodable(a)
      modifies this`dfsStackPQ, this`dfsStackAdj
      ensures steps' == steps + [a] && Holds(steps')
    {
      var (low, high, adj) := Encode(a);
      dfsStackPQ := dfsStackPQ + [(low, high)];
      dfsStackAdj := dfsStackAdj + [adj];
      steps' := steps + [a];
    }

    method Pop(ghost steps: seq<Step>) returns (a: Step, ghost rest: seq<Step>)
      requires Holds(steps) && steps != []
      modifies this`dfsStackPQ, this`dfsStackAdj
      ensures steps == rest + [a] && Holds(rest)
    {
      var last := |dfsStackPQ| - 1;
      var pq, adj := dfsStackPQ[last], dfsStackAdj[last];
      dfsStackPQ, dfsStackAdj := dfsStackPQ[..last], dfsStackAdj[..last];
      DecodeEncoded(steps[last]);
      a := Decode(pq.0, pq.1, adj);
      rest := steps[..last];
    }

    method ExecuteBuild(p: int, ghost rest: seq<Step>)
      requires Valid() && Safe(net, rest + [Step.BuildComponent(p)], State())
      modifies this`tarjanStack, this`components, this`emitted, edgeKeyOnStack
      ensures Valid() && Comes(net, old(State()), rest + [Step.BuildComponent(p)], State(), rest)
    {
      SafeTop(net, rest, Step.BuildComponent(p), State());
      ExecTop(net, rest, Step.BuildComponent(p), State());
      WeightTop(rest, Step.BuildComponent(p));
      BuildComponent(p);
    }

    method ExecuteUpdate(p: int, q: int, ghost rest: seq<Step>)
      requires Valid() && Safe(net, rest + [UpdateLowLink(p, q)], State())
      modifies edgeKeyLowLink
      ensures Valid() && Comes(net, old(State()), rest + [UpdateLowLink(p, q)], State(), rest)
    {
      SafeTop(net, rest, UpdateLowLink(p, q), State());
      ExecTop(net, rest, UpdateLowLink(p, q), State());
      WeightTop(rest, UpdateLowLink(p, q));
      MinimizeTo(p, edgeKeyLowLink[q]);
    }

    method ExecuteHandle(p: int, q: int, adj: int, ghost rest: seq<Step>) returns (ghost steps: seq<Step>)
      requires Valid() && Holds(rest) && Safe(net, rest + [Step.HandleNeighbor(p, q, adj)], State())
      modifies this`dfsStackPQ, this`dfsStackAdj, edgeKeyLowLink
      ensures Valid() && Holds(steps) && Comes(net, old(State()), rest + [Step.HandleNeighbor(p, q, adj)], State(), steps)
    {
      SafeTop(net, rest, Step.HandleNeighbor(p, q, adj), State());
      ExecTop(net, rest, Step.HandleNeighbor(p, q, adj), State());
      WeightTop(rest, Step.HandleNeighbor(p, q, adj));
      steps := rest;
      if edgeKeyIndex[q] == NO_INDEX {
        HandleComes(net, rest, p, q, State());
        HeadInRange(net, q);
        steps := ExpandNeighbor(p, q, adj, rest);
      } else if edgeKeyOnStack[q] {
        MinimizeTo(p, edgeKeyIndex[q]);
      }
    }

    /** The update is pushed first, so that it runs after the neighbour is found. */
    method ExpandNeighbor(p: int, q: int, adj: int, ghost rest: seq<Step>) returns (ghost steps: seq<Step>)
      requires Holds(rest) && p >= 0 && q >= 0 && adj >= 0
      modifies this`dfsStackPQ, this`dfsStackAdj
      ensures Holds(steps) && steps == rest + [UpdateLowLink(p, q)] + [Step.FindComponent(q, adj)]
    {
      steps := Push(UpdateLowLink(p, q), rest);
      steps := Push(Step.FindComponent(q, adj), steps);
    }

    /** Sets the key up; building its component is pushed first, so that it runs after the
        traversal of its neighbours. */
    method ExecuteFind(p: int, adj: int, ghost rest: seq<Step>) returns (ghost steps: seq<Step>)
      requires Valid() && Holds(rest) && Safe(net, rest + [Step.FindComponent(p, adj)], State())
      modifies this`dfsStackPQ, this`dfsStackAdj, this`currIndex, this`tarjanStack, edgeKeyIndex, edgeKeyLowLink, edgeKeyOnStack
      ensures Valid() && Holds(steps) && Comes(net, old(State()), rest + [Step.FindComponent(p, adj)], State(), steps)
    {
      SafeTop(net, rest, Step.FindComponent(p, adj), State());
      FindComes(net, rest, p, adj, State());
      SetupNextEdgeKey(p);
      steps := PushTraversal(p, adj, rest);
    }

    method PushTraversal(p: int, adj: int, ghost rest: seq<Step>) returns (ghost steps: seq<Step>)
      requires net.Valid() && Holds(rest) && p >= 0 && 0 <= adj < |net.leaving|
      modifies this`dfsStackPQ, this`dfsStackAdj
      ensures KeysOk(net, net.Next(p / 2, adj)) && Holds(steps)
      ensures steps == rest + [Step.BuildComponent(p)] + Handles(net, p, net.Next(p / 2, adj))
    {
      steps := Push(Step.BuildComponent(p), rest);
      steps := PushNeighbors(p, adj, steps);
    }

    method PushNeighbors(p: int, adj: int, ghost steps: seq<Step>) returns (ghost steps': seq<Step>)
      requires net.Valid() && Holds(steps) && p >= 0 && 0 <= adj < |net.leaving|
      modifies this`dfsStackPQ, this`dfsStackAdj
      ensures KeysOk(net, net.Next(p / 2, adj)) && Holds(steps') && steps' == steps + Handles(net, p, net.Next(p / 2, adj))
    {
      var edge, keys := p / 2, net.leaving[adj];
      AllowedAreKeys(net, edge, keys);
      steps' := steps;
      var i := 0;
      assert keys[..0] == [];
      while i < |keys|
        invariant 0 <= i <= |keys| && Holds(steps') && KeysOk(net, net.Allowed(edge, keys[..i]))
        invariant steps' == steps + Handles(net, p, net.Allowed(edge, keys[..i]))
      {
        AllowedAppend(net, edge, keys, i);
        HeadInRange(net, keys[i]);
        if net.allowed(edge, keys[i]) {
          steps' := Push(Step.HandleNeighbor(p, keys[i], net.Head(keys[i])), steps');
        }
        i := i + 1;
      }
      assert keys[..i] == keys;
    }

    /** Executes the steps on the stack, and those they put there, until none is left. */
    method StartSearch(ghost pending: seq<Step>)
      requires Valid() && Holds(pending) && Safe(net, pending, State())
      modifies this, edgeKeyIndex, edgeKeyLowLink, edgeKeyOnStack
      ensures Valid() && Holds([]) && State() == Exec(net, pending, old(State()))
    {
      ghost var steps := pending;
      while |dfsStackPQ| > 0
        invariant Valid() && Holds(steps) && Safe(net, steps, State())
        invariant Exec(net, steps, State()) == Exec(net, pending, old(State()))
        decreases |White(State())|, Weight(steps)
      {
        ghost var s0, steps0 := State(), steps;
        steps := ExecuteNext(steps);
        LessLeft(net, s0, steps0, State(), steps);
      }
    }

    method ExecuteNext(ghost pending: seq<Step>) returns (ghost steps: seq<Step>)
      requires Valid() && Holds(pending) && pending != [] && Safe(net, pending, State())
      modifies this, edgeKeyIndex, edgeKeyLowLink, edgeKeyOnStack
      ensures Valid() && Holds(steps) && Comes(net, old(State()), pending, State(), steps)
    {
      ghost var rest;
      var a;
      a, rest := Pop(pending);
      steps := rest;
      match a
      case BuildComponent(p) =>
        SafeTop(net, rest, a, State());
        ExecuteBuild(p, rest);
      case UpdateLowLink(p, q) =>
        ExecuteUpdate(p, q, rest);
      case HandleNeighbor(p, q, adj) =>
        steps := ExecuteHandle(p, q, adj, rest);
      case FindComponent(p, adj) =>
        steps := ExecuteFind(p, adj, rest);
    }

    /** Searches from a key, unless it was found before. */
    method SearchUnlessFound(key: int, adj: int, ghost next: seq<int>)
      requires Valid() && Holds([]) && 0 <= key < 2 * |net.edges| && 0 <= adj < |net.leaving| && next == Flipped(net.Next(key / 2, adj))
      requires ValidGraph(LastFirst(net.Transitions())) && AreKeys(LastFirst(net.Transitions()), next)
      modifies this, edgeKeyIndex, edgeKeyLowLink, edgeKeyOnStack
      ensures Valid() && Holds([])
      ensures State() == if old(State()).index[key] == NO_INDEX then Visit(LastFirst(net.Transitions()), key, next, old(State())) else old(State())
    {
      if edgeKeyIndex[key] == NO_INDEX {
        OneMoreSearch(net, key, adj, State());
        ghost var steps := Push(Step.FindComponent(key, adj), []);
        StartSearch(steps);
      }
    }

    /** Both keys of an edge; the backward key only if the forward search did not find it. */
    method FindComponentsForEdgeState(e: nat)
      requires Valid() && Holds([]) && e < |net.edges| && ValidGraph(LastFirst(net.Transitions()))
      requires State() == SearchTo(LastFirst(net.Transitions()), e)
      modifies this, edgeKeyIndex, edgeKeyLowLink, edgeKeyOnStack
      ensures Valid() && Holds([]) && State() == SearchTo(LastFirst(net.Transitions()), e + 1)
    {
      OneMoreEdge(LastFirst(net.Transitions()), e);
      var adj := net.edges[e].1;
      BothFromHead(net, e);
      SearchUnlessFound(Fwd(e), adj, LastFirst(net.Transitions())[Fwd(e)]);
      SearchUnlessFound(Bwd(e), adj, LastFirst(net.Transitions())[Fwd(e)]);
    }

    method FindComponents()
      requires Valid() && Holds([]) && State() == Initial(2 * |net.edges|)
      modifies this, edgeKeyIndex, edgeKeyLowLink, edgeKeyOnStack
      ensures Valid() && ValidGraph(LastFirst(net.Transitions())) && State() == SearchTo(LastFirst(net.Transitions()), |net.edges|)
    {
      ghost var g := LastFirst(net.Transitions());
      net.TransitionsOk();
      LastFirstValid(net.Transitions());
      var e := 0;
      while e < |net.edges|
        invariant 0 <= e <= |net.edges| && Valid() && Holds([]) && State() == SearchTo(g, e)
      {
        FindComponentsForEdgeState(e);
        e := e + 1;
      }
    }
  }

  lemma PoppedFirst(component: seq<int>, stack: seq<int>, p: int)
    requires p in stack
    ensures var n := |stack| - 1;
            if stack[n] == p then component + PoppedTo(stack, p) == component + [p]
            else p in stack[..n] && component + PoppedTo(stack, p) == component + [stack[n]] + PoppedTo(stack[..n], p)
  {
  }

  lemma LastFirstValid(g: Successors)
    ensures ValidGraph(g) ==> ValidGraph(LastFirst(g))
    ensures forall x, y :: IsEdge(LastFirst(g), x, y) <==> IsEdge(g, x, y)
  {
    if ValidGraph(g) {
      forall x | 0 <= x < |g| ensures AreKeys(LastFirst(g), LastFirst(g)[x]) {
        assert AreKeys(g, g[x]);
      }
    }
    forall x, y ensures IsEdge(LastFirst(g), x, y) <==> IsEdge(g, x, y) {
      if 0 <= x < |g| {
        FlippedSame(g[x], y);
      }
    }
  }

  lemma FlippedSame(ks: seq<int>, y: int)
    ensures y in Flipped(ks) <==> y in ks
  {
    if y in ks {
      var i :| 0 <= i < |ks| && ks[i] == y;
      assert Flipped(ks)[|ks| - 1 - i] == y;
    }
  }

  lemma LessLeft(net: Network, s: TarjanState, steps: seq<Step>, s': TarjanState, steps': seq<Step>)
    requires net.Valid() && Comes(net, s, steps, s', steps')
    ensures |White(s')| < |White(s)| || (|White(s')| == |White(s)| && Weight(steps') < Weight(steps))
  {
    var found := White(s) - White(s');
    assert White(s) == White(s') + found;
    if found == {} {
      assert White(s') == White(s);
    }
  }

  ghost predicate KeysOk(net: Network, qs: seq<int>) {
    forall i :: 0 <= i < |qs| ==> 0 <= qs[i] < 2 * |net.edges|
  }

  lemma AllowedAppend(net: Network, edge: int, keys: seq<int>, i: nat)
    requires net.Valid() && i < |keys| && KeysOk(net, keys) && KeysOk(net, net.Allowed(edge, keys[..i]))
    ensures net.Allowed(edge, keys[..i + 1]) == net.Allowed(edge, keys[..i]) + (if net.allowed(edge, keys[i]) then [keys[i]] else [])
    ensures KeysOk(net, net.Allowed(edge, keys[..i + 1]))
    ensures net.allowed(edge, keys[i]) ==> forall p ::
              Handles(net, p, net.Allowed(edge, keys[..i + 1])) == Handles(net, p, net.Allowed(edge, keys[..i])) + [HandleNeighbor(p, keys[i], net.Head(keys[i]))]
  {
    AllowedSnoc(net, edge, keys[..i], keys[i]);
    assert keys[..i] + [keys[i]] == keys[..i + 1];
  }

  lemma {:induction false} AllowedSnoc(net: Network, edge: int, keys: seq<int>, k: int)
    ensures net.Allowed(edge, keys + [k]) == net.Allowed(edge, keys) + (if net.allowed(edge, k) then [k] else [])
  {
    if keys != [] {
      AllowedSnoc(net, edge, keys[1..], k);
      assert (keys + [k])[1..] == keys[1..] + [k];
    }
  }

  lemma FindComes(net: Network, rest: seq<Step>, p: int, adj: int, s: TarjanState)
    requires net.Valid() && StepOk(net, FindComponent(p, adj), s) && Safe(net, rest + [FindComponent(p, adj)], s)
    ensures KeysOk(net, net.Next(p / 2, adj))
    ensures Comes(net, s, rest + [FindComponent(p, adj)], Setup(s, p), rest + [BuildComponent(p)] + Handles(net, p, net.Next(p / 2, adj)))
  {
    AllowedAreKeys(net, p / 2, net.leaving[adj]);
    FindExpands(net, rest, p, adj, s);
    SetupGrows(LastFirst(net.Transitions()), s, p);
  }

  /** Executing the new stack comes to the same as executing the old one, and less is left to do. */
  ghost predicate Comes(net: Network, s: TarjanState, steps: seq<Step>, s': TarjanState, steps': seq<Step>)
    requires net.Valid()
  {
    && Safe(net, steps, s) && Safe(net, steps', s') && Exec(net, steps', s') == Exec(net, steps, s)
    && White(s') <= White(s) && (White(s') == White(s) ==> Weight(steps') < Weight(steps))
  }

  lemma HandleComes(net: Network, rest: seq<Step>, p: int, q: int, s: TarjanState)
    requires net.Valid() && 0 <= q < 2 * |net.edges| && StepOk(net, HandleNeighbor(p, q, net.Head(q)), s)
    requires Safe(net, rest + [HandleNeighbor(p, q, net.Head(q))], s) && s.index[q] == NO_INDEX
    ensures Comes(net, s, rest + [HandleNeighbor(p, q, net.Head(q))], s, rest + [UpdateLowLink(p, q)] + [FindComponent(q, net.Head(q))])
  {
    HandleExpands(net, rest, p, q, s);
    WeightTop(rest, HandleNeighbor(p, q, net.Head(q)));
    WeightTop(rest, UpdateLowLink(p, q));
    WeightTop(rest + [UpdateLowLink(p, q)], FindComponent(q, net.Head(q)));
  }

  lemma SafeTop(net: Network, rest: seq<Step>, a: Step, s: TarjanState)
    requires net.Valid() && Safe(net, rest + [a], s)
    ensures StepOk(net, a, s)
  {
    var steps := rest + [a];
    assert steps[|steps| - 1] == a;
  }

  lemma HeadInRange(net: Network, key: int)
    requires net.Valid() && 0 <= key < 2 * |net.edges|
    ensures 0 <= net.Head(key) < |net.leaving|
  {
    assert 0 <= key / 2 < |net.edges|;
  }

  /** From the head of the forward key, both keys of an edge see the successors of the forward key. */
  lemma BothFromHead(net: Network, e: nat)
    requires net.Valid() && e < |net.edges|
    ensures Fwd(e) / 2 == e && Bwd(e) / 2 == e && 0 <= net.edges[e].1 < |net.leaving|
    ensures net.Next(e, net.edges[e].1) == net.Transitions()[Fwd(e)] && AreKeys(net.Transitions(), net.Transitions()[Fwd(e)])
  {
    NextKeys(net, e, net.edges[e].1);
  }

  lemma NextKeys(net: Network, edge: int, adj: int)
    requires net.Valid() && 0 <= adj < |net.leaving|
    ensures AreKeys(net.Transitions(), net.Next(edge, adj))
  {
    AllowedAreKeys(net, edge, net.leaving[adj]);
  }

  lemma {:induction false} AllowedAreKeys(net: Network, edge: int, keys: seq<int>)
    requires forall i :: 0 <= i < |keys| ==> 0 <= keys[i] < 2 * |net.edges|
    ensures forall i :: 0 <= i < |net.Allowed(edge, keys)| ==> 0 <= net.Allowed(edge, keys)[i] < 2 * |net.edges|
  {
    if keys != [] {
      AllowedAreKeys(net, edge, keys[1..]);
    }
  }

  lemma AllowedStep(net: Network, edge: int, keys: seq<int>, i: nat, g: Successors)
    requires i < |keys| && AreKeys(g, net.Allowed(edge, keys[i..]))
    ensures net.Allowed(edge, keys[i..]) == (if net.allowed(edge, keys[i]) then [keys[i]] else []) + net.Allowed(edge, keys[i + 1..])
    ensures AreKeys(g, net.Allowed(edge, keys[i + 1..]))
    ensures net.allowed(edge, keys[i]) ==> net.Allowed(edge, keys[i..])[0] == keys[i] && net.Allowed(edge, keys[i..])[1..] == net.Allowed(edge, keys[i + 1..])
  {
    assert keys[i..][1..] == keys[i + 1..];
    var rest, all := net.Allowed(edge, keys[i + 1..]), net.Allowed(edge, keys[i..]);
    var d := |all| - |rest|;
    forall j | 0 <= j < |rest| ensures 0 <= rest[j] < |g| {
      assert rest[j] == all[j + d];
    }
  }

  /** Handling the neighbours from the first on. */
  lemma HandleFirst(g: Successors, p: int, k: int, taken: bool, rest: seq<int>, all: seq<int>, s: TarjanState)
    requires ValidGraph(g) && Shape(g, s) && Indexed(s, p) && s.currIndex >= 0 && 0 <= k < |g| && AreKeys(g, rest)
    requires all == (if taken then [k] else []) + rest
    ensures AreKeys(g, all) && HandleAll(g, p, rest, if taken then Handle(g, p, k, s) else s) == HandleAll(g, p, all, s)
  {
    if taken {
      assert all[0] == k && all[1..] == rest;
    } else {
      assert all == rest;
    }
  }

  lemma GrowsTransitive(s: TarjanState, s1: TarjanState, r: TarjanState)
    requires Grows(s, s1) && Grows(s1, r)
    ensures Grows(s, r)
  {
    assert forall k :: Indexed(s, k) ==> Indexed(s1, k);
  }

  lemma OneMoreSearch(net: Network, key: int, adj: int, s: TarjanState)
    requires net.Valid() && ValidGraph(LastFirst(net.Transitions())) && StateOk(LastFirst(net.Transitions()), s)
    requires 0 <= key < 2 * |net.edges| && s.index[key] == NO_INDEX && 0 <= adj < |net.leaving|
    requires AreKeys(LastFirst(net.Transitions()), Flipped(net.Next(key / 2, adj)))
    ensures Safe(net, [FindComponent(key, adj)], s)
    ensures Exec(net, [FindComponent(key, adj)], s) == Visit(LastFirst(net.Transitions()), key, Flipped(net.Next(key / 2, adj)), s)
  {
    var a := FindComponent(key, adj);
    assert [] + [a] == [a];
    ExecTop(net, [], a, s);
  }

  // ----- what both versions find

  lemma {:induction false} SameLeftovers(g: Successors, h: Successors, e: nat)
    requires SameEdges(g, h)
    ensures Leftovers(g, e) == Leftovers(h, e)
  {
    if e > 0 {
      SameLeftovers(g, h, e - 1);
      var before := Leftovers(g, e - 1);
      SameCut(g, h, before);
      SameReach(Cut(g, before), Cut(h, before));
    }
  }

  lemma SameAreComponents(g: Successors, h: Successors, emitted: seq<seq<int>>)
    requires SameEdges(g, h) && AreComponents(g, emitted)
    ensures AreComponents(h, emitted)
  {
    SameReach(g, h);
    forall i | 0 <= i < |emitted| ensures IsComponent(h, Keys(emitted[i])) {
      SameComponent(h, g, Keys(emitted[i]));
    }
  }

  lemma SameAnswer(g: Successors, h: Successors, cut: set<int>, emitted: seq<seq<int>>)
    requires SameEdges(g, h) && AreComponents(Cut(h, cut), emitted)
    requires AreComponents(h, emitted) <==> forall k :: k in cut ==> Alone(h, k)
    ensures AreComponents(Cut(g, cut), emitted) && (AreComponents(g, emitted) <==> forall k :: k in cut ==> Alone(g, k))
  {
    SameCut(h, g, cut);
    SameAreComponents(Cut(h, cut), Cut(g, cut), emitted);
    if AreComponents(g, emitted) {
      SameAreComponents(g, h, emitted);
    }
    if AreComponents(h, emitted) {
      SameAreComponents(h, g, emitted);
    }
    SameReach(g, h);
    forall k ensures Alone(g, k) <==> Alone(h, k) {
      assert forall y :: Mutual(g, k, y) <==> Mutual(h, k, y);
    }
  }

  /** The order in which successors are handled makes no difference to the components. */
  lemma OrderDoesNotMatter(g: Successors, e: nat)
    requires ValidGraph(g) && ValidGraph(LastFirst(g)) && |g| == 2 * e
    ensures AreComponents(Cut(g, Leftovers(g, e)), SearchTo(LastFirst(g), e).emitted)
    ensures AreComponents(g, SearchTo(LastFirst(g), e).emitted) <==> forall k :: k in Leftovers(g, e) ==> Alone(g, k)
  {
    var h := LastFirst(g);
    LastFirstValid(g);
    SearchFinds(h, e);
    SearchExact(h, e);
    SameLeftovers(g, h, e);
    SameAnswer(g, h, Leftovers(g, e), SearchTo(h, e).emitted);
  }

  /** What a search promises of the transitions of a network: the lists and flags are exactly
      the components when no turn leads onto a leftover backward key and back, and only then;
      in any case they are those of the transitions that do not start from leftover keys. */
  ghost predicate Promise(net: Network, r: ConnectedComponents, emitted: seq<seq<int>>, exclude: bool)
    requires net.Valid()
  {
    var g, e := net.Transitions(), |net.edges|;
    && Reports(r, emitted, exclude) && r.numEdgeKeys == 2 * e && r.numComponents == |emitted|
    && AreComponents(Cut(g, Leftovers(g, e)), emitted)
    && (AreComponents(g, emitted) <==> forall k :: k in Leftovers(g, e) ==> Alone(g, k))
  }

  ghost predicate Promised(net: Network, r: ConnectedComponents, exclude: bool)
    requires net.Valid()
  {
    exists emitted :: Promise(net, r, emitted, exclude)
  }

  lemma ItIsPromised(net: Network, r: ConnectedComponents, emitted: seq<seq<int>>, exclude: bool)
    requires net.Valid() && Promise(net, r, emitted, exclude)
    ensures Promised(net, r, exclude)
  {
  }

  method FindComponents(net: Network, excludeSingle: bool) returns (r: ConnectedComponents, ghost emitted: seq<seq<int>>)
    requires net.Valid()
    ensures Promise(net, r, emitted, excludeSingle) && Promised(net, r, excludeSingle)
  {
    r, emitted := Search(net, excludeSingle);
    ItIsPromised(net, r, emitted, excludeSingle);
  }

  method FindComponentsRecursive(net: Network, excludeSingle: bool) returns (r: ConnectedComponents, ghost emitted: seq<seq<int>>)
    requires net.Valid()
    ensures Promise(net, r, emitted, excludeSingle) && Promised(net, r, excludeSingle)
  {
    r, emitted := SearchRecursively(net, excludeSingle);
    ItIsPromised(net, r, emitted, excludeSingle);
  }

  method Search(net: Network, excludeSingle: bool) returns (r: ConnectedComponents, ghost emitted: seq<seq<int>>)
    requires net.Valid()
    ensures Promise(net, r, emitted, excludeSingle)
  {
    var tarjan := new EdgeBasedTarjanSCC(net, excludeSingle);
    net.TransitionsOk();
    LastFirstValid(net.Transitions());
    tarjan.FindComponents();
    r, emitted := tarjan.components, tarjan.emitted;
    OrderDoesNotMatter(net.Transitions(), |net.edges|);
  }

  method SearchRecursively(net: Network, excludeSingle: bool) returns (r: ConnectedComponents, ghost emitted: seq<seq<int>>)
    requires net.Valid()
    ensures Promise(net, r, emitted, excludeSingle)
  {
    var tarjan := new EdgeBasedTarjanSCC(net, excludeSingle);
    net.TransitionsOk();
    tarjan.FindComponentsRecursive();
    r, emitted := tarjan.components, tarjan.emitted;
    SearchFinds(net.Transitions(), |net.edges|);
    SearchExact(net.Transitions(), |net.edges|);
  }

  /** Where u-turns are allowed, what is returned are the strongly connected components. */
  lemma FoundWithUTurns(net: Network, r: ConnectedComponents, emitted: seq<seq<int>>, exclude: bool)
    requires net.Valid() && Promise(net, r, emitted, exclude) && UTurnsAllowed(net.Transitions())
    ensures AreComponents(net.Transitions(), emitted)
  {
    net.TransitionsOk();
    UTurnsSuffice(net.Transitions(), |net.edges|);
  }

  /** Both versions give the same partition. */
  lemma SamePartition(net: Network, r1: ConnectedComponents, e1: seq<seq<int>>, r2: ConnectedComponents, e2: seq<seq<int>>, exclude: bool, i: nat)
    requires net.Valid() && Promise(net, r1, e1, exclude) && Promise(net, r2, e2, exclude) && i < |e1|
    ensures exists j :: 0 <= j < |e2| && Keys(e2[j]) == Keys(e1[i])
  {
    SameComponentListed(Cut(net.Transitions(), Leftovers(net.Transitions(), |net.edges|)), e1, e2, i);
  }

  lemma SameComponentListed(h: Successors, e1: seq<seq<int>>, e2: seq<seq<int>>, i: nat)
    requires AreComponents(h, e1) && AreComponents(h, e2) && i < |e1|
    ensures exists j :: 0 <= j < |e2| && Keys(e2[j]) == Keys(e1[i])
  {
    var c := Keys(e1[i]);
    assert IsComponent(h, c) && AreKeys(h, e1[i]);
    var x :| x in c;
    assert Listed(e2, x);
    var j :| 0 <= j < |e2| && x in e2[j];
    var d := Keys(e2[j]);
    assert IsComponent(h, d) && x in d;
    forall y ensures y in c <==> y in d {
      assert Mutual(h, x, y) <==> y in c;
      assert Mutual(h, x, y) <==> y in d;
    }
  }

  // ----- without u-turns

  /** Three nodes A, B and C with the edges A-B, A-C and C-B, where no u-turn is allowed: each
      way round the triangle is a component of three keys. */
  const TRIANGLE: Successors := [[5], [2], [4], [0], [1], [3]]

  /** Its network: nodes A, B and C are 0, 1 and 2. */
  function TriangleNetwork(): Network {
    Network([(0, 1), (0, 2), (2, 1)], [[0, 2], [1, 5], [3, 4]], (edge, key) => key / 2 != edge)
  }

  lemma TriangleTransitions()
    ensures TriangleNetwork().Valid() && TriangleNetwork().Transitions() == TRIANGLE
  {
    var net := TriangleNetwork();
    assert net.Next(0, 1) == [5] && net.Next(0, 0) == [2];
    assert net.Next(1, 2) == [4] && net.Next(1, 0) == [0];
    assert net.Next(2, 1) == [1] && net.Next(2, 2) == [3];
    forall k | 0 <= k < 6 ensures net.Transitions()[k] == TRIANGLE[k] {
      assert k == 0 || k == 1 || k == 2 || k == 3 || k == 4 || k == 5;
    }
  }

  lemma TriangleEdges()
    ensures ValidGraph(TRIANGLE) && IsEdge(TRIANGLE, 1, 2) && IsEdge(TRIANGLE, 2, 4) && IsEdge(TRIANGLE, 4, 1)
    ensures forall u, v :: u in {0, 3, 5} && IsEdge(TRIANGLE, u, v) ==> v in {0, 3, 5}
  {
    forall x | 0 <= x < |TRIANGLE| ensures AreKeys(TRIANGLE, TRIANGLE[x]) {
      assert x == 0 || x == 1 || x == 2 || x == 3 || x == 4 || x == 5;
    }
  }

  lemma TriangleAround()
    ensures Mutual(TRIANGLE, 1, 2) && !Reach(TRIANGLE, 0, 1)
  {
    TriangleEdges();
    ReachEdge(TRIANGLE, 1, 2);
    ReachEdge(TRIANGLE, 2, 4);
    ReachEdge(TRIANGLE, 4, 1);
    ReachTrans(TRIANGLE, 2, 4, 1);
    if Reach(TRIANGLE, 0, 1) {
      var u, v := Exit(TRIANGLE, 0, 1, {0, 3, 5});
    }
  }

  lemma LeftoversGrow(g: Successors, e: nat, k: int)
    requires k in Leftovers(g, e)
    ensures k in Leftovers(g, e + 1)
  {
  }

  /** The first backward key is a leftover, so the search takes the component of keys 1, 2 and 4
      apart. */
  lemma TriangleIsTakenApart()
    ensures ValidGraph(TRIANGLE) && 1 in Leftovers(TRIANGLE, 3) && Mutual(TRIANGLE, 1, 2)
    ensures !AreComponents(TRIANGLE, SearchTo(TRIANGLE, 3).emitted)
  {
    TriangleEdges();
    TriangleAround();
    FirstLeftover(TRIANGLE);
    LeftoversGrow(TRIANGLE, 1, 1);
    LeftoversGrow(TRIANGLE, 2, 1);
    SearchExact(TRIANGLE, 3);
    assert !Alone(TRIANGLE, 1);
  }

  lemma FirstLeftover(g: Successors)
    requires !Reach(g, 0, 1)
    ensures 1 in Leftovers(g, 1)
  {
    assert Cut(g, {}) == g;
    assert Leftovers(g, 0) == {};
    if RootReaches(g, {}, 1, Bwd(0)) {
      var e :| 0 <= e < 1 && Reach(Cut(g, {}), Fwd(e), Bwd(0));
    }
  }
}
