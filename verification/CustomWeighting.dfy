/** Custom weightings: statements that change a speed or a priority edge by edge, the range the
    results can take, and the lower bound of the weight that A* gets from that range. */
module CustomWeightings {
  import opened Walks

  /** An edge in one direction; what is known of it are the encoded values. */
  type Edge = int

  datatype Keyword = If | ElseIf | Else
  datatype Op = Multiply | Limit | Add

  /** Always is the condition that is written as true. */
  datatype Condition = Always | When(holds: Edge -> bool)

  /** A number, or an encoded value with the range it is stored in. */
  datatype Operand = Number(number: real) | Encoded(get: Edge -> real, least: real, greatest: real) {
    function Of(e: Edge): real {
      if Number? then number else get(e)
    }

    function Range(): MinMax {
      if Number? then MinMax(number, number) else MinMax(least, greatest)
    }

    ghost predicate Valid() {
      Encoded? ==> forall e :: least <= get(e) <= greatest
    }

    predicate NonNegative() {
      Range().low >= 0.0
    }
  }

  datatype Statement = Statement(keyword: Keyword, condition: Condition, operation: Op, value: Operand) {
    predicate Matches(e: Edge) {
      keyword == Else || condition.Always? || condition.holds(e)
    }
  }

  datatype MinMax = MinMax(low: real, high: real) {
    predicate Has(v: real) {
      low <= v <= high
    }
  }

  datatype Result<T> = Ok(value: T) | Err

  function Min(a: real, b: real): real { if a <= b then a else b }
  function Max(a: real, b: real): real { if a >= b then a else b }

  /** The largest floating-point number, 2^1024 - 2^971, is what a minimum is sought from. */
  const MAX_FLOAT: real
    := 179769313486231570814527423731704356798070567525844996598917476803157260780028538760589558632766878171540458953514382464234321326889464182768467546703537516986049910576551282076245490090389328944075868508455133942304583236903222948165808559332123348274797826204144723168738177180919299881250404026184124858368.0

  function Evaluate(op: Op, v: real, x: real): real {
    match op
    case Multiply => v * x
    case Limit => Min(v, x)
    case Add => v + x
  }

  function Apply(op: Op, a: MinMax, b: MinMax): MinMax {
    match op
    case Multiply => MinMax(a.low * b.low, a.high * b.high)
    case Limit => MinMax(Min(a.low, b.low), Min(a.high, b.high))
    case Add => MinMax(a.low + b.low, a.high + b.high)
  }

  /** Ranges of numbers that are not negative are combined like the numbers in them. */
  lemma ApplyEncloses(op: Op, a: MinMax, b: MinMax, v: real, x: real)
    requires a.Has(v) && b.Has(x) && a.low >= 0.0 && b.low >= 0.0
    ensures Apply(op, a, b).Has(Evaluate(op, v, x)) && Apply(op, a, b).low >= 0.0
  {
    match op
    case Multiply => MultiplyOk(a, b, v, x);
    case Limit =>
    case Add =>
  }

  /** Both ends of the range are reached, so no smaller range would do. */
  lemma ApplyReached(op: Op, a: MinMax, b: MinMax)
    ensures Apply(op, a, b) == MinMax(Evaluate(op, a.low, b.low), Evaluate(op, a.high, b.high))
  {
  }

  /** A limit is never exceeded, and lowers nothing that is within it. */
  lemma LimitCaps(v: real, limit: real)
    ensures var r := Evaluate(Limit, v, limit); r <= limit && r <= v && (v <= limit ==> r == v) && (v > limit ==> r == limit)
  {
  }

  lemma MultiplyOk(a: MinMax, b: MinMax, v: real, x: real)
    requires a.Has(v) && b.Has(x) && a.low >= 0.0 && b.low >= 0.0
    ensures Apply(Multiply, a, b).Has(Evaluate(Multiply, v, x)) && Apply(Multiply, a, b).low >= 0.0
  {
    MultiplyEncloses(a, b, v, x);
  }

  lemma MultiplyEncloses(a: MinMax, b: MinMax, v: real, x: real)
    requires a.Has(v) && b.Has(x) && a.low >= 0.0 && b.low >= 0.0
    ensures 0.0 <= a.low * b.low <= v * x <= a.high * b.high
  {
    ProductsOrdered(a.low, v, b.low, x);
    ProductsOrdered(v, a.high, x, b.high);
    ProductsOrdered(0.0, a.low, 0.0, b.low);
  }

  lemma ProductsOrdered(a: real, b: real, c: real, d: real)
    requires 0.0 <= a <= b && 0.0 <= c <= d
    ensures a * c <= b * d
  {
    ProductOrdered(c, a, b);
    ProductOrdered(b, c, d);
  }

  lemma ProductOrdered(a: real, b: real, c: real)
    requires 0.0 <= a && b <= c
    ensures a * b <= a * c
  {
  }

  // ----- groups

  type Group = seq<Statement>

  /** A group is an if-statement with the else-statements that follow it. */
  ghost predicate IsGroup(g: Group) {
    g != [] && g[0].keyword == If && forall i :: 0 < i < |g| ==> g[i].keyword != If
  }

  ghost predicate AreGroups(gs: seq<Group>) {
    forall i {:trigger gs[i]} :: 0 <= i < |gs| ==> IsGroup(gs[i])
  }

  ghost function Joined(gs: seq<Group>): seq<Statement> {
    if gs == [] then [] else Joined(gs[..|gs| - 1]) + gs[|gs| - 1]
  }

  lemma JoinedSnoc(gs: seq<Group>, g: Group)
    ensures Joined(gs + [g]) == Joined(gs) + g
  {
    assert (gs + [g])[..|gs|] == gs;
  }

  /** Fails exactly when the first statement is no if-statement. */
  method SplitIntoGroups(statements: seq<Statement>) returns (r: Result<seq<Group>>)
    ensures r.Err? <==> statements != [] && statements[0].keyword != If
    ensures r.Ok? ==> AreGroups(r.value) && Joined(r.value) == statements
  {
    var result: seq<Group>, group: Group := [], [];
    var i := 0;
    while i < |statements|
      invariant 0 <= i <= |statements| && AreGroups(result) && (group == [] ==> i == 0 && result == [])
      invariant i > 0 ==> statements[0].keyword == If
      invariant group != [] ==> IsGroup(group)
      invariant Joined(result) + group == statements[..i]
    {
      var st := statements[i];
      assert statements[..i + 1] == statements[..i] + [st];
      if st.keyword == If {
        if group != [] {
          JoinedSnoc(result, group);
          result := result + [group];
        }
        group := [st];
      } else {
        if group == [] {
          return Err;
        }
        group := group + [st];
      }
      i := i + 1;
    }
    assert statements[..i] == statements;
    if group != [] {
      JoinedSnoc(result, group);
      result := result + [group];
    }
    return Ok(result);
  }

  // ----- evaluation

  /** Statement i is the first of the group that matches the edge. */
  ghost predicate FirstMatch(g: Group, e: Edge, i: int) {
    0 <= i < |g| && g[i].Matches(e) && forall j {:trigger g[j]} :: 0 <= j < i ==> !g[j].Matches(e)
  }

  ghost predicate NoMatch(g: Group, e: Edge) {
    forall j {:trigger g[j]} :: 0 <= j < |g| ==> !g[j].Matches(e)
  }

  /** A group turns one value into the other: the first match is applied, or nothing is. */
  ghost predicate GroupStep(g: Group, before: real, after: real, e: Edge) {
    || (NoMatch(g, e) && after == before)
    || exists i {:trigger FirstMatch(g, e, i)} :: FirstMatch(g, e, i) && after == Evaluate(g[i].operation, before, g[i].value.Of(e))
  }

  /** The values between the groups, from the initial value to the last one. */
  ghost predicate IsChain(gs: seq<Group>, initialValue: real, e: Edge, chain: seq<real>) {
    && |chain| == |gs| + 1 && chain[0] == initialValue
    && forall k {:trigger gs[k]} :: 0 <= k < |gs| ==> GroupStep(gs[k], chain[k], chain[k + 1], e)
  }

  /** Some chain over the groups leads from the initial value to this one. */
  ghost predicate LeadsTo(gs: seq<Group>, initialValue: real, e: Edge, value: real) {
    exists chain :: IsChain(gs, initialValue, e, chain) && chain[|gs|] == value
  }

  lemma ChainGrows(gs: seq<Group>, g: Group, initialValue: real, e: Edge, before: real, after: real)
    requires LeadsTo(gs, initialValue, e, before) && GroupStep(g, before, after, e)
    ensures LeadsTo(gs + [g], initialValue, e, after)
  {
    var chain :| IsChain(gs, initialValue, e, chain) && chain[|gs|] == before;
    var longer, all := chain + [after], gs + [g];
    forall k | 0 <= k < |all| ensures GroupStep(all[k], longer[k], longer[k + 1], e) {
      if k < |gs| {
        assert GroupStep(gs[k], chain[k], chain[k + 1], e);
      }
    }
    assert IsChain(all, initialValue, e, longer);
  }

  /** There is one value at most that the groups lead to. */
  lemma {:induction false} OneValue(gs: seq<Group>, initialValue: real, e: Edge, a: seq<real>, b: seq<real>)
    requires IsChain(gs, initialValue, e, a) && IsChain(gs, initialValue, e, b)
    ensures a == b
  {
    var k := 0;
    while k < |gs|
      invariant 0 <= k <= |gs| && a[..k + 1] == b[..k + 1]
    {
      assert a[k] == a[..k + 1][k] == b[..k + 1][k] == b[k];
      OneStep(gs[k], a[k], a[k + 1], b[k + 1], e);
      assert a[..k + 2] == a[..k + 1] + [a[k + 1]] && b[..k + 2] == b[..k + 1] + [b[k + 1]];
      k := k + 1;
    }
    assert a[..k + 1] == a && b[..k + 1] == b;
  }

  lemma OneStep(g: Group, before: real, x: real, y: real, e: Edge)
    requires GroupStep(g, before, x, e) && GroupStep(g, before, y, e)
    ensures x == y
  {
    forall i, j | FirstMatch(g, e, i) && FirstMatch(g, e, j) ensures i == j {
    }
  }

  /** The value after a group: its first statement that matches is applied. */
  function EvalGroup(g: Group, v: real, e: Edge): real {
    if g == [] then v
    else if g[0].Matches(e) then Evaluate(g[0].operation, v, g[0].value.Of(e))
    else EvalGroup(g[1..], v, e)
  }

  function EvalAll(gs: seq<Group>, v: real, e: Edge): real {
    if gs == [] then v else EvalGroup(gs[|gs| - 1], EvalAll(gs[..|gs| - 1], v, e), e)
  }

  lemma {:induction false} EvalGroupStep(g: Group, v: real, e: Edge)
    ensures GroupStep(g, v, EvalGroup(g, v, e), e)
  {
    if g != [] {
      if g[0].Matches(e) {
        assert FirstMatch(g, e, 0);
      } else {
        EvalGroupStep(g[1..], v, e);
        if i :| FirstMatch(g[1..], e, i) && EvalGroup(g, v, e) == Evaluate(g[1..][i].operation, v, g[1..][i].value.Of(e)) {
          assert FirstMatch(g, e, i + 1) by {
            forall j | 0 <= j < i + 1 ensures !g[j].Matches(e) {
              assert j > 0 ==> g[j] == g[1..][j - 1];
            }
          }
        } else {
          forall j | 0 <= j < |g| ensures !g[j].Matches(e) {
            assert j > 0 ==> g[j] == g[1..][j - 1];
          }
        }
      }
    }
  }

  /** What the groups make of a value is what their chain leads to, and nothing else. */
  lemma {:induction false} EvalAllIs(gs: seq<Group>, v: real, e: Edge, value: real)
    ensures value == EvalAll(gs, v, e) <==> LeadsTo(gs, v, e, value)
  {
    EvalAllLeads(gs, v, e);
    if LeadsTo(gs, v, e, value) {
      var a :| IsChain(gs, v, e, a) && a[|gs|] == value;
      var b :| IsChain(gs, v, e, b) && b[|gs|] == EvalAll(gs, v, e);
      OneValue(gs, v, e, a, b);
    }
  }

  lemma {:induction false} EvalAllLeads(gs: seq<Group>, v: real, e: Edge)
    ensures LeadsTo(gs, v, e, EvalAll(gs, v, e))
  {
    if gs == [] {
      assert IsChain(gs, v, e, [v]);
    } else {
      var n := |gs| - 1;
      EvalAllLeads(gs[..n], v, e);
      EvalGroupStep(gs[n], EvalAll(gs[..n], v, e), e);
      ChainGrows(gs[..n], gs[n], v, e, EvalAll(gs[..n], v, e), EvalAll(gs, v, e));
      assert gs[..n] + [gs[n]] == gs;
    }
  }

  /** Applies the first statement of a group that matches. */
  method ApplyGroup(g: Group, before: real, e: Edge) returns (value: real)
    ensures GroupStep(g, before, value, e)
  {
    value := before;
    var j := 0;
    while j < |g| && !g[j].Matches(e)
      invariant 0 <= j <= |g| && forall k {:trigger g[k]} :: 0 <= k < j ==> !g[k].Matches(e)
    {
      j := j + 1;
    }
    if j < |g| {
      // the first match wins
      value := Evaluate(g[j].operation, value, g[j].value.Of(e));
      assert FirstMatch(g, e, j);
    }
  }

  /** Evaluates the groups one after the other. */
  method EdgeToDouble(gs: seq<Group>, initialValue: real, e: Edge) returns (value: real)
    ensures LeadsTo(gs, initialValue, e, value)
    ensures value == EvalAll(gs, initialValue, e)
  {
    value := initialValue;
    var i := 0;
    assert IsChain(gs[..0], initialValue, e, [initialValue]);
    while i < |gs|
      invariant 0 <= i <= |gs| && LeadsTo(gs[..i], initialValue, e, value)
    {
      var next := ApplyGroup(gs[i], value, e);
      ChainGrows(gs[..i], gs[i], initialValue, e, value, next);
      assert gs[..i + 1] == gs[..i] + [gs[i]];
      value, i := next, i + 1;
    }
    assert gs[..i] == gs;
    EvalAllIs(gs, initialValue, e, value);
  }

  // ----- ranges

  function HasElse(g: Group): bool {
    g != [] && (g[|g| - 1].keyword == Else || HasElse(g[..|g| - 1]))
  }

  /** The range over all branches; a branch that can only be negative is an error. */
  function Merge(mm: MinMax, g: Group): Result<MinMax> {
    if g == [] then Ok(MinMax(MAX_FLOAT, 0.0)) else
    var s := g[|g| - 1];
    var rest, applied := Merge(mm, g[..|g| - 1]), Apply(s.operation, mm, s.value.Range());
    if rest.Err? || applied.high < 0.0 then Err
    else Ok(MinMax(Min(rest.value.low, applied.low), Max(rest.value.high, applied.high)))
  }

  function RangeOfGroup(mm: MinMax, g: Group): Result<MinMax>
    requires g != []
  {
    if g[0].condition.Always? then
      var applied := Apply(g[0].operation, mm, g[0].value.Range());
      if applied.high < 0.0 then Err else Ok(applied)
    else
      var merged := Merge(mm, g);
      if merged.Err? || HasElse(g) then merged
      else Ok(MinMax(Min(merged.value.low, mm.low), Max(merged.value.high, mm.high)))
  }

  function RangeOf(mm: MinMax, gs: seq<Group>): Result<MinMax>
    requires forall i :: 0 <= i < |gs| ==> gs[i] != []
  {
    if gs == [] then Ok(mm) else
    var before := RangeOf(mm, gs[..|gs| - 1]);
    if before.Err? then Err else RangeOfGroup(before.value, gs[|gs| - 1])
  }

  /** The statement can be the one that is applied: a first condition written as true shuts out all others. */
  ghost predicate CanApply(g: Group, i: int) {
    0 <= i < |g| && (g[0].condition.Always? ==> i == 0)
  }

  /** It may be that no statement is applied. */
  ghost predicate CanSkip(g: Group) {
    g != [] && !g[0].condition.Always? && forall i {:trigger g[i]} :: 0 <= i < |g| ==> g[i].keyword != Else
  }

  function Applied(mm: MinMax, s: Statement): MinMax {
    Apply(s.operation, mm, s.value.Range())
  }

  /** The upper end is that of a branch, or that of the range before where nothing may be applied. */
  ghost predicate HighReached(mm: MinMax, g: Group, high: real) {
    (CanSkip(g) && high == mm.high) || exists i {:trigger g[i]} :: CanApply(g, i) && high == Applied(mm, g[i]).high
  }

  ghost predicate LowReached(mm: MinMax, g: Group, low: real) {
    || low == MAX_FLOAT || (CanSkip(g) && low == mm.low)
    || exists i {:trigger g[i]} :: CanApply(g, i) && low == Applied(mm, g[i]).low
  }

  /** The least range with the ranges of all branches, and with the range before where nothing
      may be applied; a branch that can only be negative is an error. */
  ghost predicate IsRangeOfGroup(mm: MinMax, g: Group, r: Result<MinMax>) {
    if r.Err? then exists i {:trigger g[i]} :: CanApply(g, i) && Applied(mm, g[i]).high < 0.0
    else
      && (forall i {:trigger g[i]} :: CanApply(g, i) ==>
            Applied(mm, g[i]).high >= 0.0 && r.value.low <= Applied(mm, g[i]).low && Applied(mm, g[i]).high <= r.value.high)
      && (CanSkip(g) ==> r.value.low <= mm.low && mm.high <= r.value.high)
      && LowReached(mm, g, r.value.low) && HighReached(mm, g, r.value.high)
  }

  /** The merged range of the first statements. */
  lemma {:induction false} MergeIs(mm: MinMax, g: Group)
    ensures Merge(mm, g).Err? ==> exists i {:trigger g[i]} :: 0 <= i < |g| && Applied(mm, g[i]).high < 0.0
    ensures Merge(mm, g).Ok? ==>
              var r := Merge(mm, g).value;
              && (forall i {:trigger g[i]} :: 0 <= i < |g| ==> Applied(mm, g[i]).high >= 0.0 && r.low <= Applied(mm, g[i]).low && Applied(mm, g[i]).high <= r.high)
              && (r.low == MAX_FLOAT || exists i {:trigger g[i]} :: 0 <= i < |g| && r.low == Applied(mm, g[i]).low)
              && (if g == [] then r.high == 0.0 else exists i {:trigger g[i]} :: 0 <= i < |g| && r.high == Applied(mm, g[i]).high)
  {
    if g != [] {
      var n := |g| - 1;
      MergeIs(mm, g[..n]);
      assert Applied(mm, g[n]) == Apply(g[n].operation, mm, g[n].value.Range());
      assert forall i :: 0 <= i < n ==> g[..n][i] == g[i];
    }
  }

  lemma {:induction false} HasElseIs(g: Group)
    ensures HasElse(g) <==> exists i {:trigger g[i]} :: 0 <= i < |g| && g[i].keyword == Else
  {
    if g != [] {
      var n := |g| - 1;
      HasElseIs(g[..n]);
      assert forall i :: 0 <= i < n ==> g[..n][i] == g[i];
    }
  }

  lemma RangeOfGroupIs(mm: MinMax, g: Group)
    requires g != []
    ensures IsRangeOfGroup(mm, g, RangeOfGroup(mm, g))
  {
    if g[0].condition.Always? {
      assert CanApply(g, 0);
    } else {
      MergeIs(mm, g);
      HasElseIs(g);
    }
  }

  method FindMinMaxForGroup(minMax: MinMax, group: Group) returns (r: Result<MinMax>)
    requires IsGroup(group)
    ensures r == RangeOfGroup(minMax, group) && IsRangeOfGroup(minMax, group, r)
  {
    RangeOfGroupIs(minMax, group);
    if group[0].condition.Always? {
      var result := Apply(group[0].operation, minMax, group[0].value.Range());
      return if result.high < 0.0 then Err else Ok(result);
    }
    var merged, hasElse := MinMax(MAX_FLOAT, 0.0), false;
    var i := 0;
    while i < |group|
      invariant 0 <= i <= |group| && Merge(minMax, group[..i]) == Ok(merged) && hasElse == HasElse(group[..i])
    {
      var s := group[i];
      assert group[..i + 1][..i] == group[..i];
      if s.keyword == Else {
        hasElse := true;
      }
      var applied := Apply(s.operation, minMax, s.value.Range());
      if applied.high < 0.0 {
        MergeFails(minMax, group, i + 1);
        return Err;
      }
      merged := MinMax(Min(merged.low, applied.low), Max(merged.high, applied.high));
      i := i + 1;
    }
    assert group[..i] == group;
    if !hasElse {
      merged := MinMax(Min(merged.low, minMax.low), Max(merged.high, minMax.high));
    }
    return Ok(merged);
  }

  lemma {:induction false} MergeFails(mm: MinMax, g: Group, k: nat)
    requires k <= |g| && Merge(mm, g[..k]).Err?
    ensures Merge(mm, g).Err?
    decreases |g| - k
  {
    if k < |g| {
      var k' := k + 1;
      assert g[..k'][..k] == g[..k];
      MergeFails(mm, g, k');
    } else {
      assert g[..k] == g;
    }
  }

  /** The ranges between the first k groups, from the initial range on. */
  ghost predicate AreRanges(mm: MinMax, gs: seq<Group>, k: nat, ranges: seq<MinMax>) {
    && k <= |gs| && |ranges| == k + 1 && ranges[0] == mm
    && forall i {:trigger gs[i]} :: 0 <= i < k ==> IsRangeOfGroup(ranges[i], gs[i], Ok(ranges[i + 1]))
  }

  /** The groups lead from range to range to the last one, or to one that a group fails on. */
  ghost predicate RangeLeadsTo(mm: MinMax, gs: seq<Group>, r: Result<MinMax>) {
    exists k: nat, ranges :: AreRanges(mm, gs, k, ranges)
                             && if k == |gs| then r == Ok(ranges[k]) else r.Err? && IsRangeOfGroup(ranges[k], gs[k], r)
  }

  method FindMinMax(minMax: MinMax, groups: seq<Group>) returns (r: Result<MinMax>)
    requires AreGroups(groups)
    ensures r == RangeOf(minMax, groups) && RangeLeadsTo(minMax, groups, r)
  {
    r := Ok(minMax);
    var i := 0;
    ghost var ranges := [minMax];
    while i < |groups|
      invariant 0 <= i <= |groups| && r.Ok? && r == RangeOf(minMax, groups[..i])
      invariant AreRanges(minMax, groups, i, ranges) && r.value == ranges[i]
    {
      assert groups[..i + 1][..i] == groups[..i];
      r := FindMinMaxForGroup(r.value, groups[i]);
      if r.Ok? {
        ranges := ranges + [r.value];
      }
      if r.Err? {
        RangeFails(minMax, groups, i + 1);
        return;
      }
      i := i + 1;
    }
    assert groups[..i] == groups;
  }

  lemma {:induction false} RangeFails(mm: MinMax, gs: seq<Group>, k: nat)
    requires AreGroups(gs) && k <= |gs| && RangeOf(mm, gs[..k]).Err?
    ensures RangeOf(mm, gs).Err?
    decreases |gs| - k
  {
    if k < |gs| {
      var k' := k + 1;
      assert gs[..k'][..k] == gs[..k];
      RangeFails(mm, gs, k');
    } else {
      assert gs[..k] == gs;
    }
  }

  // ----- the range encloses every value

  ghost predicate OperandsOk(g: Group) {
    forall i {:trigger g[i]} :: 0 <= i < |g| ==> g[i].value.Valid() && g[i].value.NonNegative()
  }

  ghost predicate AllOperandsOk(gs: seq<Group>) {
    forall i {:trigger gs[i]} :: 0 <= i < |gs| ==> OperandsOk(gs[i])
  }

  lemma OperandIn(x: Operand, e: Edge)
    requires x.Valid()
    ensures x.Range().Has(x.Of(e))
  {
  }

  /** The merged range has the result of every branch. */
  lemma {:induction false} MergeEncloses(mm: MinMax, g: Group, v: real, e: Edge)
    requires mm.Has(v) && mm.low >= 0.0 && OperandsOk(g)
    ensures Merge(mm, g).Ok? && Merge(mm, g).value.low >= 0.0
    ensures forall i :: 0 <= i < |g| ==> Merge(mm, g).value.Has(Evaluate(g[i].operation, v, g[i].value.Of(e)))
  {
    if g != [] {
      var n := |g| - 1;
      MergeEncloses(mm, g[..n], v, e);
      OperandIn(g[n].value, e);
      ApplyEncloses(g[n].operation, mm, g[n].value.Range(), v, g[n].value.Of(e));
      forall i | 0 <= i < |g| ensures Merge(mm, g).value.Has(Evaluate(g[i].operation, v, g[i].value.Of(e))) {
        if i < n {
          assert g[..n][i] == g[i];
        }
      }
    }
  }

  lemma {:induction false} ElseMatches(g: Group, e: Edge)
    requires HasElse(g)
    ensures exists j :: 0 <= j < |g| && g[j].Matches(e)
  {
    if g[|g| - 1].keyword == Else {
      assert g[|g| - 1].Matches(e);
    } else {
      ElseMatches(g[..|g| - 1], e);
      var j :| 0 <= j < |g| - 1 && g[..|g| - 1][j].Matches(e);
      assert g[j].Matches(e);
    }
  }

  lemma GroupEncloses(mm: MinMax, g: Group, v: real, e: Edge)
    requires IsGroup(g) && mm.Has(v) && mm.low >= 0.0 && OperandsOk(g)
    ensures RangeOfGroup(mm, g).Ok? && RangeOfGroup(mm, g).value.low >= 0.0 && RangeOfGroup(mm, g).value.Has(EvalGroup(g, v, e))
  {
    if g[0].condition.Always? {
      OperandIn(g[0].value, e);
      ApplyEncloses(g[0].operation, mm, g[0].value.Range(), v, g[0].value.Of(e));
    } else {
      MergeEncloses(mm, g, v, e);
      EvalGroupStep(g, v, e);
      if HasElse(g) {
        ElseMatches(g, e);
      }
    }
  }

  /** Whatever the statements are, the range has the value of every edge. */
  lemma {:induction false} RangeEncloses(mm: MinMax, gs: seq<Group>, v: real, e: Edge)
    requires AreGroups(gs) && mm.Has(v) && mm.low >= 0.0 && AllOperandsOk(gs)
    ensures RangeOf(mm, gs).Ok? && RangeOf(mm, gs).value.low >= 0.0 && RangeOf(mm, gs).value.Has(EvalAll(gs, v, e))
  {
    if gs != [] {
      var n := |gs| - 1;
      RangeEncloses(mm, gs[..n], v, e);
      GroupEncloses(RangeOf(mm, gs[..n]).value, gs[n], EvalAll(gs[..n], v, e), e);
    }
  }

  // ----- the weighting

  const SPEED_CONV := 3.6
  const GLOBAL_MAX_SPEED := 999.0
  const GLOBAL_PRIORITY := 1.0

  /** A custom model: statements for speed and priority, in groups. */
  datatype CustomModel = CustomModel(speed: seq<Group>, priority: seq<Group>, distanceInfluence: real) {
    ghost predicate Valid() {
      AreGroups(speed) && AreGroups(priority) && AllOperandsOk(speed) && AllOperandsOk(priority) && distanceInfluence >= 0.0
    }

    function Speed(e: Edge): real {
      EvalAll(speed, GLOBAL_MAX_SPEED, e)
    }

    function Priority(e: Edge): real {
      EvalAll(priority, GLOBAL_PRIORITY, e)
    }
  }

  datatype Parameters = Parameters(maxSpeed: real, maxPriority: real, distanceInfluence: real)

  method CreateWeightingParameters(model: CustomModel) returns (r: Result<Parameters>)
    requires AreGroups(model.speed) && AreGroups(model.priority)
    ensures var s, p := RangeOf(MinMax(0.0, GLOBAL_MAX_SPEED), model.speed), RangeOf(MinMax(0.0, GLOBAL_PRIORITY), model.priority);
            r == if s.Err? || p.Err? then Err
                 else Ok(Parameters(Max(Min(s.value.high, GLOBAL_MAX_SPEED), 1.0), Max(p.value.high, 0.01), model.distanceInfluence))
  {
    var speedMinMax := FindMinMax(MinMax(0.0, GLOBAL_MAX_SPEED), model.speed);
    if speedMinMax.Err? {
      return Err;
    }
    var prioMinMax := FindMinMax(MinMax(0.0, GLOBAL_PRIORITY), model.priority);
    if prioMinMax.Err? {
      return Err;
    }
    var maxSpeed := Max(Min(speedMinMax.value.high, GLOBAL_MAX_SPEED), 1.0);
    var maxPriority := Max(prioMinMax.value.high, 0.01);
    return Ok(Parameters(maxSpeed, maxPriority, model.distanceInfluence));
  }

  function CalcSeconds(model: CustomModel, distance: real, e: Edge): Weight {
    if model.Speed(e) == 0.0 then Inf else Fin(distance / model.Speed(e) * SPEED_CONV)
  }

  function CalcEdgeWeight(model: CustomModel, distance: real, e: Edge): Weight {
    var priority := model.Priority(e);
    if priority == 0.0 then Inf else
    var seconds := CalcSeconds(model, distance, e);
    if seconds.Inf? then Inf else Fin(seconds.value / priority + distance * (model.distanceInfluence / 1000.0))
  }

  /** An edge is closed exactly if the model makes its speed or its priority zero; otherwise it
      weighs the seconds it takes, at 3.6 kilometres an hour to the metre a second, over its
      priority, and the influence of a thousand metres for each thousand metres. */
  lemma EdgeWeightIs(model: CustomModel, distance: real, e: Edge, speed: real, priority: real)
    requires LeadsTo(model.speed, GLOBAL_MAX_SPEED, e, speed) && LeadsTo(model.priority, GLOBAL_PRIORITY, e, priority)
    ensures CalcEdgeWeight(model, distance, e).Inf? <==> speed == 0.0 || priority == 0.0
    ensures speed != 0.0 && priority != 0.0 ==>
              (CalcEdgeWeight(model, distance, e).value - distance / 1000.0 * model.distanceInfluence) * priority * speed == 3.6 * distance
  {
    EvalAllIs(model.speed, GLOBAL_MAX_SPEED, e, speed);
    EvalAllIs(model.priority, GLOBAL_PRIORITY, e, priority);
    if speed != 0.0 && priority != 0.0 {
      var t := distance / speed;
      assert t * speed == distance;
      var q := t * SPEED_CONV / priority;
      assert q * priority == t * SPEED_CONV;
      assert distance * (model.distanceInfluence / 1000.0) == distance / 1000.0 * model.distanceInfluence;
      assert q * priority * speed == 3.6 * distance;
    }
  }

  function CalcMinWeightPerDistance(p: Parameters): real
    requires p.maxSpeed > 0.0 && p.maxPriority > 0.0
  {
    1.0 / (p.maxSpeed / SPEED_CONV) / p.maxPriority + p.distanceInfluence / 1000.0
  }

  /** Both bounds enclose the values of the edges, unless the clamp cuts the speed. */
  lemma BoundsEnclose(model: CustomModel, e: Edge)
    requires model.Valid()
    ensures RangeOf(MinMax(0.0, GLOBAL_MAX_SPEED), model.speed).Ok? && RangeOf(MinMax(0.0, GLOBAL_PRIORITY), model.priority).Ok?
    ensures 0.0 <= model.Speed(e) <= RangeOf(MinMax(0.0, GLOBAL_MAX_SPEED), model.speed).value.high
    ensures 0.0 <= model.Priority(e) <= RangeOf(MinMax(0.0, GLOBAL_PRIORITY), model.priority).value.high
  {
    RangeEncloses(MinMax(0.0, GLOBAL_MAX_SPEED), model.speed, GLOBAL_MAX_SPEED, e);
    RangeEncloses(MinMax(0.0, GLOBAL_PRIORITY), model.priority, GLOBAL_PRIORITY, e);
  }

  /** Edge by edge, the weight is at least the least weight per distance times the distance
      exactly when speed times priority is at most the product of their bounds. */
  lemma MinWeightIff(model: CustomModel, p: Parameters, distance: real, e: Edge)
    requires model.Valid() && p.maxSpeed > 0.0 && p.maxPriority > 0.0 && p.distanceInfluence == model.distanceInfluence && distance > 0.0
    requires CalcEdgeWeight(model, distance, e).Fin?
    ensures distance * CalcMinWeightPerDistance(p) <= CalcEdgeWeight(model, distance, e).value
            <==> model.Speed(e) * model.Priority(e) <= p.maxSpeed * p.maxPriority
  {
    WeightFormula(model, distance, e);
    WeightsOrdered(distance, model.Speed(e), model.Priority(e), p.maxSpeed, p.maxPriority, model.distanceInfluence / 1000.0);
  }

  lemma WeightFormula(model: CustomModel, distance: real, e: Edge)
    requires model.Valid() && CalcEdgeWeight(model, distance, e).Fin?
    ensures model.Speed(e) > 0.0 && model.Priority(e) > 0.0
    ensures CalcEdgeWeight(model, distance, e).value
         == distance / model.Speed(e) * SPEED_CONV / model.Priority(e) + distance * (model.distanceInfluence / 1000.0)
  {
    BoundsEnclose(model, e);
  }

  lemma WeightsOrdered(d: real, s: real, p: real, maxS: real, maxP: real, i: real)
    requires d > 0.0 && s > 0.0 && p > 0.0 && maxS > 0.0 && maxP > 0.0
    ensures d * (1.0 / (maxS / SPEED_CONV) / maxP + i) <= d / s * SPEED_CONV / p + d * i <==> s * p <= maxS * maxP
  {
    ReciprocalOfProduct(maxS, maxP);
    ReciprocalOfSpeed(d, s, p);
    var x := 1.0 / (maxS / SPEED_CONV) / maxP;
    assert d * (x + i) == d * x + d * i;
    QuotientsOrdered(d, SPEED_CONV, s * p, maxS * maxP);
  }

  lemma ReciprocalOfProduct(s: real, p: real)
    requires s > 0.0 && p > 0.0
    ensures s * p > 0.0 && 1.0 / (s / SPEED_CONV) / p == SPEED_CONV / (s * p)
  {
    var q := 1.0 / (s / SPEED_CONV);
    assert q * s == SPEED_CONV;
    var r := q / p;
    assert r * p == q;
    assert r * (s * p) == SPEED_CONV;
  }

  lemma ReciprocalOfSpeed(d: real, s: real, p: real)
    requires s > 0.0 && p > 0.0
    ensures s * p > 0.0 && d / s * SPEED_CONV / p == d * (SPEED_CONV / (s * p))
  {
    var q := d / s * SPEED_CONV;
    assert q * s == d * SPEED_CONV;
    var r := q / p;
    assert r * p == q;
    assert r * (s * p) == d * SPEED_CONV;
    var t := SPEED_CONV / (s * p);
    assert t * (s * p) == SPEED_CONV;
    assert (r - d * t) * (s * p) == 0.0;
  }

  lemma QuotientsOrdered(d: real, c: real, a: real, b: real)
    requires d > 0.0 && c > 0.0 && a > 0.0 && b > 0.0
    ensures d * (c / b) <= d * (c / a) <==> a <= b
  {
    var x, y := c / a, c / b;
    assert x * a == c && y * b == c && y > 0.0;
    assert (x - y) * a == y * (b - a);
    SameSign(x - y, a, b - a, y);
    SameSign(x - y, d, d * x - d * y, 1.0);
  }

  lemma SameSign(p: real, a: real, q: real, b: real)
    requires a > 0.0 && b > 0.0 && p * a == q * b
    ensures p >= 0.0 <==> q >= 0.0
  {
  }

  /** The bounds hold for the edge. */
  lemma WithinBounds(model: CustomModel, p: Parameters, distance: real, e: Edge)
    requires model.Valid() && distance >= 0.0 && p.maxSpeed > 0.0 && p.maxPriority > 0.0 && p.distanceInfluence == model.distanceInfluence
    requires model.Speed(e) <= p.maxSpeed && model.Priority(e) <= p.maxPriority && CalcEdgeWeight(model, distance, e).Fin?
    ensures distance * CalcMinWeightPerDistance(p) <= CalcEdgeWeight(model, distance, e).value
  {
    WeightFormula(model, distance, e);
    if distance > 0.0 {
      ProductsOrdered(model.Speed(e), p.maxSpeed, model.Priority(e), p.maxPriority);
      MinWeightIff(model, p, distance, e);
    } else {
      ZeroDistance(distance, model.Speed(e), model.Priority(e), CalcMinWeightPerDistance(p), model.distanceInfluence / 1000.0);
    }
  }

  /** As long as the bound of the speed stays within the clamp, no edge weighs less per distance
      than the bound that A* relies on. */
  lemma MinWeightIsLowerBound(model: CustomModel, p: Parameters, distance: real, e: Edge)
    requires model.Valid() && distance >= 0.0
    requires var s, r := RangeOf(MinMax(0.0, GLOBAL_MAX_SPEED), model.speed), RangeOf(MinMax(0.0, GLOBAL_PRIORITY), model.priority);
             s.Ok? && r.Ok? && s.value.high <= GLOBAL_MAX_SPEED
             && p == Parameters(Max(Min(s.value.high, GLOBAL_MAX_SPEED), 1.0), Max(r.value.high, 0.01), model.distanceInfluence)
    ensures CalcEdgeWeight(model, distance, e).Fin? ==> distance * CalcMinWeightPerDistance(p) <= CalcEdgeWeight(model, distance, e).value
  {
    BoundsEnclose(model, e);
    if CalcEdgeWeight(model, distance, e).Fin? {
      WithinBounds(model, p, distance, e);
    }
  }

  lemma ZeroDistance(d: real, s: real, p: real, m: real, i: real)
    requires d == 0.0 && s > 0.0 && p > 0.0
    ensures d * m == d / s * SPEED_CONV / p + d * i
  {
    assert d / s == 0.0;
    assert d / s * SPEED_CONV / p == 0.0;
  }

  /** A model that adds 100 to every speed: 1099 instead of the 999 that the bound is clamped to. */
  function FastModel(): CustomModel {
    CustomModel([[Statement(If, Always, Add, Number(100.0))]], [], 0.0)
  }

  /** Beyond the clamp the bound is no bound: here every edge weighs less. */
  lemma ClampCutsTheBound(e: Edge)
    ensures FastModel().Valid()
    ensures CalcEdgeWeight(FastModel(), 1.0, e).Fin?
    ensures CalcEdgeWeight(FastModel(), 1.0, e).value < CalcMinWeightPerDistance(Parameters(GLOBAL_MAX_SPEED, GLOBAL_PRIORITY, 0.0))
    ensures RangeOf(MinMax(0.0, GLOBAL_MAX_SPEED), FastModel().speed) == Ok(MinMax(100.0, 1099.0))
  {
    var m := FastModel();
    var g: seq<Group> := m.speed;
    assert g[..0] == [] && g[0][0].Matches(e);
    assert g[|g| - 1] == g[0] && g[..|g| - 1] == [];
    assert EvalAll([], GLOBAL_MAX_SPEED, e) == 999.0;
    assert EvalGroup(g[0], 999.0, e) == 1099.0;
    assert m.Speed(e) == 1099.0 && m.Priority(e) == 1.0;
    MinWeightIff(m, Parameters(GLOBAL_MAX_SPEED, GLOBAL_PRIORITY, 0.0), 1.0, e);
  }
}
