/** Turn costs: the entries of all nodes in one array, those of a node chained by their indices. */
module TurnCosts {
  import opened Counting
  import opened Permutations

  const NO_ENTRY := -1
  const MAX_ENTRIES := 1000

  datatype Turn = Turn(from: int, to: int, flags: int)

  datatype TurnEntry = TurnEntry(turn: Turn, next: int)

  predicate IsTurn(t: Turn, from: int, to: int) {
    t.from == from && t.to == to
  }

  function IdAt(ids: seq<int>, i: int): int {
    if 0 <= i < |ids| then ids[i] else NO_ENTRY
  }

  /** From the reference of a node, the entries lead through exactly these indices. */
  ghost predicate Linked(entries: seq<TurnEntry>, ref: int, ids: seq<int>) {
    && ref == IdAt(ids, 0)
    && forall i {:trigger ids[i]} :: 0 <= i < |ids| ==> 0 <= ids[i] < |entries| && entries[ids[i]].next == IdAt(ids, i + 1)
  }

  ghost predicate Placed(ids: seq<int>, u: int, places: seq<(int, int)>) {
    forall i {:trigger ids[i]} :: 0 <= i < |ids| ==> 0 <= ids[i] < |places| && places[ids[i]] == (u, i)
  }

  ghost function TurnAt(entries: seq<TurnEntry>, id: int): Turn {
    if 0 <= id < |entries| then entries[id].turn else Turn(0, 0, 0)
  }

  ghost function Turns(entries: seq<TurnEntry>, ids: seq<int>): seq<Turn> {
    seq(|ids|, i requires 0 <= i < |ids| => TurnAt(entries, ids[i]))
  }

  ghost predicate OnePerTurn(turns: seq<Turn>) {
    forall i, j :: 0 <= i < j < |turns| ==> Differ(turns, i, j)
  }

  ghost predicate Differ(turns: seq<Turn>, i: int, j: int)
    requires 0 <= i < |turns| && 0 <= j < |turns|
  {
    !IsTurn(turns[j], turns[i].from, turns[i].to)
  }

  /** None of the first k turns is this one. */
  ghost predicate NoneOfFirst(turns: seq<Turn>, k: int, from: int, to: int) {
    forall i {:trigger turns[i]} :: 0 <= i < k && i < |turns| ==> !IsTurn(turns[i], from, to)
  }

  /** Every entry belongs to the chain of one node, at one place, and no node has a turn twice. */
  ghost predicate StoreOk(entries: seq<TurnEntry>, refs: seq<int>, chains: seq<seq<int>>, places: seq<(int, int)>) {
    && |chains| == |refs| && |places| == |entries| == Total(chains)
    && forall u :: 0 <= u < |refs| ==> ChainOk(entries, refs, chains, places, u)
  }

  ghost predicate ChainOk(entries: seq<TurnEntry>, refs: seq<int>, chains: seq<seq<int>>, places: seq<(int, int)>, u: int)
    requires 0 <= u < |refs| == |chains|
  {
    Linked(entries, refs[u], chains[u]) && Placed(chains[u], u, places) && OnePerTurn(Turns(entries, chains[u]))
  }

  /** The entry for a turn comes last when there is none yet. */
  ghost function WithTurn(turns: seq<Turn>, from: int, to: int): seq<Turn> {
    if exists t :: t in turns && IsTurn(t, from, to) then turns else turns + [Turn(from, to, 0)]
  }

  lemma {:induction false} TotalGrows(chains: seq<seq<int>>, u: nat, x: int)
    requires u < |chains|
    ensures Total(chains[u := chains[u] + [x]]) == Total(chains) + 1
  {
    var n := |chains| - 1;
    var chains' := chains[u := chains[u] + [x]];
    if u < n {
      TotalGrows(chains[..n], u, x);
      assert chains'[..n] == chains[..n][u := chains[..n][u] + [x]];
    } else {
      assert chains'[..n] == chains[..n];
    }
  }

  /** Entries that stay as they are keep their chain. */
  lemma ChainStays(entries: seq<TurnEntry>, entries': seq<TurnEntry>, ref: int, ids: seq<int>)
    requires Linked(entries, ref, ids) && |entries'| >= |entries|
    requires forall i {:trigger ids[i]} :: 0 <= i < |ids| ==> 0 <= ids[i] < |entries| && entries'[ids[i]] == entries[ids[i]]
    ensures Linked(entries', ref, ids) && Turns(entries', ids) == Turns(entries, ids)
  {
  }

  ghost function Appended(entries: seq<TurnEntry>, prev: int, from: int, to: int): seq<TurnEntry> {
    var longer := entries + [TurnEntry(Turn(from, to, 0), NO_ENTRY)];
    if 0 <= prev < |entries| then longer[prev := longer[prev].(next := |entries|)] else longer
  }

  lemma OwnChainAppended(entries: seq<TurnEntry>, ref: int, ids: seq<int>, u: int, places: seq<(int, int)>, from: int, to: int)
    requires Linked(entries, ref, ids) && Placed(ids, u, places) && |places| == |entries|
    ensures var entries', ids' := Appended(entries, IdAt(ids, |ids| - 1), from, to), ids + [|entries|];
            && Linked(entries', IdAt(ids', 0), ids') && Placed(ids', u, places + [(u, |ids|)])
            && Turns(entries', ids') == Turns(entries, ids) + [Turn(from, to, 0)]
  {
    var n, ids' := |ids|, ids + [|entries|];
    var entries' := Appended(entries, IdAt(ids, n - 1), from, to);
    forall i | 0 <= i < |ids'|
      ensures 0 <= ids'[i] < |entries'| && entries'[ids'[i]].next == IdAt(ids', i + 1)
      ensures entries'[ids'[i]].turn == if i < n then entries[ids[i]].turn else Turn(from, to, 0)
    {
      if i < n {
        assert ids'[i] == ids[i];
        assert places[ids[i]] == (u, i);
        if i < n - 1 {
          assert places[ids[n - 1]] == (u, n - 1);
        }
      }
    }
    assert Turns(entries', ids') == Turns(entries, ids) + [Turn(from, to, 0)];
    forall i | 0 <= i < |ids'| ensures 0 <= ids'[i] <= |places| && (places + [(u, n)])[ids'[i]] == (u, i) {
      if i < n { assert ids'[i] == ids[i]; }
    }
  }

  lemma AppendedOnePerTurn(turns: seq<Turn>, from: int, to: int)
    requires OnePerTurn(turns) && NoneOfFirst(turns, |turns|, from, to)
    ensures OnePerTurn(turns + [Turn(from, to, 0)])
  {
    var turns' := turns + [Turn(from, to, 0)];
    forall i, j | 0 <= i < j < |turns'| ensures Differ(turns', i, j) {
      assert turns'[i] == turns[i];
      if j < |turns| { assert turns'[j] == turns[j] && Differ(turns, i, j); }
    }
  }

  lemma EntryAppended(entries: seq<TurnEntry>, refs: seq<int>, chains: seq<seq<int>>, places: seq<(int, int)>, via: int, from: int, to: int)
    requires StoreOk(entries, refs, chains, places) && 0 <= via < |refs|
    requires NoneOfFirst(Turns(entries, chains[via]), |chains[via]|, from, to)
    ensures var ids, id := chains[via], |entries|;
            var entries' := Appended(entries, IdAt(ids, |ids| - 1), from, to);
            && StoreOk(entries', refs[via := if ids == [] then id else refs[via]], chains[via := ids + [id]], places + [(via, |ids|)])
            && Turns(entries', ids + [id]) == Turns(entries, ids) + [Turn(from, to, 0)]
            && forall u {:trigger chains[u]} :: 0 <= u < |refs| && u != via ==> Turns(entries', chains[u]) == Turns(entries, chains[u])
  {
    var ids, id := chains[via], |entries|;
    var entries' := Appended(entries, IdAt(ids, |ids| - 1), from, to);
    var refs', chains' := refs[via := if ids == [] then id else refs[via]], chains[via := ids + [id]];
    var places' := places + [(via, |ids|)];
    assert ChainOk(entries, refs, chains, places, via);
    TotalGrows(chains, via, id);
    OwnChainAppended(entries, refs[via], ids, via, places, from, to);
    AppendedOnePerTurn(Turns(entries, ids), from, to);
    forall u | 0 <= u < |refs| && u != via
      ensures Turns(entries', chains[u]) == Turns(entries, chains[u])
      ensures ChainOk(entries', refs', chains', places', u)
    {
      assert ChainOk(entries, refs, chains, places, u);
      OthersStay(entries, refs[u], chains[u], u, ids, via, places, from, to);
    }
  }

  lemma OthersStay(entries: seq<TurnEntry>, ref: int, others: seq<int>, u: int, ids: seq<int>, via: int, places: seq<(int, int)>, from: int, to: int)
    requires Linked(entries, ref, others) && Placed(others, u, places) && Placed(ids, via, places) && u != via && |places| == |entries|
    ensures var entries' := Appended(entries, IdAt(ids, |ids| - 1), from, to);
            Linked(entries', ref, others) && Turns(entries', others) == Turns(entries, others) && Placed(others, u, places + [(via, |ids|)])
  {
    var prev := IdAt(ids, |ids| - 1);
    var entries' := Appended(entries, prev, from, to);
    forall i | 0 <= i < |others| ensures 0 <= others[i] < |entries| && entries'[others[i]] == entries[others[i]] {
      assert places[others[i]] == (u, i);
      if ids != [] {
        assert places[ids[|ids| - 1]] == (via, |ids| - 1);
      }
    }
    ChainStays(entries, entries', ref, others);
  }

  lemma EntryOf(entries: seq<TurnEntry>, refs: seq<int>, chains: seq<seq<int>>, places: seq<(int, int)>, via: int, k: int)
    requires StoreOk(entries, refs, chains, places) && 0 <= via < |refs| && 0 <= k < |chains[via]|
    ensures var id := chains[via][k];
            && 0 <= id < |entries| == |places| && places[id] == (via, k) && entries[id].next == IdAt(chains[via], k + 1)
            && Turns(entries, chains[via])[k] == entries[id].turn && id != NO_ENTRY
  {
    assert ChainOk(entries, refs, chains, places, via);
  }

  lemma OneMoreDiffers(turns: seq<Turn>, k: int, from: int, to: int)
    requires NoneOfFirst(turns, k, from, to) && 0 <= k < |turns| && !IsTurn(turns[k], from, to)
    ensures NoneOfFirst(turns, k + 1, from, to)
  {
  }

  // ----- another value for one entry

  lemma FlagsSet(entries: seq<TurnEntry>, refs: seq<int>, chains: seq<seq<int>>, places: seq<(int, int)>, id: int, flags: int)
    requires StoreOk(entries, refs, chains, places) && 0 <= id < |entries|
    requires 0 <= places[id].0 < |refs| && 0 <= places[id].1 < |chains[places[id].0]| && chains[places[id].0][places[id].1] == id
    ensures var entries' := entries[id := entries[id].(turn := entries[id].turn.(flags := flags))];
            var via, at := places[id].0, places[id].1;
            var before := Turns(entries, chains[via]);
            && StoreOk(entries', refs, chains, places)
            && Turns(entries', chains[via]) == before[at := before[at].(flags := flags)]
            && forall u {:trigger chains[u]} :: 0 <= u < |refs| && u != via ==> Turns(entries', chains[u]) == Turns(entries, chains[u])
  {
    var entries' := entries[id := entries[id].(turn := entries[id].turn.(flags := flags))];
    var via, at := places[id].0, places[id].1;
    forall u | 0 <= u < |refs|
      ensures ChainOk(entries', refs, chains, places, u)
      ensures u != via ==> Turns(entries', chains[u]) == Turns(entries, chains[u])
      ensures u == via ==> Turns(entries', chains[u]) == Turns(entries, chains[u])[at := Turns(entries, chains[u])[at].(flags := flags)]
    {
      assert ChainOk(entries, refs, chains, places, u);
      FlagsSetInChain(entries, refs[u], chains[u], u, places, id, flags);
      SameKeys(Turns(entries, chains[u]), Turns(entries', chains[u]));
    }
  }

  lemma FlagsSetInChain(entries: seq<TurnEntry>, ref: int, ids: seq<int>, u: int, places: seq<(int, int)>, id: int, flags: int)
    requires Linked(entries, ref, ids) && Placed(ids, u, places) && 0 <= id < |entries| == |places|
    ensures var entries' := entries[id := entries[id].(turn := entries[id].turn.(flags := flags))];
            && Linked(entries', ref, ids)
            && forall i {:trigger Turns(entries', ids)[i]} {:trigger Turns(entries, ids)[i]} :: 0 <= i < |ids| ==>
                 Turns(entries', ids)[i] == if ids[i] == id then Turns(entries, ids)[i].(flags := flags) else Turns(entries, ids)[i]
  {
  }

  lemma SameKeys(turns: seq<Turn>, turns': seq<Turn>)
    requires OnePerTurn(turns) && |turns'| == |turns|
    requires forall i {:trigger turns'[i]} :: 0 <= i < |turns| ==> turns'[i].from == turns[i].from && turns'[i].to == turns[i].to
    ensures OnePerTurn(turns')
  {
    forall i, j | 0 <= i < j < |turns'| ensures Differ(turns', i, j) {
      assert Differ(turns, i, j);
    }
  }

  // ----- edges with other numbers

  function Renumbered(e: TurnEntry, p: int -> int): TurnEntry {
    e.(turn := e.turn.(from := p(e.turn.from), to := p(e.turn.to)))
  }

  function AllRenumbered(entries: seq<TurnEntry>, p: int -> int): seq<TurnEntry> {
    seq(|entries|, e requires 0 <= e < |entries| => Renumbered(entries[e], p))
  }

  /** The turns of a node after the edges got new numbers. */
  ghost function TurnsRenumbered(turns: seq<Turn>, p: int -> int): seq<Turn> {
    seq(|turns|, i requires 0 <= i < |turns| => Turn(p(turns[i].from), p(turns[i].to), turns[i].flags))
  }

  ghost predicate EdgesBelow(entries: seq<TurnEntry>, edges: nat) {
    forall e {:trigger entries[e]} :: 0 <= e < |entries| ==> 0 <= entries[e].turn.from < edges && 0 <= entries[e].turn.to < edges
  }

  lemma EdgesSorted(entries: seq<TurnEntry>, refs: seq<int>, chains: seq<seq<int>>, places: seq<(int, int)>, p: int -> int, edges: nat)
    requires StoreOk(entries, refs, chains, places) && IsPermutation(p, edges) && EdgesBelow(entries, edges)
    ensures StoreOk(AllRenumbered(entries, p), refs, chains, places)
    ensures forall u {:trigger chains[u]} :: 0 <= u < |refs| ==>
              Turns(AllRenumbered(entries, p), chains[u]) == TurnsRenumbered(Turns(entries, chains[u]), p)
  {
    var entries' := AllRenumbered(entries, p);
    forall u | 0 <= u < |refs|
      ensures ChainOk(entries', refs, chains, places, u)
      ensures Turns(entries', chains[u]) == TurnsRenumbered(Turns(entries, chains[u]), p)
    {
      assert ChainOk(entries, refs, chains, places, u);
      assert Turns(entries', chains[u]) == TurnsRenumbered(Turns(entries, chains[u]), p);
      forall i | 0 <= i < |chains[u]| ensures TurnBelow(Turns(entries, chains[u])[i], edges) {
        assert entries[chains[u][i]].turn == Turns(entries, chains[u])[i];
      }
      RenumberedOnePerTurn(Turns(entries, chains[u]), p, edges);
    }
  }

  predicate TurnBelow(t: Turn, edges: nat) {
    0 <= t.from < edges && 0 <= t.to < edges
  }

  lemma RenumberedOnePerTurn(turns: seq<Turn>, p: int -> int, edges: nat)
    requires OnePerTurn(turns) && IsPermutation(p, edges) && forall i {:trigger turns[i]} :: 0 <= i < |turns| ==> TurnBelow(turns[i], edges)
    ensures OnePerTurn(TurnsRenumbered(turns, p))
  {
    var turns' := TurnsRenumbered(turns, p);
    forall i, j | 0 <= i < j < |turns'| ensures Differ(turns', i, j) {
      assert Differ(turns, i, j);
    }
  }

  // ----- chains in the order of the nodes

  ghost function Range(start: int, n: nat): seq<int> {
    seq(n, i => start + i)
  }

  /** A chain copied to consecutive places. */
  ghost predicate Block(now: seq<TurnEntry>, ref: int, start: nat, before: seq<TurnEntry>, ids: seq<int>, k: nat) {
    && k <= |ids| && start + k <= |now| && (k > 0 ==> ref == start) && (k == 0 ==> ref == IdAt(ids, 0))
    && forall i {:trigger ids[i]} :: 0 <= i < k ==> now[start + i] == TurnEntry(TurnAt(before, ids[i]), if i + 1 < k then start + i + 1 else NO_ENTRY)
  }

  lemma BlockStays(now: seq<TurnEntry>, now': seq<TurnEntry>, ref: int, start: nat, before: seq<TurnEntry>, ids: seq<int>)
    requires Block(now, ref, start, before, ids, |ids|) && |now'| >= start + |ids| && now'[..start + |ids|] == now[..start + |ids|]
    ensures Block(now', ref, start, before, ids, |ids|)
  {
    forall i {:trigger ids[i]} | 0 <= i < |ids| ensures now'[start + i] == now[start + i] {
      assert now'[..start + |ids|][start + i] == now[..start + |ids|][start + i];
    }
  }

  lemma BlockLinked(now: seq<TurnEntry>, ref: int, start: nat, before: seq<TurnEntry>, ids: seq<int>)
    requires Block(now, ref, start, before, ids, |ids|)
    ensures Linked(now, ref, Range(start, |ids|)) && Turns(now, Range(start, |ids|)) == Turns(before, ids)
  {
    var r := Range(start, |ids|);
    forall i | 0 <= i < |r| ensures 0 <= r[i] < |now| && now[r[i]] == TurnEntry(TurnAt(before, ids[i]), IdAt(r, i + 1)) {
      var id := ids[i];
    }
  }

  ghost function Blocks(chains: seq<seq<int>>): seq<seq<int>> {
    seq(|chains|, u requires 0 <= u < |chains| => Range(Total(chains[..u]), |chains[u]|))
  }

  ghost function BlockPlaces(chains: seq<seq<int>>): seq<(int, int)> {
    if chains == [] then []
    else BlockPlaces(chains[..|chains| - 1]) + seq(|chains[|chains| - 1]|, i => (|chains| - 1, i))
  }

  lemma {:induction false} BlocksPlaced(chains: seq<seq<int>>, u: nat)
    ensures |BlockPlaces(chains)| == Total(chains)
    ensures u < |chains| ==> Placed(Range(Total(chains[..u]), |chains[u]|), u, BlockPlaces(chains))
    decreases |chains|
  {
    if chains != [] {
      var n := |chains| - 1;
      BlocksPlaced(chains[..n], u);
      if u < n {
        assert chains[..n][..u] == chains[..u];
        var r := Range(Total(chains[..u]), |chains[u]|);
        forall i | 0 <= i < |r| ensures 0 <= r[i] < |BlockPlaces(chains)| && BlockPlaces(chains)[r[i]] == (u, i) {
          assert BlockPlaces(chains[..n])[r[i]] == (u, i);
        }
      }
    }
  }

  lemma {:induction false} BlocksTotal(chains: seq<seq<int>>, others: seq<seq<int>>)
    requires |chains| == |others| && forall u {:trigger chains[u]} :: 0 <= u < |chains| ==> |chains[u]| == |others[u]|
    ensures Total(chains) == Total(others)
    decreases |chains|
  {
    if chains != [] {
      BlocksTotal(chains[..|chains| - 1], others[..|chains| - 1]);
    }
  }

  lemma {:induction false} TotalOfPrefix(chains: seq<seq<int>>, u: nat, v: nat)
    requires u < v <= |chains|
    ensures Total(chains[..u]) + |chains[u]| == Total(chains[..u + 1]) <= Total(chains[..v])
    decreases v
  {
    assert chains[..u + 1][..u] == chains[..u];
    if u + 1 < v {
      TotalOfPrefix(chains, u, v - 1);
      assert chains[..v][..v - 1] == chains[..v - 1];
    }
  }

  /** The chains of the first nodes have been copied, one after the other. */
  ghost predicate CopiedUpTo(now: seq<TurnEntry>, refs: seq<int>, before: seq<TurnEntry>, refs0: seq<int>, chains: seq<seq<int>>, node: nat) {
    && node <= |refs| == |refs0| == |chains|
    && (forall u {:trigger chains[u]} :: 0 <= u < node ==> Block(now, refs[u], Total(chains[..u]), before, chains[u], |chains[u]|))
    && forall u {:trigger refs[u]} :: node <= u < |refs| ==> refs[u] == refs0[u]
  }

  lemma OneMoreCopied(now: seq<TurnEntry>, refs: seq<int>, now': seq<TurnEntry>, refs': seq<int>, before: seq<TurnEntry>,
                      refs0: seq<int>, chains: seq<seq<int>>, node: nat)
    requires CopiedUpTo(now, refs, before, refs0, chains, node) && node < |refs| == |refs'| && |now'| == |now|
    requires Block(now', refs'[node], Total(chains[..node]), before, chains[node], |chains[node]|)
    requires now'[..Total(chains[..node])] == now[..Total(chains[..node])]
    requires forall u {:trigger refs'[u]} :: 0 <= u < |refs| && u != node ==> refs'[u] == refs[u]
    ensures CopiedUpTo(now', refs', before, refs0, chains, node + 1)
  {
    forall u | 0 <= u < node ensures Block(now', refs'[u], Total(chains[..u]), before, chains[u], |chains[u]|) {
      TotalOfPrefix(chains, u, node);
      var end := Total(chains[..u]) + |chains[u]|;
      assert now'[..Total(chains[..node])][..end] == now'[..end] && now[..Total(chains[..node])][..end] == now[..end];
      BlockStays(now, now', refs[u], Total(chains[..u]), before, chains[u]);
    }
  }

  lemma AllCopied(now: seq<TurnEntry>, refs: seq<int>, before: seq<TurnEntry>, refs0: seq<int>, chains: seq<seq<int>>, places: seq<(int, int)>)
    requires StoreOk(before, refs0, chains, places) && CopiedUpTo(now, refs, before, refs0, chains, |refs|) && |now| == |before|
    ensures StoreOk(now, refs, Blocks(chains), BlockPlaces(chains))
    ensures forall u {:trigger chains[u]} :: 0 <= u < |refs| ==> Turns(now, Blocks(chains)[u]) == Turns(before, chains[u])
  {
    BlocksPlaced(chains, 0);
    BlocksTotal(chains, Blocks(chains));
    forall u | 0 <= u < |refs|
      ensures ChainOk(now, refs, Blocks(chains), BlockPlaces(chains), u) && Turns(now, Blocks(chains)[u]) == Turns(before, chains[u])
    {
      assert ChainOk(before, refs0, chains, places, u);
      BlocksPlaced(chains, u);
      BlockLinked(now, refs[u], Total(chains[..u]), before, chains[u]);
    }
  }

  // ----- nodes with other numbers

  ghost function Slots(chains: seq<seq<int>>): set<(int, int)> {
    set u, i | 0 <= u < |chains| && 0 <= i < |chains[u]| :: (u, i)
  }

  ghost function Row(u: int, n: nat): set<(int, int)> {
    if n == 0 then {} else Row(u, n - 1) + {(u, n - 1)}
  }

  lemma {:induction false} RowSize(u: int, n: nat)
    ensures |Row(u, n)| == n && forall x :: x in Row(u, n) <==> x.0 == u && 0 <= x.1 < n
  {
    if n > 0 { RowSize(u, n - 1); }
  }

  lemma {:induction false} SlotCount(chains: seq<seq<int>>)
    ensures |Slots(chains)| == Total(chains)
    decreases |chains|
  {
    if chains == [] {
      assert Slots(chains) == {};
    } else {
      var n := |chains| - 1;
      SlotCount(chains[..n]);
      RowSize(n, |chains[n]|);
      assert Slots(chains) == Slots(chains[..n]) + Row(n, |chains[n]|);
    }
  }

  ghost function MovedSlot(x: (int, int), p: int -> int): (int, int) {
    (p(x.0), x.1)
  }

  ghost function MovedSlots(s: set<(int, int)>, p: int -> int): set<(int, int)> {
    set x | x in s :: MovedSlot(x, p)
  }

  lemma {:induction false} MovedSlotCount(s: set<(int, int)>, p: int -> int, n: nat)
    requires IsPermutation(p, n) && forall x {:trigger x in s} :: x in s ==> 0 <= x.0 < n
    ensures |MovedSlots(s, p)| == |s|
    decreases |s|
  {
    if s != {} {
      var x :| x in s;
      MovedSlotCount(s - {x}, p, n);
      assert MovedSlots(s, p) == MovedSlots(s - {x}, p) + {MovedSlot(x, p)};
      assert MovedSlot(x, p) !in MovedSlots(s - {x}, p);
    }
  }

  lemma SlotsRearranged(chains: seq<seq<int>>, p: int -> int, v: int, i: int)
    requires IsPermutation(p, |chains|)
    ensures (v, i) in Slots(Rearranged(chains, p)) <==> (v, i) in MovedSlots(Slots(chains), p)
  {
    if (v, i) in MovedSlots(Slots(chains), p) {
      var x :| x in Slots(chains) && MovedSlot(x, p) == (v, i);
      assert Rearranged(chains, p)[p(x.0)] == chains[x.0];
    }
    if (v, i) in Slots(Rearranged(chains, p)) {
      var u := PreImage(p, |chains|, v);
      assert MovedSlot((u, i), p) == (v, i) && (u, i) in Slots(chains);
    }
  }

  /** As many entries when the nodes have other numbers. */
  lemma TotalRearranged(chains: seq<seq<int>>, p: int -> int)
    requires IsPermutation(p, |chains|)
    ensures Total(Rearranged(chains, p)) == Total(chains)
  {
    SlotCount(chains);
    SlotCount(Rearranged(chains, p));
    MovedSlotCount(Slots(chains), p, |chains|);
    AllSlotsRearranged(chains, p);
  }

  lemma AllSlotsRearranged(chains: seq<seq<int>>, p: int -> int)
    requires IsPermutation(p, |chains|)
    ensures Slots(Rearranged(chains, p)) == MovedSlots(Slots(chains), p)
  {
    var a, b := Slots(Rearranged(chains, p)), MovedSlots(Slots(chains), p);
    forall x | x in a ensures x in b {
      SlotsRearranged(chains, p, x.0, x.1);
    }
    forall x | x in b ensures x in a {
      SlotsRearranged(chains, p, x.0, x.1);
    }
  }

  ghost function PlacesMoved(places: seq<(int, int)>, p: int -> int): seq<(int, int)> {
    seq(|places|, e requires 0 <= e < |places| => MovedSlot(places[e], p))
  }

  lemma NodesRearranged(entries: seq<TurnEntry>, refs: seq<int>, chains: seq<seq<int>>, places: seq<(int, int)>, p: int -> int,
                        refs': seq<int>, store: int -> int)
    requires StoreOk(entries, refs, chains, places) && IsPermutation(p, |refs|)
    requires Permuted(refs, refs', p, store) && forall r :: store(r) == r
    ensures StoreOk(entries, refs', Rearranged(chains, p), PlacesMoved(places, p))
  {
    var chains', places' := Rearranged(chains, p), PlacesMoved(places, p);
    TotalRearranged(chains, p);
    forall v | 0 <= v < |refs| ensures ChainOk(entries, refs', chains', places', v) {
      var u := PreImage(p, |refs|, v);
      assert ChainOk(entries, refs, chains, places, u);
    }
  }

  // ----- the storage

  datatype Lookup = Found(index: int) | Missing | ListTooLong

  class TurnCostStorage {
    var entries: array<TurnEntry>
    var count: nat
    var refs: array<int>  // the first entry of each node
    ghost var chains: seq<seq<int>>
    ghost var places: seq<(int, int)>

    constructor (nodes: nat)
      ensures Valid() && fresh(entries) && fresh(refs) && refs.Length == nodes && count == 0
      ensures forall u :: 0 <= u < nodes ==> Contents(u) == []
    {
      entries, count := new TurnEntry[0], 0;
      refs := new int[nodes](_ => NO_ENTRY);
      chains, places := seq(nodes, _ => []), [];
      NoneInTotal(seq(nodes, _ => []));
    }

    ghost predicate Valid()
      reads this, entries, refs
    {
      && count <= entries.Length
      && StoreOk(entries[..count], refs[..], chains, places)
    }

    /** The turns stored for a node. */
    ghost function Contents(node: int): seq<Turn>
      reads this, entries
      requires 0 <= node < |chains| && count <= entries.Length
    {
      Turns(entries[..count], chains[node])
    }

    /** The entry is the one for this turn. */
    ghost predicate Holds(index: int, node: int, from: int, to: int)
      reads this, entries
      requires 0 <= node < |chains| && count <= entries.Length
    {
      && 0 <= index < |places| == count && places[index].0 == node && 0 <= places[index].1 < |chains[node]|
      && chains[node][places[index].1] == index && IsTurn(Contents(node)[places[index].1], from, to)
    }

    method EnsureCapacity(n: nat)
      modifies this`entries
      ensures entries.Length >= n && entries.Length >= old(entries).Length && entries[..old(entries).Length] == old(entries[..])
      ensures entries == old(entries) || fresh(entries)
    {
      if entries.Length < n {
        var grown := new TurnEntry[n](_ => TurnEntry(Turn(0, 0, 0), NO_ENTRY));
        forall e | 0 <= e < entries.Length {
          grown[e] := entries[e];
        }
        entries := grown;
      }
    }

    /** The entry for a turn, made when there is none. */
    method FindOrCreateEntry(fromEdge: int, viaNode: int, toEdge: int) returns (index: int)
      requires Valid() && 0 <= viaNode < refs.Length
      modifies this, entries, refs
      ensures Valid() && refs == old(refs) && (entries == old(entries) || fresh(entries))
      ensures Holds(index, viaNode, fromEdge, toEdge)
      ensures Contents(viaNode) == WithTurn(old(Contents(viaNode)), fromEdge, toEdge)
      ensures forall u :: 0 <= u < refs.Length && u != viaNode ==> Contents(u) == old(Contents(u))
    {
      var prevIdx;
      index, prevIdx := FindInChain(fromEdge, viaNode, toEdge);
      if index != NO_ENTRY {
        return;
      }
      index := AppendEntry(fromEdge, viaNode, toEdge, prevIdx);
    }

    method FindInChain(fromEdge: int, viaNode: int, toEdge: int) returns (idx: int, prevIdx: int)
      requires Valid() && 0 <= viaNode < refs.Length
      ensures idx != NO_ENTRY ==>
                Holds(idx, viaNode, fromEdge, toEdge) && Contents(viaNode) == WithTurn(Contents(viaNode), fromEdge, toEdge)
      ensures idx == NO_ENTRY ==> NoneOfFirst(Contents(viaNode), |chains[viaNode]|, fromEdge, toEdge)
      ensures idx == NO_ENTRY ==> prevIdx == IdAt(chains[viaNode], |chains[viaNode]| - 1)
    {
      idx, prevIdx := refs[viaNode], NO_ENTRY;
      ghost var ids, k := chains[viaNode], 0;
      assert ChainOk(entries[..count], refs[..], chains, places, viaNode) && refs[..][viaNode] == refs[viaNode];
      while idx != NO_ENTRY
        invariant 0 <= k <= |ids| && idx == IdAt(ids, k) && prevIdx == IdAt(ids, k - 1)
        invariant NoneOfFirst(Contents(viaNode), k, fromEdge, toEdge)
        decreases |ids| - k
      {
        EntryOf(entries[..count], refs[..], chains, places, viaNode, k);
        if entries[idx].turn.from == fromEdge && entries[idx].turn.to == toEdge {
          assert Contents(viaNode)[k] in Contents(viaNode);
          return;
        }
        OneMoreDiffers(Contents(viaNode), k, fromEdge, toEdge);
        prevIdx, idx, k := idx, entries[idx].next, k + 1;
      }
    }

    method AppendEntry(fromEdge: int, viaNode: int, toEdge: int, prevIdx: int) returns (index: int)
      requires Valid() && 0 <= viaNode < refs.Length
      requires prevIdx == IdAt(chains[viaNode], |chains[viaNode]| - 1)
      requires NoneOfFirst(Contents(viaNode), |chains[viaNode]|, fromEdge, toEdge)
      modifies this, entries, refs
      ensures Valid() && refs == old(refs) && (entries == old(entries) || fresh(entries))
      ensures Holds(index, viaNode, fromEdge, toEdge)
      ensures Contents(viaNode) == old(Contents(viaNode)) + [Turn(fromEdge, toEdge, 0)]
      ensures forall u :: 0 <= u < refs.Length && u != viaNode ==> Contents(u) == old(Contents(u))
    {
      ghost var e0, r0, c0, n0 := entries[..count], refs[..], chains, count;
      assert ChainOk(e0, r0, c0, places, viaNode);
      EntryAppended(e0, r0, c0, places, viaNode, fromEdge, toEdge);
      index := count;
      count := count + 1;
      EnsureCapacity(count);
      assert entries[..n0] == e0;
      entries[index] := TurnEntry(Turn(fromEdge, toEdge, 0), NO_ENTRY);
      if prevIdx == NO_ENTRY {
        refs[viaNode] := index;
      } else {
        assert c0[viaNode][|c0[viaNode]| - 1] == prevIdx;
        entries[prevIdx] := entries[prevIdx].(next := index);
      }
      assert entries[..count] == Appended(e0, prevIdx, fromEdge, toEdge);
      assert refs[..] == r0[viaNode := if c0[viaNode] == [] then index else r0[viaNode]];
      places := places + [(viaNode, |chains[viaNode]|)];
      chains := chains[viaNode := chains[viaNode] + [index]];
    }

    /** Stores a value for a turn: its entry is made when missing, and its flags are changed. */
    method Set(fromEdge: int, viaNode: int, toEdge: int, change: int -> int)
      requires Valid() && 0 <= viaNode < refs.Length
      modifies this, entries, refs
      ensures Valid() && refs == old(refs)
      ensures forall u :: 0 <= u < refs.Length && u != viaNode ==> Contents(u) == old(Contents(u))
      ensures TurnChanged(WithTurn(old(Contents(viaNode)), fromEdge, toEdge), Contents(viaNode), fromEdge, toEdge, change)
    {
      var index := FindOrCreateEntry(fromEdge, viaNode, toEdge);
      ghost var turns, at := Contents(viaNode), places[index].1;
      assert ChainOk(entries[..count], refs[..], chains, places, viaNode);
      FlagsSet(entries[..count], refs[..], chains, places, index, change(entries[index].turn.flags));
      assert entries[..count][index] == entries[index];
      ghost var e0 := entries[..count];
      entries[index] := entries[index].(turn := entries[index].turn.(flags := change(entries[index].turn.flags)));
      assert entries[..count] == e0[index := entries[index]];
      OnlyThisTurn(turns, at, fromEdge, toEdge, change);
    }

    /** Looks for the entry of a turn among the first thousand of the node. */
    method FindIndex(fromEdge: int, viaNode: int, toEdge: int) returns (r: Lookup)
      requires Valid() && 0 <= viaNode < refs.Length
      ensures r.Found? ==> Holds(r.index, viaNode, fromEdge, toEdge) && places[r.index].1 < MAX_ENTRIES
      ensures r.Missing? <==> |Contents(viaNode)| < MAX_ENTRIES && NoneOfFirst(Contents(viaNode), |Contents(viaNode)|, fromEdge, toEdge)
      ensures r.ListTooLong? <==> |Contents(viaNode)| >= MAX_ENTRIES
                                  && NoneOfFirst(Contents(viaNode), MAX_ENTRIES, fromEdge, toEdge)
    {
      var idx, k := refs[viaNode], 0;
      ghost var ids := chains[viaNode];
      assert ChainOk(entries[..count], refs[..], chains, places, viaNode);
      while k < MAX_ENTRIES
        invariant 0 <= k <= |ids| && k <= MAX_ENTRIES && idx == IdAt(ids, k)
        invariant NoneOfFirst(Contents(viaNode), k, fromEdge, toEdge)
      {
        if idx == NO_ENTRY {
          return Missing;
        }
        EntryOf(entries[..count], refs[..], chains, places, viaNode, k);
        if entries[idx].turn.from == fromEdge && entries[idx].turn.to == toEdge {
          return Found(idx);
        }
        OneMoreDiffers(Contents(viaNode), k, fromEdge, toEdge);
        idx, k := entries[idx].next, k + 1;
      }
      r := ListTooLong;
    }

    /** The value stored for a turn, nothing when the list of the node is too long. */
    method GetFlags(fromEdge: int, viaNode: int, toEdge: int) returns (r: Lookup, flags: int)
      requires Valid() && 0 <= viaNode < refs.Length
      ensures !r.ListTooLong? ==> flags == Cost(Contents(viaNode), fromEdge, toEdge)
      ensures |Contents(viaNode)| < MAX_ENTRIES ==> !r.ListTooLong?
    {
      r := FindIndex(fromEdge, viaNode, toEdge);
      flags := 0;
      if r.Found? {
        ghost var at := places[r.index].1;
        EntryOf(entries[..count], refs[..], chains, places, viaNode, at);
        assert ChainOk(entries[..count], refs[..], chains, places, viaNode);
        CostFound(Contents(viaNode), at, fromEdge, toEdge);
        flags := entries[r.index].turn.flags;
      } else if r.Missing? {
        CostMissing(Contents(viaNode), fromEdge, toEdge);
      }
    }

    /** The edges got new numbers. */
    method SortEdges(p: int -> int, edges: nat)
      requires Valid() && IsPermutation(p, edges) && EdgesBelow(entries[..count], edges)
      modifies entries
      ensures Valid()
      ensures forall u :: 0 <= u < refs.Length ==> Contents(u) == TurnsRenumbered(old(Contents(u)), p)
    {
      EdgesSorted(entries[..count], refs[..], chains, places, p, edges);
      ghost var e0, r0 := entries[..count], refs[..];
      RenumberAll(p);
      assert refs[..] == r0;
    }

    method RenumberAll(p: int -> int)
      requires count <= entries.Length
      modifies entries
      ensures entries[..count] == AllRenumbered(old(entries[..count]), p)
    {
      var i := 0;
      while i < count
        invariant 0 <= i <= count
        invariant forall e :: 0 <= e < i ==> entries[e] == Renumbered(old(entries[e]), p)
        invariant forall e :: i <= e < count ==> entries[e] == old(entries[e])
      {
        entries[i] := Renumbered(entries[i], p);
        i := i + 1;
      }
    }

    /** Rewrites the entries in the order of the nodes. The number of entries is the same at the
        end, and every node keeps its turns in their order, now at consecutive places. */
    method SortNodes() returns (sameCount: bool)
      requires Valid() && refs as object != entries as object
      modifies this, entries, refs
      ensures Valid() && sameCount && count == old(count) && refs == old(refs) && refs.Length == old(refs.Length)
      ensures forall u :: 0 <= u < refs.Length ==> Contents(u) == old(Contents(u)) && chains[u] == Range(Total(chains[..u]), |chains[u]|)
    {
      ghost var r0 := refs[..];
      var before := entries[..count];
      var countBefore := count;
      CopyAll(before, r0);
      sameCount := countBefore == count;
      AllCopied(entries[..count], refs[..], before, r0, chains, places);
      BlocksStart(chains);
      chains, places := Blocks(chains), BlockPlaces(chains);
    }

    method CopyAll(before: seq<TurnEntry>, ghost r0: seq<int>)
      requires Valid() && refs as object != entries as object && before == entries[..count] && r0 == refs[..]
      modifies this`count, entries, refs
      ensures count == |before| && CopiedUpTo(entries[..count], refs[..], before, r0, chains, refs.Length)
    {
      ghost var bound := count;
      count := 0;
      var node := 0;
      while node < refs.Length
        invariant 0 <= node <= refs.Length && count == Total(chains[..node])
        invariant CopiedUpTo(entries[..bound], refs[..], before, r0, chains, node)
      {
        CopyNext(before, r0, node, bound);
        node := node + 1;
      }
      assert chains[..|chains|] == chains;
    }

    method CopyNext(before: seq<TurnEntry>, ghost r0: seq<int>, node: int, ghost bound: nat)
      requires 0 <= node < refs.Length == |chains| && refs as object != entries as object && |before| == bound <= entries.Length
      requires StoreOk(before, r0, chains, places) && count == Total(chains[..node])
      requires CopiedUpTo(entries[..bound], refs[..], before, r0, chains, node)
      modifies this`count, entries, refs
      ensures count == Total(chains[..node + 1]) && CopiedUpTo(entries[..bound], refs[..], before, r0, chains, node + 1)
    {
      TotalOfPrefix(chains, node, |chains|);
      assert chains[..|chains|] == chains && refs[..][node] == r0[node] && ChainOk(before, r0, chains, places, node);
      ghost var now, refsNow := entries[..bound], refs[..];
      CopyChain(before, node, chains[node], bound);
      OneMoreCopied(now, refsNow, entries[..bound], refs[..], before, r0, chains, node);
    }

    method CopyChain(before: seq<TurnEntry>, node: int, ghost ids: seq<int>, ghost countBefore: nat)
      requires 0 <= node < refs.Length && Linked(before, refs[node], ids) && refs as object != entries as object
      requires count + |ids| <= countBefore <= entries.Length
      modifies this`count, entries, refs
      ensures count == old(count) + |ids| && Block(entries[..countBefore], refs[node], old(count), before, ids, |ids|)
      ensures entries[..countBefore][..old(count)] == old(entries[..countBefore][..count])
      ensures forall u {:trigger refs[..][u]} :: 0 <= u < refs.Length && u != node ==> refs[..][u] == old(refs[..])[u]
    {
      var firstForNode := true;
      var idx := refs[node];
      ghost var k, start, r0, e0 := 0, count, refs[..], entries[..countBefore][..count];
      while idx != NO_ENTRY
        invariant 0 <= k <= |ids| && idx == IdAt(ids, k) && count == start + k && (firstForNode <==> k == 0)
        invariant Block(entries[..countBefore], refs[node], start, before, ids, k)
        invariant entries[..countBefore][..start] == e0 && refs[..] == if k == 0 then r0 else r0[node := start]
        decreases |ids| - k
      {
        assert ids[k] == idx;
        ghost var now := entries[..countBefore];
        CopyEntry(before[idx].turn, node, firstForNode, countBefore);
        BlockGrows(now, entries[..countBefore], if k == 0 then start else refs[node], start, before, ids, k);
        firstForNode, idx, k := false, before[idx].next, k + 1;
      }
    }

    /** Writes a turn as the next entry and links it to its node or to the entry before. */
    method CopyEntry(turn: Turn, node: int, firstForNode: bool, ghost bound: nat)
      requires 0 <= node < refs.Length && count < bound <= entries.Length && refs as object != entries as object
      requires !firstForNode ==> count > 0
      modifies this`count, entries, refs
      ensures count == old(count) + 1
      ensures refs[..] == if firstForNode then old(refs[..])[node := old(count)] else old(refs[..])
      ensures entries[..bound] == EntryWritten(old(entries[..bound]), old(count), turn, firstForNode)
    {
      if firstForNode {
        refs[node] := count;
      } else {
        entries[count - 1] := entries[count - 1].(next := count);
      }
      entries[count] := TurnEntry(turn, NO_ENTRY);
      count := count + 1;
    }

    /** The nodes got new numbers: each takes its turns along, and the entries follow the new order. */
    method RelabelNodes(p: int -> int) returns (sameCount: bool)
      requires Valid() && refs as object != entries as object && IsPermutation(p, refs.Length)
      modifies this, entries, refs
      ensures Valid() && sameCount && count == old(count) && refs == old(refs) && refs.Length == old(refs.Length)
      ensures forall u :: 0 <= u < refs.Length ==> 0 <= p(u) < refs.Length && Contents(p(u)) == old(Contents(u))
      ensures forall u :: 0 <= u < refs.Length ==> chains[u] == Range(Total(chains[..u]), |chains[u]|)
    {
      ghost var e0, r0 := entries[..count], refs[..];
      Permute(refs, p, r => r);
      assert entries[..count] == e0;
      NodesRearranged(e0, r0, chains, places, p, refs[..], r => r);
      chains, places := Rearranged(chains, p), PlacesMoved(places, p);
      sameCount := SortNodes();
    }

    /** Counts the turns of a node. */
    method GetTurnCostsCount(node: int) returns (n: nat)
      requires Valid() && 0 <= node < refs.Length
      ensures n == |Contents(node)|
    {
      n := 0;
      var idx := refs[node];
      ghost var ids := chains[node];
      assert ChainOk(entries[..count], refs[..], chains, places, node);
      while idx != NO_ENTRY
        invariant 0 <= n <= |ids| && idx == IdAt(ids, n)
        decreases |ids| - n
      {
        assert ids[n] == idx && entries[..count][idx] == entries[idx];
        idx, n := entries[idx].next, n + 1;
      }
    }
  }

  ghost function EntryWritten(now: seq<TurnEntry>, at: nat, turn: Turn, first: bool): seq<TurnEntry>
    requires at < |now| && (first || at > 0)
  {
    (if first then now else now[at - 1 := now[at - 1].(next := at)])[at := TurnEntry(turn, NO_ENTRY)]
  }

  lemma BlockGrows(now: seq<TurnEntry>, now': seq<TurnEntry>, ref: int, start: nat, before: seq<TurnEntry>, ids: seq<int>, k: nat)
    requires k < |ids| && start + k < |now| == |now'| && 0 <= ids[k] < |before| && ref == start
    requires k > 0 ==> Block(now, ref, start, before, ids, k)
    requires now' == EntryWritten(now, start + k, before[ids[k]].turn, k == 0)
    ensures Block(now', ref, start, before, ids, k + 1) && now'[..start] == now[..start]
  {
    forall i | 0 <= i < k + 1
      ensures now'[start + i] == TurnEntry(TurnAt(before, ids[i]), if i + 1 < k + 1 then start + i + 1 else NO_ENTRY)
    {
      var id := ids[i];
    }
  }

  lemma BlocksStart(chains: seq<seq<int>>)
    ensures forall u :: 0 <= u < |chains| ==> Blocks(chains)[u] == Range(Total(Blocks(chains)[..u]), |Blocks(chains)[u]|)
  {
    forall u | 0 <= u < |chains| ensures Total(Blocks(chains)[..u]) == Total(chains[..u]) {
      BlocksTotal(chains[..u], Blocks(chains)[..u]);
    }
  }

  /** The flags of this turn are changed, the others stay. */
  ghost predicate TurnChanged(turns: seq<Turn>, turns': seq<Turn>, from: int, to: int, change: int -> int) {
    && |turns'| == |turns|
    && forall i {:trigger turns'[i]} :: 0 <= i < |turns| ==>
         turns'[i] == if IsTurn(turns[i], from, to) then turns[i].(flags := change(turns[i].flags)) else turns[i]
  }

  lemma OnlyThisTurn(turns: seq<Turn>, at: int, from: int, to: int, change: int -> int)
    requires OnePerTurn(turns) && 0 <= at < |turns| && IsTurn(turns[at], from, to)
    ensures TurnChanged(turns, turns[at := turns[at].(flags := change(turns[at].flags))], from, to, change)
  {
    forall i | 0 <= i < |turns| && i != at ensures !IsTurn(turns[i], from, to) {
      assert if i < at then Differ(turns, i, at) else Differ(turns, at, i);
    }
  }

  lemma {:induction false} NoneInTotal(chains: seq<seq<int>>)
    requires forall u {:trigger chains[u]} :: 0 <= u < |chains| ==> chains[u] == []
    ensures Total(chains) == 0
    decreases |chains|
  {
    if chains != [] {
      NoneInTotal(chains[..|chains| - 1]);
    }
  }

  // ----- what is stored for a turn

  /** The value of a turn, zero when it has none. */
  ghost function Cost(turns: seq<Turn>, from: int, to: int): int {
    if turns == [] then 0
    else if IsTurn(turns[0], from, to) then turns[0].flags
    else Cost(turns[1..], from, to)
  }

  lemma {:induction false} CostMissing(turns: seq<Turn>, from: int, to: int)
    requires NoneOfFirst(turns, |turns|, from, to)
    ensures Cost(turns, from, to) == 0
  {
    if turns != [] {
      forall i | 0 <= i < |turns| - 1 ensures !IsTurn(turns[1..][i], from, to) {
        assert !IsTurn(turns[i + 1], from, to);
      }
      CostMissing(turns[1..], from, to);
    }
  }

  lemma RestOnePerTurn(turns: seq<Turn>)
    requires OnePerTurn(turns) && turns != []
    ensures OnePerTurn(turns[1..])
  {
    forall i, j | 0 <= i < j < |turns| - 1 ensures Differ(turns[1..], i, j) {
      assert Differ(turns, i + 1, j + 1);
    }
  }

  lemma {:induction false} CostFound(turns: seq<Turn>, at: int, from: int, to: int)
    requires OnePerTurn(turns) && 0 <= at < |turns| && IsTurn(turns[at], from, to)
    ensures Cost(turns, from, to) == turns[at].flags
  {
    if at > 0 {
      assert Differ(turns, 0, at);
      RestOnePerTurn(turns);
      CostFound(turns[1..], at - 1, from, to);
    }
  }

  /** Storing a value changes the value of that turn, from zero when it had none, and of no other. */
  lemma CostAfterSet(turns: seq<Turn>, turns': seq<Turn>, from: int, to: int, change: int -> int)
    requires OnePerTurn(turns) && TurnChanged(WithTurn(turns, from, to), turns', from, to, change)
    ensures Cost(turns', from, to) == change(Cost(turns, from, to))
    ensures forall f, t :: (f, t) != (from, to) ==> Cost(turns', f, t) == Cost(turns, f, t)
  {
    var middle := WithTurn(turns, from, to);
    if exists t :: t in turns && IsTurn(t, from, to) {
      var t :| t in turns && IsTurn(t, from, to);
      var i :| 0 <= i < |turns| && turns[i] == t;
      CostChanged(middle, turns', from, to, change, from, to);
      OneHasTurn(middle, i, from, to);
    } else {
      assert NoneOfFirst(turns, |turns|, from, to) by {
        forall i | 0 <= i < |turns| ensures !IsTurn(turns[i], from, to) {
          assert turns[i] in turns;
        }
      }
      CostMissing(turns, from, to);
      CostAppended(turns, Turn(from, to, 0), from, to);
      OneHasTurn(middle, |turns|, from, to);
      CostChanged(middle, turns', from, to, change, from, to);
    }
    forall f, t | (f, t) != (from, to) ensures Cost(turns', f, t) == Cost(turns, f, t) {
      CostChanged(middle, turns', from, to, change, f, t);
      CostAppended(turns, Turn(from, to, 0), f, t);
    }
  }

  ghost predicate HasTurn(turns: seq<Turn>, from: int, to: int) {
    exists i {:trigger turns[i]} :: 0 <= i < |turns| && IsTurn(turns[i], from, to)
  }

  lemma OneHasTurn(turns: seq<Turn>, i: int, from: int, to: int)
    requires 0 <= i < |turns| && IsTurn(turns[i], from, to)
    ensures HasTurn(turns, from, to)
  {
  }

  lemma {:induction false} CostAppended(turns: seq<Turn>, last: Turn, f: int, t: int)
    ensures NoneOfFirst(turns, |turns|, f, t) ==> Cost(turns + [last], f, t) == if IsTurn(last, f, t) then last.flags else 0
    ensures !IsTurn(last, f, t) ==> Cost(turns + [last], f, t) == Cost(turns, f, t)
  {
    if turns != [] {
      assert (turns + [last])[1..] == turns[1..] + [last];
      if NoneOfFirst(turns, |turns|, f, t) {
        forall i | 0 <= i < |turns| - 1 ensures !IsTurn(turns[1..][i], f, t) {
          assert !IsTurn(turns[i + 1], f, t);
        }
        assert !IsTurn(turns[0], f, t);
      }
      CostAppended(turns[1..], last, f, t);
    }
  }

  lemma {:induction false} CostChanged(turns: seq<Turn>, turns': seq<Turn>, from: int, to: int, change: int -> int, f: int, t: int)
    requires TurnChanged(turns, turns', from, to, change)
    ensures (f, t) != (from, to) ==> Cost(turns', f, t) == Cost(turns, f, t)
    ensures (f, t) == (from, to) && HasTurn(turns, f, t) ==> Cost(turns', f, t) == change(Cost(turns, f, t))
  {
    if turns != [] {
      forall i | 0 <= i < |turns| - 1
        ensures turns'[1..][i] == if IsTurn(turns[1..][i], from, to) then turns[1..][i].(flags := change(turns[1..][i].flags)) else turns[1..][i]
      {
        assert turns'[i + 1] == turns'[1..][i];
      }
      var head := turns'[0];
      CostChanged(turns[1..], turns'[1..], from, to, change, f, t);
      if HasTurn(turns, f, t) && !IsTurn(turns[0], f, t) {
        var i :| 0 <= i < |turns| && IsTurn(turns[i], f, t);
        assert turns[1..][i - 1] == turns[i];
      }
    }
  }

  // ----- a node with too many turns

  /** The turns (0, 0), (1, 1), and so on. */
  ghost function Returns(n: nat): seq<Turn> {
    seq(n, i requires 0 <= i < n => Turn(i, i, 0))
  }

  lemma OneMoreReturn(n: nat)
    ensures WithTurn(Returns(n), n, n) == Returns(n + 1)
  {
    assert Returns(n + 1) == Returns(n) + [Turn(n, n, 0)];
  }

  /** A thousand turns are stored at a node, and then one more: it is stored, but not found. */
  method LastTurnIsNotFound() returns (storage: TurnCostStorage, r: Lookup)
    ensures storage.Valid() && |storage.chains| == 1 && storage.Contents(0) == Returns(MAX_ENTRIES + 1)
    ensures Turn(MAX_ENTRIES, MAX_ENTRIES, 0) in storage.Contents(0) && r.ListTooLong?
  {
    storage := new TurnCostStorage(1);
    for i := 0 to MAX_ENTRIES + 1
      invariant storage.Valid() && storage.refs.Length == 1 && fresh(storage) && fresh(storage.entries) && fresh(storage.refs)
      invariant storage.Contents(0) == Returns(i)
    {
      OneMoreReturn(i);
      var index := storage.FindOrCreateEntry(i, 0, i);
    }
    assert storage.Contents(0)[MAX_ENTRIES] == Turn(MAX_ENTRIES, MAX_ENTRIES, 0);
    r := storage.FindIndex(MAX_ENTRIES, 0, MAX_ENTRIES);
  }
}
