/** The index of edges by the cells they pass: a tree that takes edges in, and its form in a
    buffer of numbers, which is searched. */
module LineIndex {
  import opened Counting
  import opened SpatialKeys

  // ----- keys, taken apart from the top

  /** A level of the tree uses up two or four bits of a key. */
  ghost predicate ShiftsOk(shifts: seq<nat>) {
    forall d {:trigger shifts[d]} :: 0 <= d < |shifts| ==> shifts[d] == 2 || shifts[d] == 4
  }

  function Fan(shift: nat): nat {
    if shift == 2 then 4 else 16
  }

  function Top(key: bv64, shift: nat): (i: nat)
    ensures i < Fan(shift)
  {
    if shift == 2 then (key >> 62) as nat else (key >> 60) as nat
  }

  function Below(key: bv64, shift: nat): bv64 {
    if shift == 2 then key << 2 else key << 4
  }

  lemma SplitsAtTwo(a: bv64, b: bv64)
    requires (a >> 62) as nat == (b >> 62) as nat && a << 2 == b << 2
    ensures a == b
  {
  }

  lemma SplitsAtFour(a: bv64, b: bv64)
    requires (a >> 60) as nat == (b >> 60) as nat && a << 4 == b << 4
    ensures a == b
  {
  }

  lemma KeySplits(a: bv64, b: bv64, shift: nat)
    requires Top(a, shift) == Top(b, shift) && Below(a, shift) == Below(b, shift)
    ensures a == b
  {
    if shift == 2 {
      SplitsAtTwo(a, b);
    } else {
      SplitsAtFour(a, b);
    }
  }

  /** The key has no more bits than the levels use up. */
  ghost predicate Exhausts(key: bv64, shifts: seq<nat>)
    decreases |shifts|
  {
    if shifts == [] then key == 0 else Exhausts(Below(key, shifts[0]), shifts[1..])
  }

  /** The levels use up so many bits. */
  ghost predicate HasBits(shifts: seq<nat>, bits: bv64) {
    if shifts == [] then bits == 0
    else if shifts[0] == 2 then bits >= 2 && HasBits(shifts[1..], bits - 2)
    else bits >= 4 && HasBits(shifts[1..], bits - 4)
  }

  /** A key at the upper end of the word. */
  function Aligned(key: bv64, bits: bv64): bv64
    requires bits <= 64
  {
    key << (64 - bits)
  }

  lemma AlignedBelowTwo(key: bv64, bits: bv64)
    requires 2 <= bits <= 64
    ensures Aligned(key, bits) << 2 == Aligned(key, bits - 2)
  {
  }

  lemma AlignedBelowFour(key: bv64, bits: bv64)
    requires 4 <= bits <= 64
    ensures Aligned(key, bits) << 4 == Aligned(key, bits - 4)
  {
  }

  lemma {:induction false} AlignedExhausts(key: bv64, bits: bv64, shifts: seq<nat>)
    requires bits <= 64 && HasBits(shifts, bits)
    ensures Exhausts(Aligned(key, bits), shifts)
    decreases |shifts|
  {
    if shifts != [] {
      if shifts[0] == 2 {
        AlignedBelowTwo(key, bits);
        AlignedExhausts(key, bits - 2, shifts[1..]);
      } else {
        AlignedBelowFour(key, bits);
        AlignedExhausts(key, bits - 4, shifts[1..]);
      }
    }
  }

  // ----- the tree in memory

  datatype Entry = Vacant | Leaf(results: seq<int>) | Tree(subs: seq<Entry>) {
    /** Nothing is stored for it. */
    predicate Absent() {
      Vacant? || (Leaf? && results == [])
    }
  }

  /** Leaves are at the last level; every tree but the topmost has an entry. */
  ghost predicate TreeOk(e: Entry, shifts: seq<nat>)
    decreases |shifts|, 0
  {
    if shifts == [] then e.Leaf? && (forall i {:trigger e.results[i]} :: 0 <= i < |e.results| ==> e.results[i] >= 0)
    else
      && e.Tree? && |e.subs| == Fan(shifts[0])
      && forall i {:trigger e.subs[i]} :: 0 <= i < |e.subs| ==> SubOk(e.subs[i], shifts[1..])
  }

  ghost predicate SubOk(e: Entry, shifts: seq<nat>)
    decreases |shifts|, 1
  {
    e.Vacant? || (TreeOk(e, shifts) && Occupied(e))
  }

  ghost predicate Occupied(e: Entry) {
    e.Tree? ==> exists i {:trigger e.subs[i]} :: 0 <= i < |e.subs| && !e.subs[i].Vacant?
  }

  /** What is found for a key. */
  function Find(e: Entry, key: bv64, shifts: seq<nat>): seq<int>
    requires e.Vacant? || TreeOk(e, shifts)
    decreases |shifts|
  {
    if e.Vacant? then []
    else if shifts == [] then e.results
    else assert SubOk(e.subs[Top(key, shifts[0])], shifts[1..]); Find(e.subs[Top(key, shifts[0])], Below(key, shifts[0]), shifts[1..])
  }

  /** An id is not added twice in a row. */
  function Added(ids: seq<int>, value: int): seq<int> {
    if ids != [] && ids[|ids| - 1] == value then ids else ids + [value]
  }

  function NewEntry(shifts: seq<nat>): Entry {
    if shifts == [] then Leaf([]) else Tree(seq(Fan(shifts[0]), _ => Vacant))
  }

  lemma NewEntryOk(shifts: seq<nat>, key: bv64)
    ensures TreeOk(NewEntry(shifts), shifts) && Find(NewEntry(shifts), key, shifts) == [] && Ids(NewEntry(shifts)) == {}
  {
    if shifts != [] {
      var e := NewEntry(shifts);
      assert forall i :: 0 <= i < |e.subs| ==> e.subs[i] == Vacant;
      assert e.subs[Top(key, shifts[0])] == Vacant;
    }
  }

  /** The tree with a value put under a key; entries on the way are made when missing. */
  function PutRecursive(key: bv64, e: Entry, shifts: seq<nat>, value: int): (r: Entry)
    requires TreeOk(e, shifts) && value >= 0
    ensures TreeOk(r, shifts) && Occupied(r) && !r.Vacant?
    decreases |shifts|
  {
    if shifts == [] then Leaf(Added(e.results, value)) else
    var i := Top(key, shifts[0]);
    assert SubOk(e.subs[i], shifts[1..]);
    NewEntryOk(shifts[1..], key);
    var sub := if e.subs[i].Vacant? then NewEntry(shifts[1..]) else e.subs[i];
    var r := Tree(e.subs[i := PutRecursive(Below(key, shifts[0]), sub, shifts[1..], value)]);
    assert !r.subs[i].Vacant?;
    r
  }

  /** A value is found under its key, after those found there before, and under no other key. */
  lemma {:induction false} PutFind(key: bv64, e: Entry, shifts: seq<nat>, value: int, other: bv64)
    requires TreeOk(e, shifts) && value >= 0 && Exhausts(key, shifts) && Exhausts(other, shifts)
    ensures Find(PutRecursive(key, e, shifts, value), other, shifts)
         == if other == key then Added(Find(e, key, shifts), value) else Find(e, other, shifts)
    decreases |shifts|
  {
    if shifts != [] {
      var s, i, j := shifts[0], Top(key, shifts[0]), Top(other, shifts[0]);
      var rest := shifts[1..];
      assert SubOk(e.subs[i], rest) && SubOk(e.subs[j], rest);
      if i == j {
        NewEntryOk(rest, Below(key, s));
        NewEntryOk(rest, Below(other, s));
        var sub := if e.subs[i].Vacant? then NewEntry(rest) else e.subs[i];
        PutFind(Below(key, s), sub, rest, value, Below(other, s));
        if Below(key, s) == Below(other, s) {
          KeySplits(key, other, s);
        }
      }
    }
  }

  ghost function Ids(e: Entry): set<int> {
    match e
    case Vacant => {}
    case Leaf(results) => set id | id in results
    case Tree(subs) => set i, id | 0 <= i < |subs| && id in Ids(subs[i]) :: id
  }

  /** Putting a value adds it to the ids of the tree. */
  lemma {:induction false} PutIds(key: bv64, e: Entry, shifts: seq<nat>, value: int)
    requires TreeOk(e, shifts) && value >= 0
    ensures Ids(PutRecursive(key, e, shifts, value)) == Ids(e) + {value}
    decreases |shifts|
  {
    var r := PutRecursive(key, e, shifts, value);
    if shifts != [] {
      var i, rest := Top(key, shifts[0]), shifts[1..];
      assert SubOk(e.subs[i], rest);
      NewEntryOk(rest, key);
      var sub := if e.subs[i].Vacant? then NewEntry(rest) else e.subs[i];
      PutIds(Below(key, shifts[0]), sub, rest, value);
      ReplacedIds(e.subs, i, r.subs[i], value);
    }
  }

  lemma ReplacedIds(subs: seq<Entry>, i: nat, sub: Entry, value: int)
    requires i < |subs| && Ids(sub) == Ids(subs[i]) + {value}
    ensures Ids(Tree(subs[i := sub])) == Ids(Tree(subs)) + {value}
  {
    var subs' := subs[i := sub];
    forall id ensures id in Ids(Tree(subs')) <==> id in Ids(Tree(subs)) + {value} {
      if id in Ids(Tree(subs')) {
        var j :| 0 <= j < |subs'| && id in Ids(subs'[j]);
        assert j != i ==> subs'[j] == subs[j];
      }
      if id in Ids(Tree(subs)) {
        var j :| 0 <= j < |subs| && id in Ids(subs[j]);
        assert j != i ==> subs'[j] == subs[j];
        assert id in Ids(subs'[j]);
      }
      if id == value {
        assert id in Ids(subs'[i]);
      }
    }
  }

  /** What was put under a key, without repetitions in a row. */
  function Collected(history: seq<(bv64, int)>, key: bv64): seq<int> {
    if history == [] then []
    else
      var (k, value) := history[|history| - 1];
      var before := Collected(history[..|history| - 1], key);
      if k == key then Added(before, value) else before
  }

  ghost function PutValues(history: seq<(bv64, int)>): set<int> {
    set h | h in history :: h.1
  }

  class InMemConstructionIndex {
    const shifts: seq<nat>
    const bits: bv64
    var root: Entry
    ghost var history: seq<(bv64, int)>  // what was put under which aligned key

    ghost predicate Valid()
      reads this
    {
      && ShiftsOk(shifts) && shifts != [] && HasBits(shifts, bits) && bits <= 48
      && TreeOk(root, shifts) && Ids(root) == PutValues(history)
      && forall key :: Exhausts(key, shifts) ==> Find(root, key, shifts) == Collected(history, key)
    }

    constructor (shifts: seq<nat>, bits: bv64)
      requires ShiftsOk(shifts) && shifts != [] && HasBits(shifts, bits) && bits <= 48
      ensures Valid() && history == [] && this.shifts == shifts && this.bits == bits
    {
      this.shifts, this.bits, root, history := shifts, bits, NewEntry(shifts), [];
      new;
      forall key ensures Find(root, key, shifts) == [] {
        NewEntryOk(shifts, key);
      }
      NewEntryOk(shifts, 0);
    }

    /** Puts an edge into the cell of a key. */
    method Put(key: bv64, value: int)
      requires Valid() && value >= 0
      modifies this
      ensures Valid() && history == old(history) + [(Aligned(key, bits), value)]
    {
      var k := Aligned(key, bits);
      AlignedExhausts(key, bits, shifts);
      PutIds(k, root, shifts, value);
      forall other | Exhausts(other, shifts)
        ensures Find(PutRecursive(k, root, shifts, value), other, shifts) == Collected(history + [(k, value)], other)
      {
        PutFind(k, root, shifts, value, other);
        assert (history + [(k, value)])[..|history|] == history;
      }
      root := PutRecursive(k, root, shifts, value);
      history := history + [(k, value)];
    }
  }

  // ----- cells

  type Cell = (bv64, bv64)

  function CellKey(cell: Cell, bits: bv64): bv64
    requires bits <= 64
  {
    Aligned(Encode(cell.0, cell.1), bits)
  }

  ghost predicate CellInGrid(cell: Cell, half: bv64)
    requires half <= 16
  {
    cell.0 < (1 << half) && cell.1 < (1 << half)
  }

  lemma AlignedCells(x: bv64, y: bv64, x': bv64, y': bv64, half: bv64)
    requires 0 < half <= 16 && x < (1 << half) && y < (1 << half) && x' < (1 << half) && y' < (1 << half)
    requires Encode(x, y) << (64 - 2 * half) == Encode(x', y') << (64 - 2 * half)
    ensures x == x' && y == y'
  {
  }

  lemma CellKeyInjective(a: Cell, b: Cell, half: bv64)
    requires 0 < half <= 16 && CellInGrid(a, half) && CellInGrid(b, half) && CellKey(a, 2 * half) == CellKey(b, 2 * half)
    ensures a == b
  {
    AlignedCells(a.0, a.1, b.0, b.1, half);
  }

  lemma TwiceHalf(half: bv64)
    requires 0 < half <= 16
    ensures 0 < 2 * half <= 32
  {
  }

  /** What was put into a cell, without repetitions in a row. */
  function CollectedAt<T(==)>(puts: seq<(T, int)>, cell: T): seq<int> {
    if puts == [] then []
    else
      var (c, value) := puts[|puts| - 1];
      var before := CollectedAt(puts[..|puts| - 1], cell);
      if c == cell then Added(before, value) else before
  }

  /** The ids collected at a cell are those of the puts at these places, one after the other, and
      every other put into the cell repeats the id before it. */
  ghost predicate CollectedFrom<T(!new)>(puts: seq<(T, int)>, cell: T, ids: seq<int>, places: seq<int>) {
    && |places| == |ids|
    && (forall k {:trigger PlaceOk(puts, cell, ids, places, k)} :: 0 <= k < |ids| ==> PlaceOk(puts, cell, ids, places, k))
    && (forall j, k {:trigger places[j], places[k]} :: 0 <= j < k < |ids| ==> places[j] < places[k])
    && (forall j, k {:trigger ids[j], ids[k]} :: 0 <= j && k == j + 1 && k < |ids| ==> ids[j] != ids[k])
    && forall i {:trigger IsKept(puts, cell, ids, places, i)} :: 0 <= i < |puts| ==> IsKept(puts, cell, ids, places, i)
  }

  ghost predicate PlaceOk<T(!new)>(puts: seq<(T, int)>, cell: T, ids: seq<int>, places: seq<int>, k: int) {
    0 <= k < |ids| == |places| && 0 <= places[k] < |puts| && puts[places[k]] == (cell, ids[k])
  }

  ghost predicate IsKept<T(!new)>(puts: seq<(T, int)>, cell: T, ids: seq<int>, places: seq<int>, i: int) {
    0 <= i < |puts| && (puts[i].0 == cell ==> exists k :: IsLatest(ids, places, i, puts[i].1, k))
  }

  /** The last of the places up to i is the k-th, which is that of the id. */
  ghost predicate IsLatest(ids: seq<int>, places: seq<int>, i: int, id: int, k: int) {
    && 0 <= k < |ids| == |places| && places[k] <= i && ids[k] == id
    && forall j {:trigger places[j]} :: k < j < |ids| ==> i < places[j]
  }

  lemma CollectedAsBefore<T(!new)>(puts: seq<(T, int)>, cell: T, ids: seq<int>, places: seq<int>, put: (T, int))
    requires put.0 == cell ==> ids != [] && ids[|ids| - 1] == put.1
    requires CollectedFrom(puts, cell, ids, places)
    ensures CollectedFrom(puts + [put], cell, ids, places)
  {
    var more := puts + [put];
    forall i | 0 <= i < |more| ensures IsKept(more, cell, ids, places, i) {
      if i < |puts| {
        assert IsKept(puts, cell, ids, places, i);
      } else if put.0 == cell {
        assert PlaceOk(puts, cell, ids, places, |ids| - 1);
        assert IsLatest(ids, places, i, put.1, |ids| - 1);
      }
    }
    forall k | 0 <= k < |ids| ensures PlaceOk(more, cell, ids, places, k) {
      assert PlaceOk(puts, cell, ids, places, k);
    }
  }

  lemma CollectedMore<T(!new)>(puts: seq<(T, int)>, cell: T, ids: seq<int>, places: seq<int>, put: (T, int))
    requires CollectedFrom(puts, cell, ids, places) && put.0 == cell && (ids != [] ==> ids[|ids| - 1] != put.1)
    ensures CollectedFrom(puts + [put], cell, ids + [put.1], places + [|puts|])
  {
    var more, ids', places' := puts + [put], ids + [put.1], places + [|puts|];
    forall k | 0 <= k < |ids'| ensures PlaceOk(more, cell, ids', places', k) {
      assert k < |ids| ==> PlaceOk(puts, cell, ids, places, k);
    }
    forall j, k | 0 <= j < k < |ids'| ensures places'[j] < places'[k] {
      assert PlaceOk(puts, cell, ids, places, j);
    }
    forall i | 0 <= i < |more| ensures IsKept(more, cell, ids', places', i) {
      if i < |puts| {
        assert IsKept(puts, cell, ids, places, i);
        if puts[i].0 == cell {
          var k :| IsLatest(ids, places, i, puts[i].1, k);
          assert IsLatest(ids', places', i, puts[i].1, k);
        }
      } else {
        assert IsLatest(ids', places', i, put.1, |ids|);
      }
    }
  }

  lemma {:induction false} CollectedIs<T(!new)>(puts: seq<(T, int)>, cell: T) returns (places: seq<int>)
    ensures CollectedFrom(puts, cell, CollectedAt(puts, cell), places)
  {
    places := [];
    if puts != [] {
      var n := |puts| - 1;
      var before := CollectedAt(puts[..n], cell);
      places := CollectedIs(puts[..n], cell);
      if puts[n].0 == cell && (before == [] || before[|before| - 1] != puts[n].1) {
        CollectedMore(puts[..n], cell, before, places, puts[n]);
        places := places + [n];
      } else {
        CollectedAsBefore(puts[..n], cell, before, places, puts[n]);
      }
      assert puts[..n] + [puts[n]] == puts;
    }
  }

  ghost predicate PutThere<T(!new)>(puts: seq<(T, int)>, cell: T, id: int) {
    exists i {:trigger puts[i]} :: 0 <= i < |puts| && puts[i] == (cell, id)
  }

  lemma CollectedIds<T(!new)>(puts: seq<(T, int)>, cell: T, id: int)
    ensures id in CollectedAt(puts, cell) <==> PutThere(puts, cell, id)
  {
    var places := CollectedIs(puts, cell);
    var ids := CollectedAt(puts, cell);
    if id in ids {
      var k :| 0 <= k < |ids| && ids[k] == id;
      assert PlaceOk(puts, cell, ids, places, k);
    }
    if i :| 0 <= i < |puts| && puts[i] == (cell, id) {
      assert IsKept(puts, cell, ids, places, i);
    }
  }

  function KeyHistory(puts: seq<(Cell, int)>, bits: bv64): seq<(bv64, int)>
    requires bits <= 64
  {
    seq(|puts|, i requires 0 <= i < |puts| => (CellKey(puts[i].0, bits), puts[i].1))
  }

  /** In a grid of at most 2^16 by 2^16 cells, the key of a cell leads to what was put into it. */
  lemma {:induction false} CellsCollected(puts: seq<(Cell, int)>, cell: Cell, half: bv64)
    requires 0 < half <= 16 && CellInGrid(cell, half) && forall i {:trigger puts[i]} :: 0 <= i < |puts| ==> CellInGrid(puts[i].0, half)
    ensures 2 * half <= 64 && Collected(KeyHistory(puts, 2 * half), CellKey(cell, 2 * half)) == CollectedAt(puts, cell)
    decreases |puts|
  {
    TwiceHalf(half);
    if puts != [] {
      var n := |puts| - 1;
      CellsCollected(puts[..n], cell, half);
      assert KeyHistory(puts, 2 * half)[..n] == KeyHistory(puts[..n], 2 * half);
      if CellKey(puts[n].0, 2 * half) == CellKey(cell, 2 * half) {
        CellKeyInjective(puts[n].0, cell, half);
      }
    }
  }

  // ----- the tree in a buffer

  /** The buffer holds the entry at the pointer, and only places before the end belong to it. */
  ghost predicate Stored(data: seq<int>, ptr: int, e: Entry, end: int)
    decreases e
  {
    match e
    case Vacant => false
    case Leaf(results) => results != [] && 0 < ptr && LeafStored(data, ptr, results, end)
    case Tree(subs) =>
      && 0 < ptr && ptr + |subs| <= end && ptr + |subs| <= |data|
      && forall i {:trigger subs[i]} :: 0 <= i < |subs| ==>
           if subs[i].Absent() then data[ptr + i] == 0
           else ptr + |subs| <= data[ptr + i] < end && Stored(data, data[ptr + i], subs[i], end)
  }

  /** One id is stored in place of the pointer to the end of the list. */
  ghost predicate LeafStored(data: seq<int>, ptr: int, results: seq<int>, end: int)
    requires results != [] && 0 < ptr
  {
    if |results| == 1 then ptr < end && ptr < |data| && data[ptr] == -results[0] - 1
    else
      var last := ptr + 1 + |results|;
      last <= end && last <= |data| && data[ptr] == last && data[ptr + 1..last] == results
  }

  /** Every tree below has an entry. */
  ghost predicate Solid(e: Entry)
    decreases e, 1
  {
    (e.Tree? ==> e.subs != []) && Occupied(e) && SubsSolid(e)
  }

  ghost predicate SubsSolid(e: Entry)
    decreases e, 0
  {
    e.Tree? ==> forall i {:trigger e.subs[i]} :: 0 <= i < |e.subs| && !e.subs[i].Vacant? ==> Solid(e.subs[i])
  }

  lemma {:induction false} TreeIsSolid(e: Entry, shifts: seq<nat>)
    requires TreeOk(e, shifts)
    ensures SubsSolid(e) && (e.Tree? ==> e.subs != [])
    decreases |shifts|
  {
    if e.Tree? {
      forall i | 0 <= i < |e.subs| && !e.subs[i].Vacant? ensures Solid(e.subs[i]) {
        assert SubOk(e.subs[i], shifts[1..]);
        TreeIsSolid(e.subs[i], shifts[1..]);
      }
    }
  }

  ghost predicate SameFrom(data: seq<int>, data': seq<int>, from: int, end: int) {
    && |data'| >= |data|
    && forall k {:trigger data'[k]} {:trigger data[k]} :: from <= k < end && 0 <= k < |data| ==> data'[k] == data[k]
  }

  /** What belongs to an entry is all it depends on. */
  lemma {:induction false} StoredStays(data: seq<int>, data': seq<int>, ptr: int, e: Entry, end: int, end': int)
    requires Stored(data, ptr, e, end) && SameFrom(data, data', ptr, end) && end <= end'
    ensures Stored(data', ptr, e, end')
    decreases e
  {
    match e
    case Leaf(results) =>
      if |results| > 1 {
        assert data'[ptr + 1..ptr + 1 + |results|] == data[ptr + 1..ptr + 1 + |results|];
      }
    case Tree(subs) =>
      forall i | 0 <= i < |subs|
        ensures if subs[i].Absent() then data'[ptr + i] == 0
                else ptr + |subs| <= data'[ptr + i] < end' && Stored(data', data'[ptr + i], subs[i], end')
      {
        if !subs[i].Absent() {
          StoredStays(data, data', data[ptr + i], subs[i], end, end');
        }
      }
  }

  ghost predicate ZeroFrom(data: seq<int>, from: int) {
    forall k {:trigger data[k]} :: from <= k < |data| && 0 <= k ==> data[k] == 0
  }

  ghost predicate SlotOk(data: seq<int>, ptr: int, subs: seq<Entry>, i: int, cur: int)
    requires 0 <= i < |subs| && 0 < ptr
  {
    && (!subs[i].Vacant? ==> ptr + |subs| <= |data|)
    && (ptr + i < |data| ==>
          if subs[i].Absent() then data[ptr + i] == 0
          else ptr + |subs| <= data[ptr + i] < cur && Stored(data, data[ptr + i], subs[i], cur))
  }

  /** The entries of a tree stored so far, and the free places for the others. */
  ghost predicate SlotsStored(data: seq<int>, ptr: int, subs: seq<Entry>, done: int, cur: int) {
    && 0 < ptr && ptr + |subs| <= cur && 0 <= done <= |subs|
    && (forall i :: 0 <= i < done ==> SlotOk(data, ptr, subs, i, cur))
    && ZeroBetween(data, ptr + done, ptr + |subs|)
  }

  ghost predicate ZeroBetween(data: seq<int>, from: int, to: int) {
    forall k {:trigger data[k]} :: from <= k < to && 0 <= k < |data| ==> data[k] == 0
  }

  lemma SlotsStay(data: seq<int>, data': seq<int>, ptr: int, subs: seq<Entry>, done: int, cur: int, cur': int)
    requires SlotsStored(data, ptr, subs, done, cur) && SameFrom(data, data', 0, cur) && cur <= cur'
    requires ptr + |subs| <= |data| || forall k {:trigger data'[k]} :: |data| <= k < |data'| ==> data'[k] == 0
    ensures SlotsStored(data', ptr, subs, done, cur')
  {
    forall i | 0 <= i < done ensures SlotOk(data', ptr, subs, i, cur') {
      assert SlotOk(data, ptr, subs, i, cur);
      if !subs[i].Absent() {
        StoredStays(data, data', data[ptr + i], subs[i], cur, cur');
      }
    }
  }

  lemma SlotSkipped(data: seq<int>, ptr: int, subs: seq<Entry>, done: int, cur: int)
    requires SlotsStored(data, ptr, subs, done, cur) && done < |subs| && subs[done].Vacant?
    ensures SlotsStored(data, ptr, subs, done + 1, cur)
  {
  }

  lemma SlotSet(data: seq<int>, ptr: int, subs: seq<Entry>, done: int, cur: int, value: int)
    requires SlotsStored(data, ptr, subs, done, cur) && done < |subs| && ptr + |subs| <= |data|
    requires if subs[done].Absent() then value == 0 else ptr + |subs| <= value < cur && Stored(data, value, subs[done], cur)
    ensures SlotsStored(data[ptr + done := value], ptr, subs, done + 1, cur)
  {
    var data' := data[ptr + done := value];
    forall i | 0 <= i < done + 1 ensures SlotOk(data', ptr, subs, i, cur) {
      assert i < done ==> SlotOk(data, ptr, subs, i, cur);
      if !subs[i].Absent() {
        StoredStays(data, data', data'[ptr + i], subs[i], cur, cur);
      }
    }
  }

  lemma AllSlotsStored(data: seq<int>, ptr: int, e: Entry, cur: int)
    requires e.Tree? && SlotsStored(data, ptr, e.subs, |e.subs|, cur) && (Occupied(e) || ptr + |e.subs| <= |data|)
    ensures Stored(data, ptr, e, cur)
  {
    if Occupied(e) {
      var i :| 0 <= i < |e.subs| && !e.subs[i].Vacant?;
      assert SlotOk(data, ptr, e.subs, i, cur);
    }
    forall i | 0 <= i < |e.subs|
      ensures if e.subs[i].Absent() then data[ptr + i] == 0
              else ptr + |e.subs| <= data[ptr + i] < cur && Stored(data, data[ptr + i], e.subs[i], cur)
    {
      assert SlotOk(data, ptr, e.subs, i, cur);
    }
  }

  const FIRST_PLACE := 1

  lemma AbsentFinds(e: Entry, key: bv64, shifts: seq<nat>)
    requires SubOk(e, shifts) && e.Absent()
    ensures Find(e, key, shifts) == []
  {
  }

  /** The id is in one of the first entries. */
  ghost predicate InFirst(subs: seq<Entry>, k: int, id: int) {
    exists i {:trigger subs[i]} :: 0 <= i < k && i < |subs| && id in Ids(subs[i])
  }

  lemma OneMoreSub(subs: seq<Entry>, k: int)
    requires 0 <= k < |subs|
    ensures forall id :: InFirst(subs, k + 1, id) <==> InFirst(subs, k, id) || id in Ids(subs[k])
    ensures subs[k].Absent() ==> Ids(subs[k]) == {}
    ensures k + 1 == |subs| ==> forall id :: InFirst(subs, k + 1, id) <==> id in Ids(Tree(subs))
  {
    forall id ensures InFirst(subs, k + 1, id) <==> InFirst(subs, k, id) || id in Ids(subs[k]) {
      if id in Ids(subs[k]) {
        assert InFirst(subs, k + 1, id);
      }
    }
  }

  // ----- tiles: cells by their numbers

  type Tile = (int, int)

  predicate IsOdd(n: int) {
    n % 2 == 1
  }

  /** One more binary digit behind the others. */
  function Joined(digits: bv64, one: bool): bv64 {
    (digits << 1) | (if one then 1 else 0)
  }

  /** A number in binary. */
  function Bits(n: int): bv64 {
    if n <= 0 then 0 else Joined(Bits(n / 2), IsOdd(n))
  }

  function CellOf(t: Tile): Cell {
    (Bits(t.0), Bits(t.1))
  }

  function TileKey(t: Tile, bits: bv64): bv64
    requires bits <= 64
  {
    CellKey(CellOf(t), bits)
  }

  /** The number of tiles on each side of the grid. */
  function PartsOf(shifts: seq<nat>): nat {
    if shifts == [] then 1 else (if shifts[0] == 2 then 2 else 4) * PartsOf(shifts[1..])
  }

  /** The number of leaves below a tree. */
  function LeavesOf(shifts: seq<nat>): nat {
    if shifts == [] then 1 else Fan(shifts[0]) * LeavesOf(shifts[1..])
  }

  /** There is a leaf for each tile. */
  lemma {:induction false} LeafPerTile(shifts: seq<nat>)
    requires ShiftsOk(shifts)
    ensures PartsOf(shifts) * PartsOf(shifts) == LeavesOf(shifts)
    decreases |shifts|
  {
    if shifts != [] {
      LeafPerTile(shifts[1..]);
      var p := PartsOf(shifts[1..]);
      assert (2 * p) * (2 * p) == 4 * (p * p) && (4 * p) * (4 * p) == 16 * (p * p);
    }
  }

  lemma LessBits(half: bv64, less: bv64)
    requires half <= 16 && less <= 2 && 2 * half >= 2 * less
    ensures half >= less && half - less <= 16 && 2 * half - 2 * less == 2 * (half - less)
  {
  }

  lemma DoubledSmall(a: bv64, d: bool, half: bv64)
    requires 0 < half <= 16 && a < (1 << (half - 1))
    ensures Joined(a, d) < (1 << half)
  {
  }

  lemma DoubledSame(a: bv64, d: bool, b: bv64, e: bool, half: bv64)
    requires half <= 16 && a < (1 << half) && b < (1 << half) && Joined(a, d) == Joined(b, e)
    ensures a == b && d == e
  {
  }

  lemma NoBits(half: bv64)
    requires half <= 16 && 2 * half == 0
    ensures half == 0 && (1 as bv64) << half == 1
  {
  }

  /** The bits of a number within the grid. */
  lemma {:induction false} BitsInGrid(n: int, shifts: seq<nat>, half: bv64)
    requires ShiftsOk(shifts) && half <= 16 && HasBits(shifts, 2 * half) && 0 <= n < PartsOf(shifts)
    ensures Bits(n) < (1 << half)
    decreases |shifts|
  {
    if shifts == [] {
      NoBits(half);
    } else if shifts[0] == 2 {
      LessBits(half, 1);
      BitsInGrid(n / 2, shifts[1..], half - 1);
      OneBitMore(n, n / 2, half);
    } else {
      LessBits(half, 2);
      BitsInGrid(n / 4, shifts[1..], half - 2);
      HalfOfHalf(n);
      OneBitMore(n / 2, n / 4, half - 1);
      OneBitMore(n, n / 2, half);
    }
  }

  lemma OneBitMore(n: int, h: int, half: bv64)
    requires 0 < half <= 16 && n >= 0 && h == n / 2 && Bits(h) < (1 << (half - 1))
    ensures Bits(n) < (1 << half)
  {
    BitsSplit(n, h, IsOdd(n));
    DoubledSmall(Bits(h), IsOdd(n), half);
  }

  /** Different numbers within the grid have different bits. */
  lemma {:induction false} BitsDiffer(m: int, n: int, shifts: seq<nat>, half: bv64)
    requires ShiftsOk(shifts) && half <= 16 && HasBits(shifts, 2 * half)
    requires 0 <= m < PartsOf(shifts) && 0 <= n < PartsOf(shifts) && Bits(m) == Bits(n)
    ensures m == n
    decreases |shifts|
  {
    if shifts != [] {
      if shifts[0] == 2 {
        LessBits(half, 1);
        HalvesDiffer(m, n, shifts[1..], half - 1);
        BitsDiffer(m / 2, n / 2, shifts[1..], half - 1);
      } else {
        LessBits(half, 2);
        var inner := [2] + shifts[1..];
        assert inner[1..] == shifts[1..];
        OneLess(half);
        HalvesDiffer(m, n, inner, half - 1);
        HalfOfHalf(m);
        HalfOfHalf(n);
        HalvesDiffer(m / 2, n / 2, shifts[1..], half - 2);
        BitsDiffer(m / 4, n / 4, shifts[1..], half - 2);
      }
    }
  }

  lemma OneLess(half: bv64)
    requires 2 <= half <= 16
    ensures 2 * (half - 1) >= 2 && 2 * (half - 1) - 2 == 2 * (half - 2) && half - 1 <= 16
  {
  }

  /** Equal bits come from equal halves and equal last digits. */
  lemma HalvesDiffer(m: int, n: int, shifts: seq<nat>, half: bv64)
    requires ShiftsOk(shifts) && half <= 16 && HasBits(shifts, 2 * half)
    requires 0 <= m / 2 < PartsOf(shifts) && 0 <= n / 2 < PartsOf(shifts) && m >= 0 && n >= 0 && Bits(m) == Bits(n)
    ensures Bits(m / 2) == Bits(n / 2) && m % 2 == n % 2
  {
    HalvesSplit(m, n, m / 2, IsOdd(m), n / 2, IsOdd(n));
    SameHalves(m / 2, IsOdd(m), n / 2, IsOdd(n), shifts, half);
  }

  lemma SameHalves(h: int, d: bool, k: int, e: bool, shifts: seq<nat>, half: bv64)
    requires ShiftsOk(shifts) && half <= 16 && HasBits(shifts, 2 * half) && 0 <= h < PartsOf(shifts) && 0 <= k < PartsOf(shifts)
    requires Joined(Bits(h), d) == Joined(Bits(k), e)
    ensures Bits(h) == Bits(k) && d == e
  {
    BitsInGrid(h, shifts, half);
    BitsInGrid(k, shifts, half);
    DoubledSame(Bits(h), d, Bits(k), e, half);
  }

  lemma HalvesSplit(m: int, n: int, h: int, d: bool, k: int, e: bool)
    requires m >= 0 && n >= 0 && Bits(m) == Bits(n) && h == m / 2 && d == IsOdd(m) && k == n / 2 && e == IsOdd(n)
    ensures Joined(Bits(h), d) == Joined(Bits(k), e)
  {
    BitsSplit(m, h, d);
    BitsSplit(n, k, e);
  }

  lemma BitsSplit(n: int, h: int, d: bool)
    requires n >= 0 && h == n / 2 && d == IsOdd(n)
    ensures Bits(n) == Joined(Bits(h), d)
  {
    if n == 0 {
      ZeroJoined();
    }
  }

  lemma ZeroJoined()
    ensures Joined(0, false) == 0
  {
  }

  lemma HalfOfHalf(n: int)
    requires n >= 0
    ensures n / 2 / 2 == n / 4
  {
  }

  ghost predicate TilesDistinct(tiles: seq<Tile>) {
    forall i, j {:trigger tiles[i], tiles[j]} :: 0 <= i < j < |tiles| ==> tiles[i] != tiles[j]
  }

  lemma TwiceIsNotDistinct(tiles: seq<Tile>)
    requires |tiles| > 1 && tiles[0] == tiles[1]
    ensures !TilesDistinct(tiles)
  {
  }

  lemma TileOnce(tiles: seq<Tile>, c: Tile)
    requires TilesDistinct(tiles) && c in tiles && forall j {:trigger tiles[j]} :: 0 <= j < |tiles| ==> tiles[j] == c
    ensures tiles == [c]
  {
    if |tiles| > 1 {
      TwiceIsNotDistinct(tiles);
    }
  }

  ghost predicate InGrid(parts: nat, t: Tile) {
    0 <= t.0 < parts && 0 <= t.1 < parts
  }

  function Apart(a: int, b: int): nat {
    if a < b then b - a else a - b
  }

  /** How many rings of cells lie between two cells. */
  function Distance(a: Tile, b: Tile): nat {
    if Apart(a.0, b.0) < Apart(a.1, b.1) then Apart(a.1, b.1) else Apart(a.0, b.0)
  }

  /** The id was put into a tile at this distance. */
  ghost predicate PutAtDistance(puts: seq<(Tile, int)>, id: int, c: Tile, r: nat) {
    exists i {:trigger puts[i]} :: 0 <= i < |puts| && puts[i].1 == id && Distance(c, puts[i].0) == r
  }

  /** Among the first k cells of the left and right side of a square. */
  ghost predicate OnSides(c: Tile, r: nat, k: int, t: Tile) {
    Apart(c.0, t.0) == r && c.1 - r <= t.1 < c.1 - r + k
  }

  /** Among the first k cells of its ends, without the corners. */
  ghost predicate OnEnds(c: Tile, r: nat, k: int, t: Tile) {
    Apart(c.1, t.1) == r && c.0 - r < t.0 <= c.0 - r + k
  }

  ghost predicate OnSquare(c: Tile, r: nat, k: int, t: Tile) {
    OnSides(c, r, 2 * r + 1, t) || OnEnds(c, r, k, t)
  }

  lemma EndsGrow(c: Tile, r: nat, k: nat, lower: Tile, upper: Tile)
    requires k + 1 < 2 * r && lower == (c.0 + k - r + 1, c.1 - r) && upper == (c.0 + k - r + 1, c.1 + r)
    ensures lower != upper && !OnSquare(c, r, k, lower) && !OnSquare(c, r, k, upper)
    ensures forall t :: OnSquare(c, r, k + 1, t) <==> OnSquare(c, r, k, t) || t == lower || t == upper
  {
  }

  lemma SameLists(tiles: seq<Tile>, parts: nat, wanted: Tile -> bool, wanted': Tile -> bool)
    requires Lists(tiles, parts, wanted) && forall t {:trigger wanted'(t)} :: wanted'(t) <==> wanted(t)
    ensures Lists(tiles, parts, wanted')
  {
    forall t ensures t in tiles <==> InGrid(parts, t) && wanted'(t) {
      assert wanted'(t) <==> wanted(t);
    }
  }

  lemma AllSides(c: Tile, r: nat, parts: nat, tiles: seq<Tile>)
    requires Lists(tiles, parts, t => OnSides(c, r, 2 * r + 1, t))
    ensures Lists(tiles, parts, t => OnSquare(c, r, 0, t))
  {
    SameLists(tiles, parts, t => OnSides(c, r, 2 * r + 1, t), t => OnSquare(c, r, 0, t));
  }

  lemma WholeRing(c: Tile, r: nat, parts: nat, tiles: seq<Tile>, k: int)
    requires Lists(tiles, parts, t => OnSquare(c, r, k, t)) && k == if r > 0 then 2 * r - 1 else 0
    ensures Lists(tiles, parts, t => Distance(c, t) == r)
  {
    SameLists(tiles, parts, t => OnSquare(c, r, k, t), t => Distance(c, t) == r);
  }

  /** The cells of the grid that satisfy a condition, each once. */
  ghost predicate Lists(tiles: seq<Tile>, parts: nat, wanted: Tile -> bool) {
    TilesDistinct(tiles) && forall t {:trigger t in tiles} {:trigger wanted(t)} :: t in tiles <==> InGrid(parts, t) && wanted(t)
  }

  lemma OneMoreTile(tiles: seq<Tile>, parts: nat, wanted: Tile -> bool, q: Tile, wanted': Tile -> bool)
    requires Lists(tiles, parts, wanted) && !wanted(q) && forall t {:trigger wanted'(t)} :: wanted'(t) <==> wanted(t) || t == q
    ensures q !in tiles && Lists(if InGrid(parts, q) then tiles + [q] else tiles, parts, wanted')
  {
    var tiles' := if InGrid(parts, q) then tiles + [q] else tiles;
    forall t ensures t in tiles' <==> InGrid(parts, t) && wanted'(t) {
      assert wanted'(t) <==> wanted(t) || t == q;
    }
  }

  class LineIntIndex {
    const shifts: seq<nat>
    const bits: bv64
    var data: seq<int>
    ghost var root: Entry  // the tree that is stored
    ghost var end: int

    /** A tree is stored. */
    ghost predicate Valid()
      reads this
    {
      && ShiftsOk(shifts) && shifts != [] && HasBits(shifts, bits) && bits <= 48
      && TreeOk(root, shifts) && Stored(data, FIRST_PLACE, root, end)
    }

    constructor (shifts: seq<nat>, bits: bv64)
      ensures this.shifts == shifts && this.bits == bits && |data| == 16384 && ZeroFrom(data, 0)
    {
      this.shifts, this.bits, data := shifts, bits, seq(16384, _ => 0);
    }

    /** Stores the tree of an index in memory. */
    method Store(inMem: InMemConstructionIndex)
      requires inMem.Valid() && inMem.shifts == shifts && inMem.bits == bits && |data| == 16384 && ZeroFrom(data, 0)
      modifies this
      ensures Valid() && root == inMem.root
    {
      TreeIsSolid(inMem.root, shifts);
      assert Fan(shifts[0]) <= 16;
      var last := StoreEntry(inMem.root, FIRST_PLACE);
      root, end := inMem.root, last;
    }

    /** The ids stored for an aligned key, in the order they were put. */
    method FillIDs(key: bv64) returns (ids: seq<int>)
      requires Valid()
      ensures ids == Find(root, key, shifts)
    {
      var keyPart, intPointer := key, FIRST_PLACE;
      ghost var e := root;
      assert shifts[0..] == shifts;
      for d := 0 to |shifts|
        invariant TreeOk(e, shifts[d..]) && Stored(data, intPointer, e, end)
        invariant Find(e, keyPart, shifts[d..]) == Find(root, key, shifts)
      {
        ghost var rest := shifts[d..];
        assert rest[0] == shifts[d] && rest[1..] == shifts[d + 1..];
        var offset := Top(keyPart, shifts[d]);
        assert SubOk(e.subs[offset], rest[1..]);
        var nextIntPointer := data[intPointer + offset];
        if nextIntPointer <= 0 {
          AbsentFinds(e.subs[offset], Below(keyPart, shifts[d]), rest[1..]);
          return [];
        }
        keyPart := Below(keyPart, shifts[d]);
        intPointer := nextIntPointer;
        e := e.subs[offset];
      }
      ids := ReadLeaf(intPointer, e.results);
    }

    method ReadLeaf(intPointer: int, ghost results: seq<int>) returns (ids: seq<int>)
      requires results != [] && 0 < intPointer && LeafStored(data, intPointer, results, end)
      requires forall i :: 0 <= i < |results| ==> results[i] >= 0
      ensures ids == results
    {
      var item := data[intPointer];
      if item < 0 {
        ids := [-(item + 1)];
      } else {
        ids := [];
        for leafIndex := intPointer + 1 to item
          invariant ids == data[intPointer + 1..leafIndex]
        {
          ids := ids + [data[leafIndex]];
        }
      }
    }

    /** Reports every stored id once. */
    method Query() returns (reported: seq<int>)
      requires Valid()
      ensures Distinct(reported) && forall id :: id in reported <==> id in Ids(root)
    {
      assert shifts[0..] == shifts;
      reported := QueryRecursive(FIRST_PLACE, 0, root, []);
    }

    method QueryRecursive(intPointer: int, depth: nat, ghost e: Entry, reported0: seq<int>) returns (reported: seq<int>)
      requires depth <= |shifts| && TreeOk(e, shifts[depth..]) && ShiftsOk(shifts) && Stored(data, intPointer, e, end) && Distinct(reported0)
      ensures Distinct(reported) && forall id :: id in reported <==> id in reported0 || id in Ids(e)
      decreases |shifts| - depth
    {
      if depth == |shifts| {
        var ids := ReadLeaf(intPointer, e.results);
        reported := ReportAll(ids, reported0);
        return;
      }
      ghost var rest := shifts[depth..];
      assert rest[0] == shifts[depth] && rest[1..] == shifts[depth + 1..];
      reported := reported0;
      for cellIndex := 0 to Fan(shifts[depth])
        invariant Distinct(reported)
        invariant forall id :: id in reported <==> id in reported0 || InFirst(e.subs, cellIndex, id)
      {
        assert SubOk(e.subs[cellIndex], rest[1..]);
        var nextIntPointer := data[intPointer + cellIndex];
        if nextIntPointer > 0 {
          reported := QueryRecursive(nextIntPointer, depth + 1, e.subs[cellIndex], reported);
        }
        OneMoreSub(e.subs, cellIndex);
      }
    }

    method ReportAll(ids: seq<int>, reported0: seq<int>) returns (reported: seq<int>)
      requires Distinct(reported0)
      ensures Distinct(reported) && forall id :: id in reported <==> id in reported0 || id in ids
    {
      reported := reported0;
      for i := 0 to |ids|
        invariant Distinct(reported) && forall id :: id in reported <==> id in reported0 || id in ids[..i]
      {
        if ids[i] !in reported {
          AppendedDistinct(reported, ids[i]);
          reported := reported + [ids[i]];
        }
        assert ids[..i + 1] == ids[..i] + [ids[i]];
      }
      assert ids[..|ids|] == ids;
    }

    /** New places hold zero. */
    method EnsureCapacity(n: int)
      modifies this
      ensures |data| >= n && |data| >= |old(data)| && data[..|old(data)|] == old(data)
      ensures forall k :: |old(data)| <= k < |data| ==> data[k] == 0
    {
      if |data| < n {
        data := data + seq(n - |data|, _ => 0);
      }
    }

    method SetInt(pointer: int, value: int)
      requires 0 <= pointer < |data|
      modifies this
      ensures data == old(data)[pointer := value]
    {
      data := data[pointer := value];
    }

    method StoreLeaf(results: seq<int>, intPointer: int) returns (end: int)
      requires 0 < intPointer && ZeroFrom(data, intPointer)
      modifies this
      ensures results == [] ==> end == intPointer && data == old(data)
      ensures results != [] ==> intPointer < end <= |data| && LeafStored(data, intPointer, results, end)
      ensures SameFrom(old(data), data, 0, intPointer) && ZeroFrom(data, end)
    {
      end := intPointer;
      if |results| == 0 {
        return;
      }
      end := end + 1;
      EnsureCapacity(end + |results| + 1);
      if |results| == 1 {
        SetInt(intPointer, -results[0] - 1);
      } else {
        end := StoreIds(results, end);
        ghost var d := data;
        SetInt(intPointer, end);
        assert data[intPointer + 1..end] == d[intPointer + 1..end];
      }
    }

    method StoreIds(results: seq<int>, start: int) returns (end: int)
      requires 0 < start && start + |results| < |data| && ZeroFrom(data, start)
      modifies this
      ensures end == start + |results| && |data| == |old(data)| && data[start..end] == results
      ensures SameFrom(old(data), data, 0, start) && ZeroFrom(data, end)
    {
      end := start;
      for r := 0 to |results|
        invariant end == start + r && |data| == |old(data)| && data[start..end] == results[..r]
        invariant SameFrom(old(data), data, 0, start) && ZeroFrom(data, end)
      {
        ghost var d := data;
        SetInt(end, results[r]);
        assert data[start..end] == d[start..end];
        assert data[start..end + 1] == data[start..end] + [results[r]] && results[..r + 1] == results[..r] + [results[r]];
        end := end + 1;
      }
      assert results[..|results|] == results;
    }

    /** Writes an entry from a pointer on, its own places first, and returns the first place
        behind it. Nothing before the pointer changes. */
    method StoreEntry(e: Entry, intPointer: int) returns (end: int)
      requires 0 < intPointer && ZeroFrom(data, intPointer) && !e.Vacant? && (e.Tree? ==> e.subs != [])
      requires SubsSolid(e) && (e.Tree? ==> Occupied(e) || intPointer + |e.subs| <= |data|)
      modifies this
      ensures end >= intPointer && (e.Absent() <==> end == intPointer) && (!e.Absent() ==> Stored(data, intPointer, e, end))
      ensures SameFrom(old(data), data, 0, intPointer) && ZeroFrom(data, end)
      decreases e, 0
    {
      match e
      case Leaf(results) =>
        end := StoreLeaf(results, intPointer);
      case Tree(subs) =>
        end := intPointer + |subs|;
        for i := 0 to |subs|
          invariant SlotsStored(data, intPointer, subs, i, end)
          invariant SameFrom(old(data), data, 0, intPointer) && ZeroFrom(data, end)
        {
          if subs[i].Vacant? {
            SlotSkipped(data, intPointer, subs, i, end);
          } else {
            assert Solid(subs[i]);
            end := StoreSub(subs, i, intPointer, end);
          }
        }
        AllSlotsStored(data, intPointer, e, end);
    }

    method StoreSub(subs: seq<Entry>, i: int, ptr: int, cur: int) returns (end: int)
      requires 0 <= i < |subs| && SlotsStored(data, ptr, subs, i, cur) && ZeroFrom(data, cur) && !subs[i].Vacant? && Solid(subs[i])
      modifies this
      ensures end >= cur && SlotsStored(data, ptr, subs, i + 1, end)
      ensures SameFrom(old(data), data, 0, ptr) && ZeroFrom(data, end)
      decreases subs[i], 1
    {
      ghost var d0 := data;
      Reserve(subs, i, ptr, cur);
      ghost var d := data;
      end := StoreEntry(subs[i], cur);
      SlotsStay(d, data, ptr, subs, i, cur, end);
      var value := if end == cur then 0 else cur;
      SlotSet(data, ptr, subs, i, end, value);
      FrameOfSlot(d0, d, data, ptr, i, |subs|, cur, end, value);
      SetInt(ptr + i, value);
    }

    // ----- the cells around a point

    /** The number of tiles on each side of the grid. */
    function Parts(): nat {
      PartsOf(shifts)
    }

    /** The ids found at a tile. */
    ghost function At(t: Tile): seq<int>
      reads this
      requires Valid()
    {
      Find(root, TileKey(t, bits), shifts)
    }

    /** The index holds what these puts have put into the tiles of its grid. */
    ghost predicate Indexes(puts: seq<(Tile, int)>)
      reads this
    {
      && Valid() && (forall i {:trigger puts[i]} :: 0 <= i < |puts| ==> InGrid(Parts(), puts[i].0))
      && forall t {:trigger At(t)} :: InGrid(Parts(), t) ==> At(t) == CollectedAt(puts, t)
    }

    /** The ids put into the tiles at a distance from a tile; at no distance, those of the tile
        itself in their order. */
    method FindEdgeIdsInNeighborhood(x: int, y: int, iteration: nat) returns (ids: seq<int>, ghost tiles: seq<Tile>)
      requires Valid()
      ensures Lists(tiles, Parts(), t => Distance((x, y), t) == iteration) && ids == Gathered(tiles)
      ensures forall puts, id {:trigger Indexes(puts), PutAtDistance(puts, id, (x, y), iteration)} ::
                Indexes(puts) ==> (id in ids <==> PutAtDistance(puts, id, (x, y), iteration))
      ensures forall puts {:trigger Indexes(puts)} :: Indexes(puts) && iteration == 0 && InGrid(Parts(), (x, y)) ==> ids == CollectedAt(puts, (x, y))
    {
      ids, tiles := FindAround(x, y, iteration);
      forall puts, id | Indexes(puts) ensures id in ids <==> PutAtDistance(puts, id, (x, y), iteration) {
        RingHolds((x, y), iteration, tiles, puts, id);
      }
      if iteration == 0 && InGrid(Parts(), (x, y)) {
        OneTile((x, y), tiles);
      }
    }

    lemma RingHolds(c: Tile, r: nat, tiles: seq<Tile>, puts: seq<(Tile, int)>, id: int)
      requires Indexes(puts) && Lists(tiles, Parts(), t => Distance(c, t) == r)
      ensures id in Gathered(tiles) <==> PutAtDistance(puts, id, c, r)
    {
      var wanted := t => Distance(c, t) == r;
      InGathered(tiles, id);
      forall t | t in tiles ensures id in At(t) <==> PutThere(puts, t, id) {
        assert t in tiles <==> InGrid(Parts(), t) && wanted(t);
        CollectedIds(puts, t, id);
      }
      if i :| 0 <= i < |puts| && puts[i].1 == id && Distance(c, puts[i].0) == r {
        var t := puts[i].0;
        assert t in tiles <==> InGrid(Parts(), t) && wanted(t);
        assert puts[i] == (t, id);
      }
      if t :| t in tiles && PutThere(puts, t, id) {
        assert t in tiles <==> InGrid(Parts(), t) && wanted(t);
        var i :| 0 <= i < |puts| && puts[i] == (t, id);
        assert puts[i].1 == id;
      }
    }

    /** A single tile is at no distance from a tile. */
    lemma OneTile(c: Tile, tiles: seq<Tile>)
      requires Valid() && InGrid(Parts(), c) && Lists(tiles, Parts(), t => Distance(c, t) == 0)
      ensures Gathered(tiles) == At(c)
    {
      var wanted := t => Distance(c, t) == 0;
      assert c in tiles <==> InGrid(Parts(), c) && wanted(c);
      forall j | 0 <= j < |tiles| ensures tiles[j] == c {
        assert tiles[j] in tiles <==> InGrid(Parts(), tiles[j]) && wanted(tiles[j]);
      }
      TileOnce(tiles, c);
      assert tiles[..0] == [];
      assert Gathered(tiles[..0]) == [];
    }

    lemma {:induction false} InGathered(tiles: seq<Tile>, e: int)
      requires Valid()
      ensures e in Gathered(tiles) <==> exists t :: t in tiles && e in At(t)
    {
      if tiles != [] {
        var n := |tiles| - 1;
        InGathered(tiles[..n], e);
        assert forall t :: t in tiles <==> t in tiles[..n] || t == tiles[n];
      }
    }

    /** The ids found in the cells at the given distance from a cell, each cell visited once. */
    method FindAround(x: int, y: int, iteration: nat) returns (ids: seq<int>, ghost tiles: seq<Tile>)
      requires Valid()
      ensures Lists(tiles, Parts(), t => Distance((x, y), t) == iteration) && ids == Gathered(tiles)
    {
      ids, tiles := [], [];
      for k := 0 to 2 * iteration + 1
        invariant Lists(tiles, Parts(), t => OnSides((x, y), iteration, k, t)) && ids == Gathered(tiles)
      {
        ids, tiles := FillSides(x, y, iteration, k, ids, tiles);
      }
      var ends := if iteration > 0 then 2 * iteration - 1 else 0;
      AllSides((x, y), iteration, Parts(), tiles);
      for k := 0 to ends
        invariant Lists(tiles, Parts(), t => OnSquare((x, y), iteration, k, t)) && ids == Gathered(tiles)
      {
        ids, tiles := FillEnds(x, y, iteration, k, ids, tiles);
      }
      WholeRing((x, y), iteration, Parts(), tiles, ends);
    }

    method FillSides(x: int, y: int, r: nat, k: nat, ids0: seq<int>, ghost tiles0: seq<Tile>)
      returns (ids: seq<int>, ghost tiles: seq<Tile>)
      requires Valid() && ids0 == Gathered(tiles0) && k <= 2 * r
      requires Lists(tiles0, Parts(), t => OnSides((x, y), r, k, t))
      ensures Lists(tiles, Parts(), t => OnSides((x, y), r, k + 1, t)) && ids == Gathered(tiles)
    {
      var left, right := (x - r, y + k - r), (x + r, y + k - r);
      ghost var before := t => OnSides((x, y), r, k, t);
      ghost var after := t => OnSides((x, y), r, k + 1, t);
      ghost var withLeft := t => OnSides((x, y), r, k, t) || t == left;
      OneMoreTile(tiles0, Parts(), before, left, withLeft);
      ids, tiles := TryFill(left.0, left.1, ids0, tiles0);
      if r > 0 {
        OneMoreTile(tiles, Parts(), withLeft, right, after);
        ids, tiles := TryFill(right.0, right.1, ids, tiles);
      } else {
        SameLists(tiles, Parts(), withLeft, after);
      }
    }

    method FillEnds(x: int, y: int, r: nat, k: nat, ids0: seq<int>, ghost tiles0: seq<Tile>)
      returns (ids: seq<int>, ghost tiles: seq<Tile>)
      requires Valid() && ids0 == Gathered(tiles0) && k + 1 < 2 * r
      requires Lists(tiles0, Parts(), t => OnSquare((x, y), r, k, t))
      ensures Lists(tiles, Parts(), t => OnSquare((x, y), r, k + 1, t)) && ids == Gathered(tiles)
    {
      var lower, upper := (x + k - r + 1, y - r), (x + k - r + 1, y + r);
      ghost var before := t => OnSquare((x, y), r, k, t);
      ghost var after := t => OnSquare((x, y), r, k + 1, t);
      ghost var withLower := t => OnSquare((x, y), r, k, t) || t == lower;
      EndsGrow((x, y), r, k, lower, upper);
      OneMoreTile(tiles0, Parts(), before, lower, withLower);
      ids, tiles := TryFill(lower.0, lower.1, ids0, tiles0);
      OneMoreTile(tiles, Parts(), withLower, upper, after);
      ids, tiles := TryFill(upper.0, upper.1, ids, tiles);
    }

    method TryFill(qx: int, qy: int, ids0: seq<int>, ghost tiles0: seq<Tile>) returns (ids: seq<int>, ghost tiles: seq<Tile>)
      requires Valid() && ids0 == Gathered(tiles0) && TilesDistinct(tiles0)
      requires (qx, qy) !in tiles0
      ensures tiles == (if InGrid(Parts(), (qx, qy)) then tiles0 + [(qx, qy)] else tiles0)
      ensures ids == Gathered(tiles) && TilesDistinct(tiles)
    {
      ids, tiles := ids0, tiles0;
      if qx >= 0 && qy >= 0 && qx < Parts() && qy < Parts() {
        var found := FillTile((qx, qy));
        ids, tiles := ids + found, tiles + [(qx, qy)];
        assert tiles[..|tiles| - 1] == tiles0;
      }
    }

    method FillTile(t: Tile) returns (ids: seq<int>)
      requires Valid()
      ensures ids == At(t)
    {
      ids := FillIDs(TileKey(t, bits));
    }

    /** The ids of several cells. */
    ghost function Gathered(tiles: seq<Tile>): seq<int>
      reads this
      requires Valid()
    {
      if tiles == [] then []
      else Gathered(tiles[..|tiles| - 1]) + At(tiles[|tiles| - 1])
    }

    method Reserve(subs: seq<Entry>, i: int, ptr: int, cur: int)
      requires 0 <= i < |subs| && SlotsStored(data, ptr, subs, i, cur) && ZeroFrom(data, cur)
      modifies this
      ensures SlotsStored(data, ptr, subs, i, cur) && ZeroFrom(data, cur) && |data| > cur && SameFrom(old(data), data, 0, ptr)
    {
      ghost var d := data;
      EnsureCapacity(cur + 1);
      forall k | 0 <= k < |d| ensures data[k] == d[k] {
        assert data[..|d|][k] == d[k];
      }
      SlotsStay(d, data, ptr, subs, i, cur, cur);
    }
  }

  lemma FrameOfSlot(d0: seq<int>, d: seq<int>, data: seq<int>, ptr: int, i: int, n: int, cur: int, end: int, value: int)
    requires SameFrom(d0, d, 0, ptr) && SameFrom(d, data, 0, cur) && ZeroFrom(data, end) && 0 < ptr && 0 <= i < n && ptr + n <= cur <= end && ptr + i < |data|
    ensures SameFrom(d0, data[ptr + i := value], 0, ptr) && ZeroFrom(data[ptr + i := value], end)
  {
  }

  /** Tiles of the grid are cells of it, different tiles different cells. */
  lemma TileIsCell(t: Tile, shifts: seq<nat>, half: bv64)
    requires ShiftsOk(shifts) && half <= 16 && HasBits(shifts, 2 * half) && InGrid(PartsOf(shifts), t)
    ensures CellInGrid(CellOf(t), half)
  {
    BitsInGrid(t.0, shifts, half);
    BitsInGrid(t.1, shifts, half);
  }

  lemma TilesDiffer(t: Tile, u: Tile, shifts: seq<nat>, half: bv64)
    requires ShiftsOk(shifts) && half <= 16 && HasBits(shifts, 2 * half) && InGrid(PartsOf(shifts), t) && InGrid(PartsOf(shifts), u)
    ensures CellOf(t) == CellOf(u) <==> t == u
  {
    if CellOf(t) == CellOf(u) {
      BitsDiffer(t.0, u.0, shifts, half);
      BitsDiffer(t.1, u.1, shifts, half);
    }
  }

  function CellPuts(puts: seq<(Tile, int)>): seq<(Cell, int)> {
    seq(|puts|, i requires 0 <= i < |puts| => (CellOf(puts[i].0), puts[i].1))
  }

  /** What was put into a tile is what was put into its cell. */
  lemma {:induction false} TileCollected(puts: seq<(Tile, int)>, t: Tile, shifts: seq<nat>, half: bv64)
    requires ShiftsOk(shifts) && half <= 16 && HasBits(shifts, 2 * half) && InGrid(PartsOf(shifts), t)
    requires forall i {:trigger puts[i]} :: 0 <= i < |puts| ==> InGrid(PartsOf(shifts), puts[i].0)
    ensures CollectedAt(CellPuts(puts), CellOf(t)) == CollectedAt(puts, t)
    decreases |puts|
  {
    if puts != [] {
      var n := |puts| - 1;
      TileCollected(puts[..n], t, shifts, half);
      assert CellPuts(puts)[..n] == CellPuts(puts[..n]);
      TilesDiffer(puts[n].0, t, shifts, half);
    }
  }

  /** An index built from puts into tiles and stored: for each tile it finds what was put there,
      in order, and in all it holds the ids that were put. */
  method BuildIndex(puts: seq<(Tile, int)>, shifts: seq<nat>, half: bv64) returns (index: LineIntIndex)
    requires 0 < half <= 16 && ShiftsOk(shifts) && shifts != [] && HasBits(shifts, 2 * half)
    requires forall i {:trigger puts[i]} :: 0 <= i < |puts| ==> InGrid(PartsOf(shifts), puts[i].0) && puts[i].1 >= 0
    ensures index.Indexes(puts) && index.shifts == shifts && index.bits == 2 * half
    ensures forall id :: id in Ids(index.root) <==> exists i {:trigger puts[i]} :: 0 <= i < |puts| && puts[i].1 == id
  {
    TwiceHalf(half);
    var inMem := new InMemConstructionIndex(shifts, 2 * half);
    for i := 0 to |puts|
      invariant inMem.Valid() && inMem.history == KeyHistory(CellPuts(puts[..i]), 2 * half)
    {
      PutOne(inMem, puts, i, half);
    }
    assert puts[..|puts|] == puts;
    index := new LineIntIndex(shifts, 2 * half);
    index.Store(inMem);
    FoundInTiles(index, inMem.history, puts, half);
  }

  method PutOne(inMem: InMemConstructionIndex, puts: seq<(Tile, int)>, i: nat, half: bv64)
    requires 0 < half <= 16 && 2 * half <= 64 && inMem.Valid() && inMem.bits == 2 * half && i < |puts| && puts[i].1 >= 0
    requires inMem.history == KeyHistory(CellPuts(puts[..i]), 2 * half)
    modifies inMem
    ensures inMem.Valid() && inMem.history == KeyHistory(CellPuts(puts[..i + 1]), 2 * half)
  {
    var ((x, y), value) := puts[i];
    inMem.Put(Encode(Bits(x), Bits(y)), value);
    assert puts[..i + 1] == puts[..i] + [puts[i]];
  }

  lemma FoundInTiles(index: LineIntIndex, history: seq<(bv64, int)>, puts: seq<(Tile, int)>, half: bv64)
    requires index.Valid() && 0 < half <= 16 && 2 * half <= 64 && index.bits == 2 * half && history == KeyHistory(CellPuts(puts), 2 * half)
    requires Ids(index.root) == PutValues(history)
    requires forall key :: Exhausts(key, index.shifts) ==> Find(index.root, key, index.shifts) == Collected(history, key)
    requires forall i {:trigger puts[i]} :: 0 <= i < |puts| ==> InGrid(index.Parts(), puts[i].0)
    ensures index.Indexes(puts)
    ensures forall id :: id in Ids(index.root) <==> exists i {:trigger puts[i]} :: 0 <= i < |puts| && puts[i].1 == id
  {
    forall t | InGrid(index.Parts(), t) ensures index.At(t) == CollectedAt(puts, t) {
      FoundInTile(index, history, puts, half, t);
    }
    ValuesOfPuts(history, puts, half);
  }

  lemma FoundInTile(index: LineIntIndex, history: seq<(bv64, int)>, puts: seq<(Tile, int)>, half: bv64, t: Tile)
    requires index.Valid() && 0 < half <= 16 && 2 * half <= 64 && index.bits == 2 * half && history == KeyHistory(CellPuts(puts), 2 * half)
    requires forall key :: Exhausts(key, index.shifts) ==> Find(index.root, key, index.shifts) == Collected(history, key)
    requires InGrid(index.Parts(), t) && forall i {:trigger puts[i]} :: 0 <= i < |puts| ==> InGrid(index.Parts(), puts[i].0)
    ensures index.At(t) == CollectedAt(puts, t)
  {
    var cell, cells := CellOf(t), CellPuts(puts);
    TileIsCell(t, index.shifts, half);
    forall i | 0 <= i < |cells| ensures CellInGrid(cells[i].0, half) {
      TileIsCell(puts[i].0, index.shifts, half);
    }
    AlignedExhausts(Encode(cell.0, cell.1), 2 * half, index.shifts);
    CellsCollected(cells, cell, half);
    TileCollected(puts, t, index.shifts, half);
  }

  lemma ValuesOfPuts(history: seq<(bv64, int)>, puts: seq<(Tile, int)>, half: bv64)
    requires 2 * half <= 64 && history == KeyHistory(CellPuts(puts), 2 * half)
    ensures forall id :: id in PutValues(history) <==> exists i {:trigger puts[i]} :: 0 <= i < |puts| && puts[i].1 == id
  {
    forall i | 0 <= i < |puts| ensures puts[i].1 in PutValues(history) {
      assert history[i] in history;
    }
    forall id | id in PutValues(history) ensures exists i {:trigger puts[i]} :: 0 <= i < |puts| && puts[i].1 == id {
      var h :| h in history && h.1 == id;
      var i :| 0 <= i < |history| && history[i] == h;
      assert puts[i].1 == id;
    }
  }
}
