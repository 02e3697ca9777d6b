/** The binary min-heap with update that orders the nodes of the preparation. */
module MinHeaps {
  import opened HeapOrder

  const NOT_PRESENT := -1

  // ----- the two index arrays, as values

  ghost predicate SlotOk(tree: seq<int>, pos: seq<int>, vals: seq<Key>, m: map<int, real>, el: int, i: nat)
    requires i < |tree| && i < |vals|
  {
    && 0 <= tree[i] < |pos| && tree[i] != el && pos[tree[i]] == i
    && tree[i] in m && vals[i] == Key(m[tree[i]])
  }

  ghost predicate IdOk(tree: seq<int>, pos: seq<int>, size: nat, hole: nat, m: map<int, real>, id: nat)
    requires size < |tree| && id < |pos|
  {
    if id in m then 1 <= pos[id] <= size && pos[id] != hole && tree[pos[id]] == id else pos[id] == NOT_PRESENT
  }

  /** Away from the hole, tree and positions are inverse to each other and agree with the
      values in m; only el is without a slot. */
  ghost predicate LinkedExcept(tree: seq<int>, pos: seq<int>, vals: seq<Key>, size: nat, m: map<int, real>, hole: nat, el: int) {
    && |tree| == |pos| == |vals| && size < |tree| && pos[|pos| - 1] == NOT_PRESENT
    && (forall i {:trigger SlotOk(tree, pos, vals, m, el, i)} :: 1 <= i <= size && i != hole ==> SlotOk(tree, pos, vals, m, el, i))
    && (forall id {:trigger IdOk(tree, pos, size, hole, m, id)} :: 0 <= id < |pos| && id != el ==> IdOk(tree, pos, size, hole, m, id))
    && (forall id :: id in m ==> 0 <= id < |pos| - 1)
  }

  ghost predicate Linked(tree: seq<int>, pos: seq<int>, vals: seq<Key>, size: nat, m: map<int, real>) {
    LinkedExcept(tree, pos, vals, size, m, 0, NOT_PRESENT)
  }

  lemma MoveIntoHole(tree: seq<int>, pos: seq<int>, vals: seq<Key>, size: nat, m: map<int, real>, hole: nat, el: int, src: nat)
    requires LinkedExcept(tree, pos, vals, size, m, hole, el) && 1 <= hole <= size && 1 <= src <= size && src != hole
    ensures SlotOk(tree, pos, vals, m, el, src)
    ensures LinkedExcept(tree[hole := tree[src]], pos[tree[src] := hole], vals[hole := vals[src]], size, m, src, el)
  {
    assert SlotOk(tree, pos, vals, m, el, src);
    var t, p, v := tree[hole := tree[src]], pos[tree[src] := hole], vals[hole := vals[src]];
    assert tree[src] in m;
    forall i | 1 <= i <= size && i != src ensures SlotOk(t, p, v, m, el, i) {
      if i != hole {
        assert SlotOk(tree, pos, vals, m, el, i);
      }
    }
    forall id | 0 <= id < |p| && id != el ensures IdOk(t, p, size, src, m, id) {
      assert IdOk(tree, pos, size, hole, m, id);
    }
  }

  lemma FillWith(tree: seq<int>, pos: seq<int>, vals: seq<Key>, size: nat, m: map<int, real>, hole: nat, el: int)
    requires LinkedExcept(tree, pos, vals, size, m, hole, el) && 1 <= hole <= size && el in m
    ensures Linked(tree[hole := el], pos[el := hole], vals[hole := Key(m[el])], size, m)
  {
    var t, p, v := tree[hole := el], pos[el := hole], vals[hole := Key(m[el])];
    forall i | 1 <= i <= size ensures SlotOk(t, p, v, m, NOT_PRESENT, i) {
      if i != hole {
        assert SlotOk(tree, pos, vals, m, el, i);
      }
    }
    forall id | 0 <= id < |p| ensures IdOk(t, p, size, 0, m, id) {
      if id != el {
        assert IdOk(tree, pos, size, hole, m, id);
      }
    }
  }

  /** Takes the entry at index out, and lets its value be anything. */
  lemma TakeOut(tree: seq<int>, pos: seq<int>, vals: seq<Key>, size: nat, m: map<int, real>, index: nat, value: real)
    requires Linked(tree, pos, vals, size, m) && 1 <= index <= size
    ensures tree[index] in m && vals[index] == Key(m[tree[index]]) && pos[tree[index]] == index
    ensures LinkedExcept(tree, pos, vals[index := Key(value)], size, m[tree[index] := value], index, tree[index])
  {
    assert SlotOk(tree, pos, vals, m, NOT_PRESENT, index);
    var el := tree[index];
    var v, n := vals[index := Key(value)], m[el := value];
    forall i | 1 <= i <= size && i != index ensures SlotOk(tree, pos, v, n, el, i) {
      assert SlotOk(tree, pos, vals, m, NOT_PRESENT, i);
    }
    forall id | 0 <= id < |pos| && id != el ensures IdOk(tree, pos, size, index, n, id) {
      assert IdOk(tree, pos, size, 0, m, id);
    }
  }

  lemma Append(tree: seq<int>, pos: seq<int>, vals: seq<Key>, size: nat, m: map<int, real>, id: int, value: real)
    requires Linked(tree, pos, vals, size, m) && size + 1 < |tree| && 0 <= id < |pos| - 1 && id !in m
    ensures Linked(tree[size + 1 := id], pos[id := size + 1], vals[size + 1 := Key(value)], size + 1, m[id := value])
  {
    var t, p, v, n := tree[size + 1 := id], pos[id := size + 1], vals[size + 1 := Key(value)], m[id := value];
    forall i | 1 <= i <= size + 1 ensures SlotOk(t, p, v, n, NOT_PRESENT, i) {
      if i <= size {
        assert SlotOk(tree, pos, vals, m, NOT_PRESENT, i);
      }
    }
    var size' := size + 1;
    forall x | 0 <= x < |p| ensures IdOk(t, p, size', 0, n, x) {
      assert IdOk(tree, pos, size, 0, m, x);
    }
  }

  /** The last entry takes the place of the root. */
  lemma DropRoot(tree: seq<int>, pos: seq<int>, vals: seq<Key>, size: nat, m: map<int, real>)
    requires Linked(tree, pos, vals, size, m) && size >= 1
    ensures 0 <= tree[1] < |pos| && 0 <= tree[size] < |pos| && tree[1] in m
    ensures Linked(tree[1 := tree[size]], pos[tree[size] := 1][tree[1] := NOT_PRESENT], vals[1 := vals[size]], size - 1, m - {tree[1]})
  {
    assert SlotOk(tree, pos, vals, m, NOT_PRESENT, 1) && SlotOk(tree, pos, vals, m, NOT_PRESENT, size);
    var t, p, v := tree[1 := tree[size]], pos[tree[size] := 1][tree[1] := NOT_PRESENT], vals[1 := vals[size]];
    var n := m - {tree[1]};
    forall i | 1 <= i <= size - 1 ensures SlotOk(t, p, v, n, NOT_PRESENT, i) {
      assert SlotOk(tree, pos, vals, m, NOT_PRESENT, i);
    }
    var size' := size - 1;
    forall id | 0 <= id < |p| ensures IdOk(t, p, size', 0, n, id) {
      assert IdOk(tree, pos, size, 0, m, id);
    }
  }

  // ----- the heap

  class MinHeapWithUpdate {
    const maxElems: nat
    const tree: array<int>
    const positions: array<int>
    const vals: array<Key>
    var size: nat
    ghost var contents: map<int, real>  // the ids in the heap with their values

    ghost predicate Shape()
      reads this
    {
      && tree.Length == positions.Length == vals.Length == maxElems + 1
      && tree != positions && size <= maxElems
    }

    ghost predicate Valid()
      reads this, tree, positions, vals
    {
      && Shape() && Linked(tree[..], positions[..], vals[..], size, contents)
      && Ordered(vals[..], size) && |contents| == size
    }

    constructor (elements: nat)
      ensures Valid() && maxElems == elements && contents == map[] && size == 0
      ensures fresh(tree) && fresh(positions) && fresh(vals)
    {
      maxElems := elements;
      tree := new int[elements + 1];
      positions := new int[elements + 1](_ => NOT_PRESENT);
      vals := new Key[elements + 1](_ => MinusInf);
      size, contents := 0, map[];
    }

    /** Moves the entry at index up to its place. The sentinel in slot 0 ends the climb. */
    method PercolateUp(index: int)
      requires Shape() && 1 <= index <= size
      requires Linked(tree[..], positions[..], vals[..], size, contents)
      requires Climbing(vals[..], size, index, vals[index])
      modifies tree, positions, vals
      ensures Linked(tree[..], positions[..], vals[..], size, contents) && Ordered(vals[..], size)
    {
      ghost var v0 := vals[..];
      if index == 1 {
        FillHole(v0, size, 1, v0[1]);
        assert v0[1 := v0[1]] == v0;
        return;
      }
      var hole := index;
      var el := tree[index];
      var val := vals[index];
      assert SlotOk(tree[..], positions[..], vals[..], contents, NOT_PRESENT, index);
      TakeOut(tree[..], positions[..], vals[..], size, contents, index, contents[el]);
      assert contents[el := contents[el]] == contents && v0[index := val] == v0;
      while val.Below(vals[hole / 2])
        invariant Shape() && el in contents && val == Key(contents[el]) && 0 <= el < positions.Length
        invariant LinkedExcept(tree[..], positions[..], vals[..], size, contents, hole, el)
        invariant Climbing(vals[..], size, hole, val)
        decreases hole
      {
        var parent := hole / 2;
        ClimbStep(vals[..], size, hole, val);
        MoveIntoHole(tree[..], positions[..], vals[..], size, contents, hole, el, parent);
        tree[hole] := tree[parent];
        vals[hole] := vals[parent];
        positions[tree[hole]] := hole;
        hole := parent;
      }
      FillHole(vals[..], size, hole, val);
      FillWith(tree[..], positions[..], vals[..], size, contents, hole, el);
      tree[hole] := el;
      vals[hole] := val;
      positions[tree[hole]] := hole;
    }

    /** Moves the entry at index down to its place. */
    method PercolateDown(index: int)
      requires Shape() && 1 <= index <= size
      requires Linked(tree[..], positions[..], vals[..], size, contents)
      requires Sinking(vals[..], size, index, vals[index])
      modifies tree, positions, vals
      ensures Linked(tree[..], positions[..], vals[..], size, contents) && Ordered(vals[..], size)
    {
      ghost var v0 := vals[..];
      var hole := index;
      var el := tree[index];
      var val := vals[index];
      assert SlotOk(tree[..], positions[..], vals[..], contents, NOT_PRESENT, index);
      TakeOut(tree[..], positions[..], vals[..], size, contents, index, contents[el]);
      assert contents[el := contents[el]] == contents && v0[index := val] == v0;
      while 2 * hole <= size
        invariant Shape() && el in contents && val == Key(contents[el]) && 0 <= el < positions.Length
        invariant LinkedExcept(tree[..], positions[..], vals[..], size, contents, hole, el)
        invariant Sinking(vals[..], size, hole, val)
        decreases size - hole
      {
        var child := 2 * hole;
        if child != size && vals[child + 1].Below(vals[child]) {
          child := child + 1;
        }
        assert Tops(vals[..], size, vals[child], hole);
        if val.AtMost(vals[child]) {
          break;
        }
        SinkStep(vals[..], size, hole, val, child);
        MoveIntoHole(tree[..], positions[..], vals[..], size, contents, hole, el, child);
        tree[hole] := tree[child];
        vals[hole] := vals[child];
        positions[tree[hole]] := hole;
        hole := child;
      }
      assert Tops(vals[..], size, val, hole);
      FillHole(vals[..], size, hole, val);
      FillWith(tree[..], positions[..], vals[..], size, contents, hole, el);
      tree[hole] := el;
      vals[hole] := val;
      positions[tree[hole]] := hole;
    }

    function Contains(id: int): (r: bool)
      requires Valid() && 0 <= id < maxElems
      reads this, tree, positions, vals
      ensures r <==> id in contents
    {
      assert IdOk(tree[..], positions[..], size, 0, contents, id);
      positions[id] != NOT_PRESENT
    }

    method Push(id: int, value: real)
      requires Valid() && 0 <= id < maxElems && id !in contents && size < maxElems
      modifies this, tree, positions, vals
      ensures Valid() && contents == old(contents)[id := value]
    {
      Append(tree[..], positions[..], vals[..], size, contents, id, value);
      AppendClimbs(vals[..], size, Key(value));
      size := size + 1;
      tree[size] := id;
      positions[id] := size;
      vals[size] := Key(value);
      contents := contents[id := value];
      PercolateUp(size);
    }

    method Update(id: int, value: real)
      requires Valid() && 0 <= id < maxElems && id in contents
      modifies this, tree, positions, vals
      ensures Valid() && contents == old(contents)[id := value]
    {
      assert IdOk(tree[..], positions[..], size, 0, contents, id);
      var index := positions[id];
      var prev := vals[index];
      ghost var v0, m0 := vals[..], contents;
      TakeOut(tree[..], positions[..], v0, size, m0, index, value);
      FillWith(tree[..], positions[..], v0[index := Key(value)], size, m0[id := value], index, id);
      assert tree[..][index := id] == tree[..] && positions[..][id := index] == positions[..];
      vals[index] := Key(value);
      contents := contents[id := value];
      assert vals[..] == v0[index := Key(value)] && vals[..][index := Key(value)] == vals[..];
      if prev.Below(Key(value)) {
        StartSink(v0, size, index, Key(value));
        PercolateDown(index);
      } else if Key(value).Below(prev) {
        StartClimb(v0, size, index, Key(value));
        PercolateUp(index);
      } else {
        assert v0[index := Key(value)] == v0;
      }
    }

    /** Removes an id of least value. */
    method Poll() returns (id: int)
      requires Valid() && size > 0
      modifies this, tree, positions, vals
      ensures id in old(contents) && forall other :: other in old(contents) ==> old(contents)[id] <= old(contents)[other]
      ensures Valid() && contents == old(contents) - {id}
    {
      id := tree[1];
      RootHolds(id);
      DropRoot(tree[..], positions[..], vals[..], size, contents);
      DropSinks(vals[..], size);
      tree[1] := tree[size];
      vals[1] := vals[size];
      positions[tree[1]] := 1;
      positions[id] := NOT_PRESENT;
      size := size - 1;
      contents := contents - {id};
      if size > 0 {
        PercolateDown(1);
      }
    }

    method Clear()
      requires Valid()
      modifies this, positions
      ensures Valid() && contents == map[]
    {
      ghost var t, p, v, m := tree[..], positions[..], vals[..], contents;
      ghost var n := size;
      var i := 1;
      while i <= size
        invariant 1 <= i <= size + 1 && Shape() && tree[..] == t && vals[..] == v && size == n
        invariant |positions[..]| == |p| && forall id {:trigger positions[id]} :: 0 <= id < |p| ==>
                    positions[id] == if 1 <= p[id] < i then NOT_PRESENT else p[id]
      {
        assert SlotOk(t, p, v, m, NOT_PRESENT, i);
        forall id | 0 <= id < |p| && p[id] == i ensures id == tree[i] {
          assert IdOk(t, p, n, 0, m, id);
        }
        positions[tree[i]] := NOT_PRESENT;
        i := i + 1;
      }
      forall id | 0 <= id < |p| ensures positions[id] == NOT_PRESENT {
        assert IdOk(t, p, n, 0, m, id);
      }
      size, contents := 0, map[];
    }

    function PeekValue(): (r: real)
      requires Valid() && size > 0
      reads this, tree, positions, vals
      ensures forall id :: id in contents ==> r <= contents[id]
      ensures exists id :: id in contents && contents[id] == r
    {
      RootHolds(tree[1]);
      vals[1].value
    }

    lemma RootHolds(id: int)
      requires Valid() && size > 0 && id == tree[1]
      ensures id in contents && vals[1] == Key(contents[id])
      ensures forall other :: other in contents ==> contents[id] <= contents[other]
    {
      var t, p, v := tree[..], positions[..], vals[..];
      assert SlotOk(t, p, v, contents, NOT_PRESENT, 1);
      forall other | other in contents ensures contents[id] <= contents[other] {
        assert IdOk(t, p, size, 0, contents, other);
        assert SlotOk(t, p, v, contents, NOT_PRESENT, p[other]);
        RootIsLeast(v, size, p[other]);
      }
    }
  }
}
