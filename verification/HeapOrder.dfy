/** Heap order of a one-based array of keys with a sentinel in slot 0, while an entry
    climbs or sinks through it leaving a hole. */
module HeapOrder {

  /** A heap key; MinusInf is the sentinel below all of them. */
  datatype Key = MinusInf | Key(value: real) {
    predicate Below(other: Key) {
      (MinusInf? && other.Key?) || (Key? && other.Key? && value < other.value)
    }

    predicate AtMost(other: Key) {
      MinusInf? || (other.Key? && value <= other.value)
    }
  }

  /** The parent of slot i is in order with it. */
  ghost predicate InOrder(v: seq<Key>, i: nat)
    requires i < |v|
  {
    v[i / 2].AtMost(v[i])
  }

  /** Heap order up to size, away from the hole and its children. */
  ghost predicate OrderedExcept(v: seq<Key>, size: nat, hole: nat) {
    && size < |v| && v[0] == MinusInf
    && (forall i {:trigger v[i]} :: 1 <= i <= size && i != hole ==> v[i].Key?)
    && (forall i {:trigger InOrder(v, i)} :: 2 <= i <= size && i != hole && i / 2 != hole ==> InOrder(v, i))
  }

  ghost predicate Ordered(v: seq<Key>, size: nat) {
    OrderedExcept(v, size, 0)
  }

  /** No child of the hole is lighter than val. */
  ghost predicate Tops(v: seq<Key>, size: nat, val: Key, hole: nat)
    requires size < |v|
  {
    && (2 * hole <= size ==> val.AtMost(v[2 * hole]))
    && (2 * hole + 1 <= size ==> val.AtMost(v[2 * hole + 1]))
  }

  /** Once val fits between its parent and its children, it fills the hole. */
  ghost predicate Climbing(v: seq<Key>, size: nat, hole: nat, val: Key) {
    && OrderedExcept(v, size, hole) && 1 <= hole <= size && val.Key?
    && Tops(v, size, val, hole) && (hole >= 2 ==> Tops(v, size, v[hole / 2], hole))
  }

  ghost predicate Sinking(v: seq<Key>, size: nat, hole: nat, val: Key) {
    && OrderedExcept(v, size, hole) && 1 <= hole <= size && val.Key?
    && (hole >= 2 ==> v[hole / 2].AtMost(val) && Tops(v, size, v[hole / 2], hole))
  }

  lemma ClimbStep(v: seq<Key>, size: nat, hole: nat, val: Key)
    requires Climbing(v, size, hole, val) && val.Below(v[hole / 2])
    ensures hole >= 2 && Climbing(v[hole := v[hole / 2]], size, hole / 2, val)
  {
    var p := hole / 2;
    var w := v[hole := v[p]];
    assert p >= 1;
    forall i | 2 <= i <= size && i != p && i / 2 != p ensures InOrder(w, i) {
      if i / 2 == hole {
        assert i == 2 * hole || i == 2 * hole + 1;
      } else {
        assert InOrder(v, i);
      }
    }
    assert InOrder(v, if hole == 2 * p then if 2 * p + 1 <= size then 2 * p + 1 else 0 else 2 * p);
    if p >= 2 {
      assert InOrder(v, p);
    }
  }

  lemma SinkStep(v: seq<Key>, size: nat, hole: nat, val: Key, child: nat)
    requires Sinking(v, size, hole, val) && child / 2 == hole && 2 <= child <= size
    requires !val.AtMost(v[child]) && Tops(v, size, v[child], hole)
    ensures Sinking(v[hole := v[child]], size, child, val)
  {
    var w := v[hole := v[child]];
    forall i | 2 <= i <= size && i != child && i / 2 != child ensures InOrder(w, i) {
      if i / 2 == hole {
        assert i == 2 * hole || i == 2 * hole + 1;
      } else if i == hole {
        assert child == 2 * hole || child == 2 * hole + 1;
      } else {
        assert InOrder(v, i);
      }
    }
    if 2 * child <= size {
      assert InOrder(v, 2 * child);
    }
    if 2 * child + 1 <= size {
      assert InOrder(v, 2 * child + 1);
    }
  }

  lemma FillHole(v: seq<Key>, size: nat, hole: nat, val: Key)
    requires OrderedExcept(v, size, hole) && 1 <= hole <= size && val.Key?
    requires v[hole / 2].AtMost(val) && Tops(v, size, val, hole)
    ensures Ordered(v[hole := val], size)
  {
    var w := v[hole := val];
    forall i | 2 <= i <= size ensures InOrder(w, i) {
      if i / 2 == hole {
        assert i == 2 * hole || i == 2 * hole + 1;
      } else if i != hole {
        assert InOrder(v, i);
      }
    }
  }

  /** A lighter key at index leaves only the way up to repair. */
  lemma StartClimb(v: seq<Key>, size: nat, index: nat, val: Key)
    requires Ordered(v, size) && 1 <= index <= size && val.Key? && val.AtMost(v[index])
    ensures Climbing(v[index := val], size, index, val)
  {
    OpenHole(v, size, index, val);
  }

  /** A heavier key at index leaves only the way down to repair. */
  lemma StartSink(v: seq<Key>, size: nat, index: nat, val: Key)
    requires Ordered(v, size) && 1 <= index <= size && val.Key? && v[index].AtMost(val)
    ensures Sinking(v[index := val], size, index, val)
  {
    OpenHole(v, size, index, val);
  }

  lemma OpenHole(v: seq<Key>, size: nat, index: nat, val: Key)
    requires Ordered(v, size) && 1 <= index <= size
    ensures OrderedExcept(v[index := val], size, index)
    ensures Tops(v, size, v[index], index) && v[index / 2].AtMost(v[index])
    ensures index >= 2 ==> Tops(v[index := val], size, v[index / 2], index)
  {
    forall i | 2 <= i <= size && i != index && i / 2 != index ensures InOrder(v[index := val], i) {
      assert InOrder(v, i);
    }
    if 2 * index <= size { assert InOrder(v, 2 * index); }
    if 2 * index + 1 <= size { assert InOrder(v, 2 * index + 1); }
    if index >= 2 { assert InOrder(v, index); }
  }

  lemma {:induction false} RootIsLeast(v: seq<Key>, size: nat, i: nat)
    requires Ordered(v, size) && 1 <= i <= size
    ensures v[1].AtMost(v[i])
  {
    if i >= 2 {
      RootIsLeast(v, size, i / 2);
      assert InOrder(v, i);
    }
  }

  /** A key appended after the last slot has only the way up to go. */
  lemma AppendClimbs(v: seq<Key>, size: nat, val: Key)
    requires Ordered(v, size) && size + 1 < |v| && val.Key?
    ensures Climbing(v[size + 1 := val], size + 1, size + 1, val)
  {
    var w := v[size + 1 := val];
    forall i | 2 <= i <= size ensures InOrder(w, i) {
      assert InOrder(v, i);
    }
  }

  /** The last key put in the root has only the way down to go. */
  lemma DropSinks(v: seq<Key>, size: nat)
    requires Ordered(v, size) && size >= 1
    ensures size >= 2 ==> Sinking(v[1 := v[size]], size - 1, 1, v[size])
    ensures size == 1 ==> Ordered(v[1 := v[size]], 0)
  {
    forall i | 2 <= i <= size && i / 2 != 1 ensures InOrder(v[1 := v[size]], i) {
      assert InOrder(v, i);
    }
  }
}
