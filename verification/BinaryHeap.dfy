/** The growing binary min-heap of the witness search. */
module BinaryHeaps {
  import opened HeapOrder

  const GROW_FACTOR := 2

  /** How often x occurs in slots 1 to n, not counting the hole. */
  ghost function Count(elements: seq<int>, keys: seq<Key>, n: nat, hole: nat, x: (int, Key)): nat
    requires n < |elements| && n < |keys|
  {
    if n == 0 then 0 else
      Count(elements, keys, n - 1, hole, x) + (if n != hole && (elements[n], keys[n]) == x then 1 else 0)
  }

  /** Slots 1 to n hold exactly the entries of m, not counting the hole. */
  ghost predicate Holds(elements: seq<int>, keys: seq<Key>, n: nat, hole: nat, m: multiset<(int, Key)>) {
    && n < |elements| && n < |keys|
    && forall x {:trigger Count(elements, keys, n, hole, x)} :: Count(elements, keys, n, hole, x) == m[x]
  }

  lemma {:induction false} CountLocal(e1: seq<int>, k1: seq<Key>, e2: seq<int>, k2: seq<Key>, n: nat, hole: nat, x: (int, Key))
    requires n < |e1| && n < |k1| && n < |e2| && n < |k2|
    requires forall i :: 1 <= i <= n && i != hole ==> e1[i] == e2[i] && k1[i] == k2[i]
    ensures Count(e1, k1, n, hole, x) == Count(e2, k2, n, hole, x)
  {
    if n > 0 {
      CountLocal(e1, k1, e2, k2, n - 1, hole, x);
    }
  }

  lemma {:induction false} CountSplit(elements: seq<int>, keys: seq<Key>, n: nat, hole: nat, x: (int, Key))
    requires n < |elements| && n < |keys| && 1 <= hole
    ensures Count(elements, keys, n, 0, x)
         == Count(elements, keys, n, hole, x) + (if hole <= n && (elements[hole], keys[hole]) == x then 1 else 0)
  {
    if n > 0 {
      CountSplit(elements, keys, n - 1, hole, x);
    }
  }

  /** Taking the entry of a slot out leaves a hole. */
  lemma TakeOut(elements: seq<int>, keys: seq<Key>, n: nat, hole: nat, m: multiset<(int, Key)>)
    requires Holds(elements, keys, n, 0, m) && 1 <= hole <= n
    ensures (elements[hole], keys[hole]) in m
    ensures Holds(elements, keys, n, hole, m - multiset{(elements[hole], keys[hole])})
  {
    var h := (elements[hole], keys[hole]);
    CountSplit(elements, keys, n, hole, h);
    assert m[h] >= 1;
    forall x ensures Count(elements, keys, n, hole, x) == (m - multiset{h})[x] {
      CountSplit(elements, keys, n, hole, x);
    }
  }

  /** Filling the hole adds exactly the entry that fills it. */
  lemma FillSlot(elements: seq<int>, keys: seq<Key>, n: nat, hole: nat, m: multiset<(int, Key)>, e: int, k: Key)
    requires Holds(elements, keys, n, hole, m) && 1 <= hole <= n
    ensures Holds(elements[hole := e], keys[hole := k], n, 0, m + multiset{(e, k)})
  {
    var e', k' := elements[hole := e], keys[hole := k];
    forall x ensures Count(e', k', n, 0, x) == (m + multiset{(e, k)})[x] {
      CountSplit(e', k', n, hole, x);
      CountLocal(e', k', elements, keys, n, hole, x);
    }
  }

  /** Moving an entry into the hole leaves a hole where it was and the same entries. */
  lemma MoveSlot(elements: seq<int>, keys: seq<Key>, n: nat, hole: nat, m: multiset<(int, Key)>, src: nat)
    requires Holds(elements, keys, n, hole, m) && 1 <= hole <= n && 1 <= src <= n && hole != src
    ensures Holds(elements[hole := elements[src]], keys[hole := keys[src]], n, src, m)
  {
    var e', k' := elements[hole := elements[src]], keys[hole := keys[src]];
    forall x ensures Count(e', k', n, src, x) == m[x] {
      CountSplit(e', k', n, hole, x);
      CountSplit(e', k', n, src, x);
      CountLocal(e', k', elements, keys, n, hole, x);
    }
  }

  lemma SameSlots(e1: seq<int>, k1: seq<Key>, e2: seq<int>, k2: seq<Key>, n: nat, m: multiset<(int, Key)>)
    requires Holds(e1, k1, n, 0, m) && n < |e2| && n < |k2|
    requires forall i :: 1 <= i <= n ==> e1[i] == e2[i] && k1[i] == k2[i]
    ensures Holds(e2, k2, n, 0, m)
  {
    forall x ensures Count(e2, k2, n, 0, x) == m[x] {
      CountLocal(e1, k1, e2, k2, n, 0, x);
    }
  }

  /** A slot after the last one is a hole to begin with. */
  lemma OpenSlot(elements: seq<int>, keys: seq<Key>, n: nat, m: multiset<(int, Key)>)
    requires Holds(elements, keys, n, 0, m) && n + 1 < |elements| && n + 1 < |keys|
    ensures Holds(elements, keys, n + 1, n + 1, m)
  {
    var n' := n + 1;
    forall x ensures Count(elements, keys, n', n', x) == m[x] {
      CountSplit(elements, keys, n, n', x);
    }
  }

  lemma CloseSlot(elements: seq<int>, keys: seq<Key>, n: nat, m: multiset<(int, Key)>)
    requires n >= 1 && Holds(elements, keys, n, n, m)
    ensures Holds(elements, keys, n - 1, 0, m)
  {
    var n' := n - 1;
    forall x ensures Count(elements, keys, n', 0, x) == m[x] {
      CountSplit(elements, keys, n', n, x);
      assert Count(elements, keys, n, n, x) == m[x];
    }
  }

  lemma {:induction false} Occurs(elements: seq<int>, keys: seq<Key>, n: nat, x: (int, Key)) returns (i: nat)
    requires n < |elements| && n < |keys| && Count(elements, keys, n, 0, x) > 0
    ensures 1 <= i <= n && elements[i] == x.0 && keys[i] == x.1
  {
    if x == (elements[n], keys[n]) {
      i := n;
    } else {
      i := Occurs(elements, keys, n - 1, x);
    }
  }

  lemma Member(elements: seq<int>, keys: seq<Key>, n: nat, m: multiset<(int, Key)>, x: (int, Key)) returns (i: nat)
    requires Holds(elements, keys, n, 0, m) && x in m
    ensures 1 <= i <= n && elements[i] == x.0 && keys[i] == x.1
  {
    i := Occurs(elements, keys, n, x);
  }

  lemma NothingHeld(elements: seq<int>, keys: seq<Key>, m: multiset<(int, Key)>)
    requires Holds(elements, keys, 0, 0, m)
    ensures m == multiset{}
  {
    forall x ensures m[x] == 0 {
      assert Count(elements, keys, 0, 0, x) == m[x];
    }
  }

  lemma RootIsMinimum(elements: seq<int>, keys: seq<Key>, n: nat, m: multiset<(int, Key)>)
    requires Holds(elements, keys, n, 0, m) && Ordered(keys, n) && n > 0
    ensures keys[1].Key? && (elements[1], keys[1]) in m
    ensures forall x :: x in m ==> keys[1].AtMost(x.1)
  {
    TakeOut(elements, keys, n, 1, m);
    forall x | x in m ensures keys[1].AtMost(x.1) {
      var i := Member(elements, keys, n, m, x);
      RootIsLeast(keys, n, i);
    }
  }

  /** The last entry takes the place of the root, and the root is gone. */
  lemma DropRoot(elements: seq<int>, keys: seq<Key>, n: nat, m: multiset<(int, Key)>)
    requires Holds(elements, keys, n, 0, m) && n >= 1
    ensures Holds(elements[1 := elements[n]], keys[1 := keys[n]], n - 1, 0, m - multiset{(elements[1], keys[1])})
  {
    TakeOut(elements, keys, n, 1, m);
    var rest := m - multiset{(elements[1], keys[1])};
    var e', k' := elements[1 := elements[n]], keys[1 := keys[n]];
    if n == 1 {
      assert e' == elements && k' == keys;
    } else {
      MoveSlot(elements, keys, n, 1, rest, n);
    }
    CloseSlot(e', k', n, rest);
  }

  lemma Appended(elements: seq<int>, keys: seq<Key>, size: nat, m: multiset<(int, Key)>, e: int, k: Key)
    requires Ordered(keys, size) && Holds(elements, keys, size, 0, m) && size + 1 < |elements| && size + 1 < |keys| && k.Key?
    ensures Climbing(keys[size + 1 := k], size + 1, size + 1, k)
    ensures Holds(elements[size + 1 := e], keys[size + 1 := k], size + 1, 0, m + multiset{(e, k)})
  {
    AppendClimbs(keys, size, k);
    OpenSlot(elements, keys, size, m);
    FillSlot(elements, keys, size + 1, size + 1, m, e, k);
  }

  class IntFloatBinaryHeap {
    var size: nat
    var elements: array<int>
    var keys: array<Key>
    ghost var contents: multiset<(int, Key)>  // the elements with their keys

    ghost predicate Shape()
      reads this
    {
      elements.Length == keys.Length && size < elements.Length
    }

    ghost predicate Valid()
      reads this, elements, keys
    {
      Shape() && Ordered(keys[..], size) && Holds(elements[..], keys[..], size, 0, contents)
    }

    constructor (initialCapacity: nat)
      ensures Valid() && contents == multiset{} && fresh(elements) && fresh(keys)
    {
      elements := new int[initialCapacity + 1];
      keys := new Key[initialCapacity + 1](_ => MinusInf);
      size, contents := 0, multiset{};
    }

    method SetSlot(i: nat, element: int, key: Key)
      requires Shape() && i <= size
      modifies elements, keys
      ensures elements[..] == old(elements[..])[i := element] && keys[..] == old(keys[..])[i := key]
    {
      elements[i] := element;
      keys[i] := key;
    }

    /** Moves the entry at index up to its place. The sentinel in slot 0 ends the climb. */
    method PercolateUpMinHeap(index: int)
      requires Shape() && 1 <= index <= size && Climbing(keys[..], size, index, keys[index])
      requires Holds(elements[..], keys[..], size, 0, contents)
      modifies elements, keys
      ensures Valid()
    {
      var hole := index;
      var element, key := elements[hole], keys[hole];
      TakeOut(elements[..], keys[..], size, hole, contents);
      ghost var rest := contents - multiset{(element, key)};
      assert contents == rest + multiset{(element, key)};
      while key.Below(keys[hole / 2])
        invariant Shape() && Climbing(keys[..], size, hole, key)
        invariant Holds(elements[..], keys[..], size, hole, rest)
        decreases hole
      {
        var parent := hole / 2;
        ClimbStep(keys[..], size, hole, key);
        MoveSlot(elements[..], keys[..], size, hole, rest, parent);
        SetSlot(hole, elements[parent], keys[parent]);
        hole := parent;
      }
      FillHole(keys[..], size, hole, key);
      FillSlot(elements[..], keys[..], size, hole, rest, element, key);
      SetSlot(hole, element, key);
    }

    /** Moves the entry at index down to its place. */
    method PercolateDownMinHeap(index: int)
      requires Shape() && 1 <= index <= size && Sinking(keys[..], size, index, keys[index])
      requires Holds(elements[..], keys[..], size, 0, contents)
      modifies elements, keys
      ensures Valid()
    {
      var element, key := elements[index], keys[index];
      var hole := index;
      TakeOut(elements[..], keys[..], size, hole, contents);
      ghost var rest := contents - multiset{(element, key)};
      assert contents == rest + multiset{(element, key)};
      while hole * 2 <= size
        invariant Shape() && Sinking(keys[..], size, hole, key)
        invariant Holds(elements[..], keys[..], size, hole, rest)
        decreases size - hole
      {
        var child := hole * 2;
        if child != size && keys[child + 1].Below(keys[child]) {
          child := child + 1;
        }
        assert Tops(keys[..], size, keys[child], hole);
        if key.AtMost(keys[child]) {
          break;
        }
        SinkStep(keys[..], size, hole, key, child);
        MoveSlot(elements[..], keys[..], size, hole, rest, child);
        SetSlot(hole, elements[child], keys[child]);
        hole := child;
      }
      assert Tops(keys[..], size, key, hole);
      FillHole(keys[..], size, hole, key);
      FillSlot(elements[..], keys[..], size, hole, rest, element, key);
      SetSlot(hole, element, key);
    }

    method EnsureCapacity(capacity: nat)
      requires Valid() && capacity >= elements.Length
      modifies this`elements, this`keys
      ensures Valid() && elements.Length == capacity + 1
      ensures fresh(elements) && fresh(keys)
    {
      ghost var e0, k0 := elements[..], keys[..];
      var newElements := new int[capacity + 1];
      var newKeys := new Key[capacity + 1](_ => MinusInf);
      forall i | 0 <= i < elements.Length {
        newElements[i] := elements[i];
      }
      forall i | 0 <= i < keys.Length {
        newKeys[i] := keys[i];
      }
      SameOrder(k0, newKeys[..], size);
      SameSlots(e0, k0, newElements[..], newKeys[..], size, contents);
      elements, keys := newElements, newKeys;
    }

    method Insert(key: real, element: int)
      requires Valid()
      modifies this, elements, keys
      ensures Valid() && contents == old(contents) + multiset{(element, Key(key))}
      ensures elements == old(elements) || fresh(elements)
      ensures keys == old(keys) || fresh(keys)
    {
      if elements.Length == size + 1 {
        EnsureCapacity(elements.Length * GROW_FACTOR);
      }
      Appended(elements[..], keys[..], size, contents, element, Key(key));
      size := size + 1;
      SetSlot(size, element, Key(key));
      contents := contents + multiset{(element, Key(key))};
      PercolateUpMinHeap(size);
    }

    /** Gives the first entry of the element a new key; does nothing when there is none. */
    method Update(key: real, element: int) returns (ghost previous: Key)
      requires Valid()
      modifies this`contents, elements, keys
      ensures Valid()
      ensures if exists k :: (element, k) in old(contents)
              then (element, previous) in old(contents)
                && contents == old(contents) - multiset{(element, previous)} + multiset{(element, Key(key))}
              else contents == old(contents)
    {
      previous := MinusInf;
      var i := 1;
      while i <= size && elements[i] != element
        invariant 1 <= i <= size + 1
        invariant forall j :: 1 <= j < i ==> elements[j] != element
      {
        i := i + 1;
      }
      if i > size {
        forall k | (element, k) in contents ensures false {
          var j := Member(elements[..], keys[..], size, contents, (element, k));
        }
        return;
      }
      var oldKey := keys[i];
      previous := oldKey;
      TakeOut(elements[..], keys[..], size, i, contents);
      FillSlot(elements[..], keys[..], size, i, contents - multiset{(element, oldKey)}, element, Key(key));
      ghost var v0 := keys[..];
      SetSlot(i, element, Key(key));
      contents := contents - multiset{(element, previous)} + multiset{(element, Key(key))};
      if oldKey.Below(Key(key)) {
        StartSink(v0, size, i, Key(key));
        PercolateDownMinHeap(i);
      } else {
        StartClimb(v0, size, i, Key(key));
        PercolateUpMinHeap(i);
      }
    }

    method PeekKey() returns (key: real)
      requires Valid() && size > 0
      ensures (elements[1], Key(key)) in contents
      ensures forall x :: x in contents ==> Key(key).AtMost(x.1)
    {
      RootIsMinimum(elements[..], keys[..], size, contents);
      key := keys[1].value;
    }

    /** Removes an entry of least key. */
    method Poll() returns (result: int)
      requires Valid() && size > 0
      modifies this, elements, keys
      ensures Valid() && exists k: Key ::
                && (result, k) in old(contents) && contents == old(contents) - multiset{(result, k)}
                && forall x :: x in old(contents) ==> k.AtMost(x.1)
      ensures elements == old(elements) && keys == old(keys) && size == old(size) - 1
    {
      result := elements[1];
      RootIsMinimum(elements[..], keys[..], size, contents);
      ghost var k := keys[1];
      DropRoot(elements[..], keys[..], size, contents);
      DropSinks(keys[..], size);
      SetSlot(1, elements[size], keys[size]);
      size := size - 1;
      contents := contents - multiset{(result, k)};
      if size != 0 {
        PercolateDownMinHeap(1);
      }
    }

    method Clear()
      requires Valid()
      modifies this`size, this`contents
      ensures Valid() && contents == multiset{}
    {
      size, contents := 0, multiset{};
    }
  }

  lemma SameOrder(v: seq<Key>, w: seq<Key>, size: nat)
    requires Ordered(v, size) && |v| <= |w| && forall i :: 0 <= i < |v| ==> w[i] == v[i]
    ensures Ordered(w, size)
  {
    forall i | 2 <= i <= size ensures InOrder(w, i) {
      assert InOrder(v, i);
    }
  }
}
