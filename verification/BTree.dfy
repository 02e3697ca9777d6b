/** The B-tree that maps keys to values of a few bytes. */
module BTrees {
  import opened SortedLists
  import opened ByteCodecs

  /** A node. Its arrays have room for so many keys; a leaf has no children. */
  datatype BTreeEntry = BTreeEntry(keys: seq<int>, values: seq<Bytes>, children: seq<BTreeEntry>, isLeaf: bool, capacity: nat)

  /** The sizes of a tree: nodes hold up to maxLeafEntries keys, an odd number, and are split in
      the middle. */
  datatype Sizes = Sizes(maxLeafEntries: nat, splitIndex: nat, initLeafSize: nat, factor: real, bytesPerValue: nat) {
    predicate Valid() {
      maxLeafEntries == 2 * splitIndex + 1 && 1 <= initLeafSize <= maxLeafEntries && factor >= 1.0 && bytesPerValue >= 1
    }
  }

  ghost predicate IsValue(value: Bytes, n: nat) {
    |value| == n && forall j :: 0 <= j < n ==> 0 <= value[j] < 256
  }

  ghost predicate ValuesOk(values: seq<Bytes>, n: nat) {
    forall i {:trigger IsValue(values[i], n)} :: 0 <= i < |values| ==> IsValue(values[i], n)
  }

  /** The arrays have room for what is in them. */
  ghost predicate ArraysOk(n: BTreeEntry, z: Sizes) {
    |n.values| == |n.keys| <= n.capacity <= z.maxLeafEntries && ValuesOk(n.values, z.bytesPerValue)
  }

  ghost predicate ChildrenOk(cs: seq<BTreeEntry>, z: Sizes, height: nat) {
    forall i {:trigger NodeOk(cs[i], z, height)} :: 0 <= i < |cs| ==> NodeOk(cs[i], z, height)
  }

  /** All leaves are at the same depth, and nodes have one child more than keys. */
  ghost predicate NodeOk(n: BTreeEntry, z: Sizes, height: nat) {
    && ArraysOk(n, z)
    && if n.isLeaf then height == 1 && n.children == []
       else height > 1 && |n.children| == |n.keys| + 1 && ChildrenOk(n.children, z, height - 1)
  }

  ghost function Entries(n: BTreeEntry): seq<Entry<Bytes>> {
    seq(|n.keys|, i requires 0 <= i < |n.keys| => (n.keys[i], if i < |n.values| then n.values[i] else []))
  }

  /** The lists that the children stand for; those of a leaf are empty. */
  ghost function Lists(n: BTreeEntry): Parts<Bytes>
    decreases n, 0
  {
    seq(|n.keys| + 1, i requires 0 <= i <= |n.keys| => if i < |n.children| then Flat(n.children[i]) else [])
  }

  /** What a node stands for: its entries and those of its children in between. */
  ghost function Flat(n: BTreeEntry): seq<Entry<Bytes>>
    decreases n, 1
  {
    Woven(Lists(n), Entries(n))
  }

  // ----- finding a key among those of a node

  ghost predicate Ascending(keys: seq<int>) {
    forall i, j {:trigger keys[i], keys[j]} :: 0 <= i < j < |keys| ==> keys[i] < keys[j]
  }

  /** The key belongs before the key at the index and after those before it. */
  ghost predicate Between(keys: seq<int>, index: int, key: int) {
    && 0 <= index <= |keys|
    && (forall j {:trigger keys[j]} :: 0 <= j < index ==> keys[j] < key)
    && forall j {:trigger keys[j]} :: index <= j < |keys| ==> key < keys[j]
  }

  /** The index of the key, or the complement of the index where it belongs. */
  method BinarySearch(keys: seq<int>, key: int) returns (r: int)
    requires Ascending(keys)
    ensures r >= 0 ==> r < |keys| && keys[r] == key
    ensures r < 0 ==> Between(keys, -1 - r, key)
  {
    var high, low := |keys|, -1;
    while high - low > 1
      invariant -1 <= low < high <= |keys|
      invariant forall j :: 0 <= j <= low ==> keys[j] < key
      invariant forall j :: high <= j < |keys| ==> key <= keys[j]
    {
      var guess := (high + low) / 2;
      if keys[guess] < key {
        low := guess;
      } else {
        high := guess;
      }
    }
    if high == |keys| {
      return -1 - high;
    }
    if keys[high] == key {
      return high;
    }
    return -1 - high;
  }

  // ----- the order of the keys

  lemma ListAt(n: BTreeEntry, i: nat)
    requires i <= |n.keys|
    ensures Flat(n) == Before(Lists(n), Entries(n), i) + Lists(n)[i] + After(Lists(n), Entries(n), i)
  {
    WovenAt(Lists(n), Entries(n), i);
  }

  lemma KeysAscend(n: BTreeEntry)
    requires Sorted(Flat(n))
    ensures Ascending(n.keys)
  {
    forall i, j | 0 <= i < j < |n.keys| ensures n.keys[i] < n.keys[j] {
      EntriesAscend(Lists(n), Entries(n), i, j);
    }
  }

  /** All that comes before the child at the index is below the key, all after it above. */
  lemma AroundChild(n: BTreeEntry, index: nat, key: int)
    requires Sorted(Flat(n)) && Between(n.keys, index, key)
    ensures AllBelow(Before(Lists(n), Entries(n), index), key) && AllAbove(After(Lists(n), Entries(n), index), key)
    ensures Sorted(Lists(n)[index])
  {
    var ps, es := Lists(n), Entries(n);
    var b, a := Before(ps, es, index), After(ps, es, index);
    ListAt(n, index);
    SortedParts(b, ps[index], a);
    Neighbours(ps, es, index);
  }

  lemma FoundAt(n: BTreeEntry, index: nat)
    requires Sorted(Flat(n)) && index < |n.keys|
    ensures var l, r := Before(Lists(n), Entries(n), index) + Lists(n)[index], Lists(n)[index + 1] + After(Lists(n), Entries(n), index + 1);
            Flat(n) == l + [Entries(n)[index]] + r && AllBelow(l, n.keys[index]) && AllAbove(r, n.keys[index])
  {
    var ps, es := Lists(n), Entries(n);
    var l, r := Before(ps, es, index) + ps[index], ps[index + 1] + After(ps, es, index + 1);
    EntryAt(ps, es, index);
    SortedAround(l, es[index], r);
  }

  // ----- what is done to a node

  function MinOf(a: int, b: int): int { if a <= b then a else b }
  function MaxOf(a: int, b: int): int { if a >= b then a else b }

  /** The room in the arrays once so many keys have to fit. */
  function EnsuredSize(capacity: nat, size: nat, z: Sizes): int {
    if size <= capacity then capacity else MinOf(z.maxLeafEntries, MaxOf(size + 1, (size as real * z.factor).Floor))
  }

  function InsertAt<T>(s: seq<T>, index: int, x: T): seq<T>
    requires 0 <= index <= |s|
  {
    s[..index] + [x] + s[index..]
  }

  /** A node with room for another key. */
  ghost predicate HasRoom(n: BTreeEntry, z: Sizes) {
    z.Valid() && |n.values| == |n.keys| <= n.capacity <= z.maxLeafEntries && |n.keys| < z.maxLeafEntries
  }

  lemma RoomEnsured(n: BTreeEntry, z: Sizes)
    requires HasRoom(n, z)
    ensures |n.keys| + 1 <= EnsuredSize(n.capacity, |n.keys| + 1, z) <= z.maxLeafEntries
  {
  }

  function InsertKeyValue(n: BTreeEntry, index: int, key: int, value: Bytes, z: Sizes): BTreeEntry
    requires HasRoom(n, z) && 0 <= index <= |n.keys|
  {
    RoomEnsured(n, z);
    n.(keys := InsertAt(n.keys, index, key), values := InsertAt(n.values, index, value),
       capacity := EnsuredSize(n.capacity, |n.keys| + 1, z))
  }

  /** Takes the key and the two children of a tree in, the children in place of the one that was split. */
  function InsertTree(n: BTreeEntry, index: int, tree: BTreeEntry, z: Sizes): BTreeEntry
    requires HasRoom(n, z) && 0 <= index <= |n.keys| && |n.children| == |n.keys| + 1
    requires |tree.keys| == |tree.values| == 1 && |tree.children| == 2
  {
    InsertKeyValue(n, index, tree.keys[0], tree.values[0], z)
      .(children := n.children[..index] + tree.children + n.children[index + 1..])
  }

  function Piece(n: BTreeEntry, from: int, count: int, z: Sizes): BTreeEntry
    requires |n.values| == |n.keys| && 0 <= from && 0 <= count && from + count <= |n.keys| && (!n.isLeaf ==> |n.children| == |n.keys| + 1)
  {
    BTreeEntry(n.keys[from..from + count], n.values[from..from + count], if n.isLeaf then [] else n.children[from..from + count + 1],
               n.isLeaf, MaxOf(z.initLeafSize, count))
  }

  /** A full node becomes a tree: its middle key with the halves around it. */
  function SplitEntry(n: BTreeEntry, z: Sizes): BTreeEntry
    requires z.Valid() && |n.values| == |n.keys| == z.maxLeafEntries && (!n.isLeaf ==> |n.children| == |n.keys| + 1)
  {
    var s := z.splitIndex;
    BTreeEntry([n.keys[s]], [n.values[s]], [Piece(n, 0, s, z), Piece(n, s + 1, |n.keys| - s - 1, z)], false, 1)
  }

  // ----- what that means for the list

  ghost predicate Inserts(before: seq<Entry<Bytes>>, key: int, value: Bytes, after: seq<Entry<Bytes>>) {
    Lookup(before, key).None? && after == Insert(before, key, value)
  }

  /** Putting a key between its neighbours puts it into the list. */
  lemma AroundInsert(n: BTreeEntry, index: nat, key: int, value: Bytes)
    requires Sorted(Flat(n)) && Between(n.keys, index, key)
    ensures Before(Lists(n), Entries(n), index) + Insert(Lists(n)[index], key, value) + After(Lists(n), Entries(n), index) == Insert(Flat(n), key, value)
    ensures Lookup(Flat(n), key) == Lookup(Lists(n)[index], key)
  {
    AroundChild(n, index, key);
    ListAt(n, index);
    InsertMiddle(Before(Lists(n), Entries(n), index), Lists(n)[index], After(Lists(n), Entries(n), index), key, value);
  }

  lemma ValuesInserted(values: seq<Bytes>, index: int, value: Bytes, n: nat)
    requires ValuesOk(values, n) && IsValue(value, n) && 0 <= index <= |values|
    ensures ValuesOk(InsertAt(values, index, value), n)
  {
    var r := InsertAt(values, index, value);
    forall i | 0 <= i < |r| ensures IsValue(r[i], n) {
      assert i < index ==> IsValue(values[i], n);
      assert i > index ==> IsValue(values[i - 1], n);
    }
  }

  lemma LeafShape(n: BTreeEntry, z: Sizes, index: int, key: int, value: Bytes)
    requires NodeOk(n, z, 1) && HasRoom(n, z) && 0 <= index <= |n.keys| && IsValue(value, z.bytesPerValue)
    ensures NodeOk(InsertKeyValue(n, index, key, value, z), z, 1)
  {
    RoomEnsured(n, z);
    ValuesInserted(n.values, index, value, z.bytesPerValue);
  }

  lemma LeafLists(n: BTreeEntry, z: Sizes, index: int, key: int, value: Bytes)
    requires HasRoom(n, z) && n.children == [] && 0 <= index <= |n.keys|
    ensures Flat(InsertKeyValue(n, index, key, value, z)) == Before(Lists(n), Entries(n), index) + [(key, value)] + After(Lists(n), Entries(n), index)
  {
    ReplacePart(Lists(n), Entries(n), index, [], (key, value), []);
    LeafParts(n, z, index, key, value);
    assert [] + [(key, value)] + [] == [(key, value)];
  }

  lemma LeafParts(n: BTreeEntry, z: Sizes, index: int, key: int, value: Bytes)
    requires HasRoom(n, z) && n.children == [] && 0 <= index <= |n.keys|
    ensures Entries(InsertKeyValue(n, index, key, value, z)) == Entries(n)[..index] + [(key, value)] + Entries(n)[index..]
    ensures Lists(InsertKeyValue(n, index, key, value, z)) == Lists(n)[..index] + [[], []] + Lists(n)[index + 1..]
  {
    var ps, r := Lists(n), Lists(InsertKeyValue(n, index, key, value, z));
    var qs := ps[..index] + [[], []] + ps[index + 1..];
    forall i | 0 <= i < |qs| ensures r[i] == qs[i] {
      assert qs[i] == [];
    }
  }

  lemma LeafInserted(n: BTreeEntry, z: Sizes, index: int, key: int, value: Bytes)
    requires NodeOk(n, z, 1) && HasRoom(n, z) && Sorted(Flat(n)) && Between(n.keys, index, key) && IsValue(value, z.bytesPerValue)
    ensures NodeOk(InsertKeyValue(n, index, key, value, z), z, 1)
    ensures Inserts(Flat(n), key, value, Flat(InsertKeyValue(n, index, key, value, z)))
  {
    LeafShape(n, z, index, key, value);
    LeafLists(n, z, index, key, value);
    AroundInsert(n, index, key, value);
    assert Insert([], key, value) == [(key, value)];
  }

  lemma ChildShape(n: BTreeEntry, z: Sizes, height: nat, index: int, child: BTreeEntry)
    requires NodeOk(n, z, height) && !n.isLeaf && 0 <= index <= |n.keys| && NodeOk(child, z, height - 1)
    ensures NodeOk(n.(children := n.children[index := child]), z, height)
  {
    var r := n.(children := n.children[index := child]);
    forall i | 0 <= i < |r.children| ensures NodeOk(r.children[i], z, height - 1) {
      assert i != index ==> NodeOk(n.children[i], z, height - 1);
    }
  }

  lemma ChildLists(n: BTreeEntry, index: int, child: BTreeEntry)
    requires |n.children| == |n.keys| + 1 && 0 <= index <= |n.keys|
    ensures Flat(n.(children := n.children[index := child])) == Before(Lists(n), Entries(n), index) + Flat(child) + After(Lists(n), Entries(n), index)
  {
    var r, ps, es := n.(children := n.children[index := child]), Lists(n), Entries(n);
    UpdatePart(ps, es, index, Flat(child));
    assert Entries(r) == es;
    forall i | 0 <= i <= |n.keys| ensures Lists(r)[i] == ps[index := Flat(child)][i] {
    }
    assert Lists(r) == ps[index := Flat(child)];
  }

  /** A child that changed in place. */
  lemma ChildChanged(n: BTreeEntry, z: Sizes, height: nat, index: int, child: BTreeEntry, key: int, value: Bytes)
    requires NodeOk(n, z, height) && !n.isLeaf && Sorted(Flat(n)) && Between(n.keys, index, key)
    requires NodeOk(child, z, height - 1) && Flat(child) == Insert(Flat(n.children[index]), key, value)
    ensures NodeOk(n.(children := n.children[index := child]), z, height)
    ensures Flat(n.(children := n.children[index := child])) == Insert(Flat(n), key, value)
    ensures Lookup(Flat(n), key) == Lookup(Flat(n.children[index]), key)
  {
    ChildShape(n, z, height, index, child);
    ChildLists(n, index, child);
    AroundInsert(n, index, key, value);
  }

  lemma TreeFlat(tree: BTreeEntry)
    requires |tree.keys| == |tree.values| == 1 && |tree.children| == 2
    ensures Flat(tree) == Flat(tree.children[0]) + [(tree.keys[0], tree.values[0])] + Flat(tree.children[1])
  {
    var ps, es := Lists(tree), Entries(tree);
    assert After(ps, es, 1) == [];
    assert After(ps, es, 0) == [es[0]] + ps[1] + After(ps, es, 1);
  }

  lemma TreeTakenIn(n: BTreeEntry, z: Sizes, height: nat, index: int, tree: BTreeEntry)
    requires NodeOk(n, z, height) && !n.isLeaf && HasRoom(n, z) && 0 <= index <= |n.keys| && NodeOk(tree, z, height) && |tree.keys| == 1
    ensures NodeOk(InsertTree(n, index, tree, z), z, height)
  {
    var r := InsertTree(n, index, tree, z);
    RoomEnsured(n, z);
    assert IsValue(tree.values[0], z.bytesPerValue);
    ValuesInserted(n.values, index, tree.values[0], z.bytesPerValue);
    forall i | 0 <= i < |r.children| ensures NodeOk(r.children[i], z, height - 1) {
      if i < index {
        assert NodeOk(n.children[i], z, height - 1);
      } else if i < index + 2 {
        assert NodeOk(tree.children[i - index], z, height - 1);
      } else {
        assert NodeOk(n.children[i - 1], z, height - 1);
      }
    }
  }

  lemma TreeEntries(n: BTreeEntry, z: Sizes, index: int, tree: BTreeEntry)
    requires HasRoom(n, z) && 0 <= index <= |n.keys| && |n.children| == |n.keys| + 1
    requires |tree.keys| == |tree.values| == 1 && |tree.children| == 2
    ensures Entries(InsertTree(n, index, tree, z)) == Entries(n)[..index] + [(tree.keys[0], tree.values[0])] + Entries(n)[index..]
  {
  }

  lemma TreeParts(n: BTreeEntry, z: Sizes, index: int, tree: BTreeEntry)
    requires HasRoom(n, z) && 0 <= index <= |n.keys| && |n.children| == |n.keys| + 1
    requires |tree.keys| == |tree.values| == 1 && |tree.children| == 2
    ensures Lists(InsertTree(n, index, tree, z))
         == Lists(n)[..index] + [Flat(tree.children[0]), Flat(tree.children[1])] + Lists(n)[index + 1..]
  {
    var r := InsertTree(n, index, tree, z);
    var cs := r.children;
    var ps := Lists(n)[..index] + [Flat(tree.children[0]), Flat(tree.children[1])] + Lists(n)[index + 1..];
    assert |Lists(r)| == |ps| == |cs|;
    forall i | 0 <= i < |ps| ensures Lists(r)[i] == ps[i] {
      assert Lists(r)[i] == Flat(cs[i]);
      if i < index {
        assert cs[i] == n.children[i] && ps[i] == Lists(n)[i];
      } else if i < index + 2 {
        assert cs[i] == tree.children[i - index];
      } else {
        assert cs[i] == n.children[i - 1] && ps[i] == Lists(n)[i - 1];
      }
    }
  }

  lemma TreeLists(n: BTreeEntry, z: Sizes, index: int, tree: BTreeEntry)
    requires HasRoom(n, z) && 0 <= index <= |n.keys| && |n.children| == |n.keys| + 1
    requires |tree.keys| == |tree.values| == 1 && |tree.children| == 2
    ensures Flat(InsertTree(n, index, tree, z)) == Before(Lists(n), Entries(n), index) + Flat(tree) + After(Lists(n), Entries(n), index)
  {
    TreeFlat(tree);
    TreeEntries(n, z, index, tree);
    TreeParts(n, z, index, tree);
    ReplacePart(Lists(n), Entries(n), index, Flat(tree.children[0]), (tree.keys[0], tree.values[0]), Flat(tree.children[1]));
  }

  /** A child that was split. */
  lemma TreeInserted(n: BTreeEntry, z: Sizes, height: nat, index: int, tree: BTreeEntry, key: int, value: Bytes)
    requires NodeOk(n, z, height) && !n.isLeaf && HasRoom(n, z) && Sorted(Flat(n)) && Between(n.keys, index, key)
    requires NodeOk(tree, z, height) && |tree.keys| == 1 && Inserts(Flat(n.children[index]), key, value, Flat(tree))
    ensures NodeOk(InsertTree(n, index, tree, z), z, height) && Inserts(Flat(n), key, value, Flat(InsertTree(n, index, tree, z)))
  {
    TreeTakenIn(n, z, height, index, tree);
    TreeLists(n, z, index, tree);
    AroundInsert(n, index, key, value);
  }

  lemma PieceShape(n: BTreeEntry, z: Sizes, height: nat, from: nat, count: nat)
    requires NodeOk(n, z, height) && z.Valid() && from + count <= |n.keys|
    ensures NodeOk(Piece(n, from, count, z), z, height)
  {
    var p := Piece(n, from, count, z);
    forall i | 0 <= i < |p.values| ensures IsValue(p.values[i], z.bytesPerValue) {
      assert IsValue(n.values[from + i], z.bytesPerValue);
    }
    if !n.isLeaf {
      forall i | 0 <= i < |p.children| ensures NodeOk(p.children[i], z, height - 1) {
        assert NodeOk(n.children[from + i], z, height - 1);
      }
    }
  }

  lemma PieceParts(n: BTreeEntry, z: Sizes, from: nat, count: nat)
    requires |n.values| == |n.keys| && from + count <= |n.keys| && (if n.isLeaf then n.children == [] else |n.children| == |n.keys| + 1)
    ensures Lists(Piece(n, from, count, z)) == Lists(n)[from..from + count + 1]
    ensures Entries(Piece(n, from, count, z)) == Entries(n)[from..from + count]
  {
    var ps, qs := Lists(Piece(n, from, count, z)), Lists(n)[from..from + count + 1];
    forall i | 0 <= i <= count ensures ps[i] == qs[i] {
      assert qs[i] == Lists(n)[from + i];
    }
  }

  lemma PieceOk(n: BTreeEntry, z: Sizes, height: nat, from: nat, count: nat)
    requires NodeOk(n, z, height) && z.Valid() && from + count <= |n.keys|
    ensures NodeOk(Piece(n, from, count, z), z, height)
    ensures Flat(Piece(n, from, count, z)) == Woven(Lists(n)[from..from + count + 1], Entries(n)[from..from + count])
  {
    PieceShape(n, z, height, from, count);
    PieceParts(n, z, from, count);
  }

  lemma PairOk(key: int, value: Bytes, l: BTreeEntry, r: BTreeEntry, z: Sizes, height: nat)
    requires z.Valid() && IsValue(value, z.bytesPerValue) && NodeOk(l, z, height) && NodeOk(r, z, height)
    ensures NodeOk(BTreeEntry([key], [value], [l, r], false, 1), z, height + 1)
  {
    var t := BTreeEntry([key], [value], [l, r], false, 1);
    assert ArraysOk(t, z);
  }

  lemma SplitShape(n: BTreeEntry, z: Sizes, height: nat)
    requires NodeOk(n, z, height) && z.Valid() && |n.keys| == z.maxLeafEntries
    ensures var t := SplitEntry(n, z);
            && NodeOk(t, z, height + 1) && NodeOk(t.children[0], z, height) && NodeOk(t.children[1], z, height)
            && HasRoom(t.children[0], z) && HasRoom(t.children[1], z)
  {
    var t, s := SplitEntry(n, z), z.splitIndex;
    PieceOk(n, z, height, 0, s);
    PieceOk(n, z, height, s + 1, s);
    assert IsValue(n.values[s], z.bytesPerValue);
    PairOk(n.keys[s], n.values[s], t.children[0], t.children[1], z, height);
  }

  lemma LeftFlat(n: BTreeEntry, z: Sizes, height: nat)
    requires NodeOk(n, z, height) && z.Valid() && |n.keys| == z.maxLeafEntries
    ensures Flat(SplitEntry(n, z).children[0]) == Woven(Lists(n)[..z.splitIndex + 1], Entries(n)[..z.splitIndex])
  {
    var s, s' := z.splitIndex, z.splitIndex + 1;
    PieceOk(n, z, height, 0, s);
    assert Lists(n)[0..0 + s + 1] == Lists(n)[..s'] && Entries(n)[0..0 + s] == Entries(n)[..s];
  }

  lemma RightFlat(n: BTreeEntry, z: Sizes, height: nat)
    requires NodeOk(n, z, height) && z.Valid() && |n.keys| == z.maxLeafEntries
    ensures Flat(SplitEntry(n, z).children[1]) == Woven(Lists(n)[z.splitIndex + 1..], Entries(n)[z.splitIndex + 1..])
  {
    var s, s' := z.splitIndex, z.splitIndex + 1;
    PieceOk(n, z, height, s', s);
    assert Lists(n)[s'..s' + s + 1] == Lists(n)[s'..] && Entries(n)[s'..s' + s] == Entries(n)[s'..];
  }

  /** A split keeps the list, and the height of the halves. */
  lemma SplitOk(n: BTreeEntry, z: Sizes, height: nat)
    requires NodeOk(n, z, height) && z.Valid() && |n.keys| == z.maxLeafEntries
    ensures var t := SplitEntry(n, z);
            && NodeOk(t, z, height + 1) && Flat(t) == Flat(n)
            && HasRoom(t.children[0], z) && HasRoom(t.children[1], z)
  {
    SplitShape(n, z, height);
    LeftFlat(n, z, height);
    RightFlat(n, z, height);
    CutAt(Lists(n), Entries(n), z.splitIndex);
    TreeFlat(SplitEntry(n, z));
  }

  lemma ValueLists(n: BTreeEntry, index: nat, value: Bytes)
    requires |n.values| == |n.keys| && index < |n.keys|
    ensures var r, l, a := n.(values := n.values[index := value]), Before(Lists(n), Entries(n), index) + Lists(n)[index],
                           Lists(n)[index + 1] + After(Lists(n), Entries(n), index + 1);
            Flat(r) == l + [(n.keys[index], value)] + a
  {
    var r, ps, es := n.(values := n.values[index := value]), Lists(n), Entries(n);
    ValueEntries(n, index, value);
    EntryAt(ps, Entries(r), index);
    BeforeLocal(ps, es, ps, Entries(r), index);
    AfterLocal(ps, es, index + 1, ps, Entries(r), index + 1);
  }

  lemma ValueEntries(n: BTreeEntry, index: nat, value: Bytes)
    requires |n.values| == |n.keys| && index < |n.keys|
    ensures var r := n.(values := n.values[index := value]);
            Entries(r) == Entries(n)[index := (n.keys[index], value)] && Lists(r) == Lists(n)
  {
    var r := n.(values := n.values[index := value]);
    forall i | 0 <= i <= |n.keys| ensures Lists(r)[i] == Lists(n)[i] {
    }
  }

  /** An existing key gets the new value. */
  lemma ValueReplaced(n: BTreeEntry, z: Sizes, height: nat, index: nat, value: Bytes)
    requires NodeOk(n, z, height) && Sorted(Flat(n)) && index < |n.keys| && IsValue(value, z.bytesPerValue)
    ensures var r := n.(values := n.values[index := value]);
            && NodeOk(r, z, height) && Flat(r) == Insert(Flat(n), n.keys[index], value)
            && Lookup(Flat(n), n.keys[index]) == Some(n.values[index])
  {
    var ps, es, key := Lists(n), Entries(n), n.keys[index];
    var l, a := Before(ps, es, index) + ps[index], ps[index + 1] + After(ps, es, index + 1);
    ValueStays(n.values, index, value, z.bytesPerValue);
    FoundAt(n, index);
    ValueLists(n, index, value);
    InsertMiddle(l, [es[index]], a, key, value);
    assert Insert([es[index]], key, value) == [(key, value)];
  }

  lemma ValueFound(n: BTreeEntry, index: nat)
    requires |n.values| == |n.keys| && Sorted(Flat(n)) && index < |n.keys|
    ensures Lookup(Flat(n), n.keys[index]) == Some(n.values[index])
  {
    var ps, es, key := Lists(n), Entries(n), n.keys[index];
    FoundAt(n, index);
    InsertMiddle(Before(ps, es, index) + ps[index], [es[index]], ps[index + 1] + After(ps, es, index + 1), key, n.values[index]);
    assert Lookup([es[index]], key) == Some(n.values[index]);
  }

  lemma ValueStays(values: seq<Bytes>, index: nat, value: Bytes, n: nat)
    requires ValuesOk(values, n) && IsValue(value, n) && index < |values|
    ensures ValuesOk(values[index := value], n)
  {
    var r := values[index := value];
    forall i | 0 <= i < |r| ensures IsValue(r[i], n) {
      assert i != index ==> IsValue(values[i], n);
    }
  }

  // ----- putting and getting

  /** The node with another value for a key it had, or with a new key; or the tree it became. */
  datatype PutResult = Replaced(node: BTreeEntry, oldValue: Bytes) | Inserted(node: BTreeEntry) | Grown(tree: BTreeEntry)

  ghost predicate PutOk(r: PutResult, n: BTreeEntry, z: Sizes, height: nat, key: int, value: Bytes) {
    match r
    case Replaced(m, oldValue) => NodeOk(m, z, height) && IsValue(oldValue, z.bytesPerValue) && Lookup(Flat(n), key) == Some(oldValue) && Flat(m) == Insert(Flat(n), key, value)
    case Inserted(m) => NodeOk(m, z, height) && Inserts(Flat(n), key, value, Flat(m))
    case Grown(t) => NodeOk(t, z, height + 1) && |t.keys| == 1 && Inserts(Flat(n), key, value, Flat(t))
  }

  method PutEntry(n: BTreeEntry, z: Sizes, key: int, newValue: Bytes, ghost height: nat) returns (r: PutResult)
    requires z.Valid() && NodeOk(n, z, height) && Sorted(Flat(n)) && IsValue(newValue, z.bytesPerValue)
    ensures PutOk(r, n, z, height, key, newValue)
    decreases n
  {
    KeysAscend(n);
    var index := BinarySearch(n.keys, key);
    if index >= 0 {
      ValueReplaced(n, z, height, index, newValue);
      assert IsValue(n.values[index], z.bytesPerValue);
      return Replaced(n.(values := n.values[index := newValue]), n.values[index]);
    }
    index := -1 - index;
    if n.isLeaf {
      r := PutKey(n, z, index, key, newValue);
      return;
    }
    AroundChild(n, index, key);
    assert NodeOk(n.children[index], z, height - 1);
    var down := PutEntry(n.children[index], z, key, newValue, height - 1);
    match down
    case Replaced(child, oldValue) =>
      ChildChanged(n, z, height, index, child, key, newValue);
      r := Replaced(n.(children := n.children[index := child]), oldValue);
    case Inserted(child) =>
      ChildChanged(n, z, height, index, child, key, newValue);
      r := Inserted(n.(children := n.children[index := child]));
    case Grown(tree) =>
      r := PutTree(n, z, index, tree, key, newValue, height);
  }

  /** The half of a split node that a key belongs to. */
  lemma SplitSides(n: BTreeEntry, z: Sizes, height: nat, index: int, key: int)
    requires z.Valid() && NodeOk(n, z, height) && Sorted(Flat(n)) && |n.keys| == z.maxLeafEntries && Between(n.keys, index, key)
    ensures var t, s := SplitEntry(n, z), z.splitIndex;
            && Sorted(Flat(t)) && Sorted(Flat(t.children[0])) && Sorted(Flat(t.children[1]))
            && (index <= s ==> Between(t.keys, 0, key) && Between(t.children[0].keys, index, key))
            && (index > s ==> Between(t.keys, 1, key) && Between(t.children[1].keys, index - s - 1, key))
  {
    var t, s := SplitEntry(n, z), z.splitIndex;
    SplitOk(n, z, height);
    TreeFlat(t);
    var e := [(t.keys[0], t.values[0])];
    SortedParts(Flat(t.children[0]), e, Flat(t.children[1]));
    SplitPlaces(n, z, height, index, key);
  }

  lemma SplitPlaces(n: BTreeEntry, z: Sizes, height: nat, index: int, key: int)
    requires z.Valid() && NodeOk(n, z, height) && |n.keys| == z.maxLeafEntries && Between(n.keys, index, key)
    ensures var t, s := SplitEntry(n, z), z.splitIndex;
            && (index <= s ==> Between(t.keys, 0, key) && Between(t.children[0].keys, index, key))
            && (index > s ==> Between(t.keys, 1, key) && Between(t.children[1].keys, index - s - 1, key))
  {
    var t, s := SplitEntry(n, z), z.splitIndex;
    assert n.keys[s] == t.keys[0];
    assert forall i :: 0 <= i < s ==> t.children[0].keys[i] == n.keys[i];
    assert forall i :: 0 <= i < |t.children[1].keys| ==> t.children[1].keys[i] == n.keys[s + 1 + i];
  }

  /** A split node with the key in one of its halves. */
  lemma HalfChanged(n: BTreeEntry, z: Sizes, height: nat, index: int, half: BTreeEntry, key: int, value: Bytes)
    requires z.Valid() && NodeOk(n, z, height) && Sorted(Flat(n)) && |n.keys| == z.maxLeafEntries && Between(n.keys, index, key)
    requires NodeOk(half, z, height) && Inserts(Flat(SplitEntry(n, z).children[Side(index, z)]), key, value, Flat(half))
    ensures var t := SplitEntry(n, z); PutOk(Grown(t.(children := t.children[Side(index, z) := half])), n, z, height, key, value)
  {
    SplitOk(n, z, height);
    SplitSides(n, z, height, index, key);
    ChildChanged(SplitEntry(n, z), z, height + 1, Side(index, z), half, key, value);
  }

  /** The half that takes the key, and the index there. */
  function Side(index: int, z: Sizes): int {
    if index <= z.splitIndex then 0 else 1
  }

  function IndexInHalf(index: int, z: Sizes): int {
    if index <= z.splitIndex then index else index - z.splitIndex - 1
  }

  lemma HalfReady(n: BTreeEntry, z: Sizes, height: nat, index: int, key: int)
    requires z.Valid() && NodeOk(n, z, height) && Sorted(Flat(n)) && |n.keys| == z.maxLeafEntries && Between(n.keys, index, key)
    ensures var half := SplitEntry(n, z).children[Side(index, z)];
            && NodeOk(half, z, height) && HasRoom(half, z) && Sorted(Flat(half)) && half.isLeaf == n.isLeaf
            && Between(half.keys, IndexInHalf(index, z), key)
            && (!n.isLeaf ==> |half.children| == |half.keys| + 1 && half.children[IndexInHalf(index, z)] == n.children[index])
  {
    SplitShape(n, z, height);
    SplitSides(n, z, height, index, key);
  }

  method PutKey(n: BTreeEntry, z: Sizes, index: int, key: int, newValue: Bytes) returns (r: PutResult)
    requires z.Valid() && NodeOk(n, z, 1) && Sorted(Flat(n)) && Between(n.keys, index, key) && IsValue(newValue, z.bytesPerValue)
    ensures PutOk(r, n, z, 1, key, newValue)
  {
    if |n.keys| < z.maxLeafEntries {
      LeafInserted(n, z, index, key, newValue);
      return Inserted(InsertKeyValue(n, index, key, newValue, z));
    }
    var t, side := SplitEntry(n, z), Side(index, z);
    HalfReady(n, z, 1, index, key);
    LeafInserted(t.children[side], z, IndexInHalf(index, z), key, newValue);
    var half := InsertKeyValue(t.children[side], IndexInHalf(index, z), key, newValue, z);
    HalfChanged(n, z, 1, index, half, key, newValue);
    return Grown(t.(children := t.children[side := half]));
  }

  method PutTree(n: BTreeEntry, z: Sizes, index: int, tree: BTreeEntry, ghost key: int, ghost newValue: Bytes, ghost height: nat) returns (r: PutResult)
    requires z.Valid() && NodeOk(n, z, height) && !n.isLeaf && Sorted(Flat(n)) && Between(n.keys, index, key)
    requires NodeOk(tree, z, height) && |tree.keys| == 1 && Inserts(Flat(n.children[index]), key, newValue, Flat(tree))
    ensures PutOk(r, n, z, height, key, newValue)
  {
    if |n.keys| < z.maxLeafEntries {
      TreeInserted(n, z, height, index, tree, key, newValue);
      return Inserted(InsertTree(n, index, tree, z));
    }
    var t, side := SplitEntry(n, z), Side(index, z);
    HalfReady(n, z, height, index, key);
    TreeInserted(t.children[side], z, height, IndexInHalf(index, z), tree, key, newValue);
    var half := InsertTree(t.children[side], IndexInHalf(index, z), tree, z);
    HalfChanged(n, z, height, index, half, key, newValue);
    return Grown(t.(children := t.children[side := half]));
  }

  method GetEntry(n: BTreeEntry, z: Sizes, key: int, ghost height: nat) returns (r: Option<Bytes>)
    requires NodeOk(n, z, height) && Sorted(Flat(n))
    ensures r == Lookup(Flat(n), key) && (r.Some? ==> IsValue(r.value, z.bytesPerValue))
    decreases n
  {
    KeysAscend(n);
    var index := BinarySearch(n.keys, key);
    if index >= 0 {
      assert IsValue(n.values[index], z.bytesPerValue);
      ValueFound(n, index);
      return Some(n.values[index]);
    }
    index := -1 - index;
    AroundInsert(n, index, key, []);
    if n.isLeaf {
      return None;
    }
    AroundChild(n, index, key);
    assert NodeOk(n.children[index], z, height - 1);
    r := GetEntry(n.children[index], z, key, height - 1);
  }

  /** Gives back what room is not used. */
  function Compact(n: BTreeEntry): BTreeEntry {
    var m := if |n.keys| + 1 < n.capacity then n.(capacity := |n.keys|) else n;
    if n.isLeaf then m else
    m.(children := seq(|n.children|, i requires 0 <= i < |n.children| => Compact(n.children[i])))
  }

  lemma {:induction false} CompactOk(n: BTreeEntry, z: Sizes, height: nat)
    requires NodeOk(n, z, height)
    ensures NodeOk(Compact(n), z, height) && Flat(Compact(n)) == Flat(n)
    decreases n
  {
    var c := Compact(n);
    if !n.isLeaf {
      forall i | 0 <= i < |n.children| ensures NodeOk(c.children[i], z, height - 1) && Flat(c.children[i]) == Flat(n.children[i]) {
        assert NodeOk(n.children[i], z, height - 1);
        CompactOk(n.children[i], z, height - 1);
      }
    }
    assert Lists(c) == Lists(n);
    assert Entries(c) == Entries(n);
  }

  const OPTIMIZE_EVERY := 1000000
  const OPTIMIZE_FROM := 10000

  class GHLongLongBTree {
    const emptyValue: int
    const maxValue: int
    const sizes: Sizes
    var root: BTreeEntry
    var size: nat
    var height: nat

    /** The map that the tree stands for, as a list in the order of the keys. */
    ghost function Contents(): seq<Entry<Bytes>>
      reads this
    {
      Flat(root)
    }

    ghost predicate Valid()
      reads this
    {
      && sizes.Valid() && 2 * (maxValue + 1) == Pow256(sizes.bytesPerValue)
      && NodeOk(root, sizes, height) && Sorted(Contents()) && size == |Contents()|
    }

    constructor (maxLeafEntries: nat, bytesPerValue: nat, emptyValue: int)
      requires 1 <= bytesPerValue <= 8 && maxLeafEntries >= 1
      ensures Valid() && Contents() == [] && height == 1
      ensures this.emptyValue == emptyValue && sizes.bytesPerValue == bytesPerValue
    {
      var max := if maxLeafEntries % 2 == 0 then maxLeafEntries + 1 else maxLeafEntries;
      var z := Sizes(max, max / 2, if max < 10 then 1 else if max < 20 then 4 else max / 10, if max < 20 then 2.0 else 1.7, bytesPerValue);
      this.emptyValue, sizes, maxValue := emptyValue, z, Pow256(bytesPerValue) / 2 - 1;
      root, size, height := BTreeEntry([], [], [], true, z.initLeafSize), 0, 1;
      new;
      EvenPower(bytesPerValue);
      NothingFlat(root);
    }

    method Clear()
      requires Valid()
      modifies this
      ensures Valid() && Contents() == [] && height == 1
    {
      root, size, height := BTreeEntry([], [], [], true, sizes.initLeafSize), 0, 1;
      NothingFlat(root);
    }

    /** Gives the key the value, and returns the value it had, or the empty value. */
    method Put(key: int, value: int) returns (oldValue: int)
      requires Valid() && value <= maxValue && value != emptyValue
      modifies this
      ensures Valid() && Contents() == Insert(old(Contents()), key, FromLong(value, sizes.bytesPerValue))
      ensures oldValue == ValueOr(Lookup(old(Contents()), key), emptyValue)
      ensures size == old(size) + (if Lookup(old(Contents()), key).None? then 1 else 0)
    {
      var newValue := FromLongInto(value, sizes.bytesPerValue);
      InsertKeepsOrder(Contents(), key, newValue);
      var r := PutEntry(root, sizes, key, newValue, height);
      match r
      case Replaced(node, bytes) =>
        oldValue := ToLong(bytes);
        root := node;
      case Inserted(node) =>
        oldValue := emptyValue;
        root, size := node, size + 1;
        OptimizeNowAndThen();
      case Grown(tree) =>
        oldValue := emptyValue;
        root, size, height := tree, size + 1, height + 1;
        OptimizeNowAndThen();
    }

    method Get(key: int) returns (value: int)
      requires Valid()
      ensures value == ValueOr(Lookup(Contents(), key), emptyValue)
    {
      var r := GetEntry(root, sizes, key, height);
      match r
      case None => value := emptyValue;
      case Some(bytes) => value := ToLong(bytes);
    }

    method OptimizeNowAndThen()
      requires Valid()
      modifies this`root
      ensures Valid() && Contents() == old(Contents())
    {
      if size % OPTIMIZE_EVERY == 0 {
        Optimize();
      }
    }

    /** Gives unused room back, and changes nothing that can be observed. */
    method Optimize()
      requires Valid()
      modifies this`root
      ensures Valid() && Contents() == old(Contents())
    {
      if size > OPTIMIZE_FROM {
        CompactOk(root, sizes, height);
        root := Compact(root);
      }
    }
  }

  ghost function ValueOr(bytes: Option<Bytes>, emptyValue: int): int {
    match bytes
    case None => emptyValue
    case Some(b) => if b == [] then 0 else Signed(b)
  }

  lemma NothingFlat(n: BTreeEntry)
    requires n.keys == [] && n.children == []
    ensures Flat(n) == []
  {
    assert Lists(n) == [[]] && Entries(n) == [];
    assert After(Lists(n), Entries(n), 0) == [];
  }

  lemma EvenPower(n: nat)
    requires n > 0
    ensures Pow256(n) % 2 == 0
  {
    assert Pow256(n) == 256 * Pow256(n - 1);
  }

  /** A tree is a map: what was put last under a key is what is got, and other keys keep their
      values. Exactly the values that fit the bytes come back as they were, and those that are
      too small pass the check of Put all the same. */
  lemma PutThenGet(contents: seq<Entry<Bytes>>, key: int, value: int, n: nat, emptyValue: int, other: int)
    requires Sorted(contents) && n > 0
    ensures var after := Insert(contents, key, FromLong(value, n));
            && (ValueOr(Lookup(after, key), emptyValue) == value <==> Fits(value, n))
            && (other != key ==> Lookup(after, other) == Lookup(contents, other))
  {
    LookupInsert(contents, key, FromLong(value, n), key);
    LookupInsert(contents, key, FromLong(value, n), other);
    RoundTrip(value, n);
  }

  /** A value below the range of a byte: minus 200 comes back as 56. */
  lemma TooSmallIsAccepted()
    ensures -200 <= Pow256(1) / 2 - 1 && !Fits(-200, 1) && Signed(FromLong(-200, 1)) == 56
  {
    assert Pow256(1) == 256 && Pow256(0) == 1;
    var b := FromLong(-200, 1);
    assert b[0] == 56;
    assert b[..0] == [];
  }
}
