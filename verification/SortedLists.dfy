/** Lists of entries in ascending order of their keys: what a B-tree node stands for. */
module SortedLists {

  type Entry<V> = (int, V)

  ghost predicate Sorted<V>(s: seq<Entry<V>>) {
    forall i, j {:trigger s[i], s[j]} :: 0 <= i < j < |s| ==> s[i].0 < s[j].0
  }

  ghost predicate AllBelow<V>(s: seq<Entry<V>>, k: int) {
    forall i {:trigger s[i]} :: 0 <= i < |s| ==> s[i].0 < k
  }

  ghost predicate AllAbove<V>(s: seq<Entry<V>>, k: int) {
    forall i {:trigger s[i]} :: 0 <= i < |s| ==> s[i].0 > k
  }

  datatype Option<V> = None | Some(value: V)

  /** The value of a key. */
  ghost function Lookup<V>(s: seq<Entry<V>>, k: int): Option<V> {
    if s == [] then None else if s[0].0 == k then Some(s[0].1) else Lookup(s[1..], k)
  }

  /** The list in which the key has the value, in its place. */
  ghost function Insert<V>(s: seq<Entry<V>>, k: int, v: V): seq<Entry<V>> {
    if s == [] || k < s[0].0 then [(k, v)] + s
    else if s[0].0 == k then [(k, v)] + s[1..]
    else [s[0]] + Insert(s[1..], k, v)
  }

  lemma {:induction false} InsertKeepsOrder<V>(s: seq<Entry<V>>, k: int, v: V)
    requires Sorted(s)
    ensures Sorted(Insert(s, k, v)) && |Insert(s, k, v)| == |s| + (if Lookup(s, k).None? then 1 else 0)
    ensures forall b :: AllAbove(s, b) && k > b ==> AllAbove(Insert(s, k, v), b)
  {
    if s != [] {
      var r := s[1..];
      InsertKeepsOrder(r, k, v);
      if k < s[0].0 {
        NotListed(s, k);
      } else if s[0].0 < k {
        assert AllAbove(r, s[0].0);
        assert AllAbove(Insert(r, k, v), s[0].0);
        forall b | AllAbove(s, b) && k > b ensures AllAbove(Insert(s, k, v), b) {
          assert s[0].0 > b;
          assert AllAbove(r, b) by {
            assert forall i :: 0 <= i < |r| ==> r[i] == s[i + 1];
          }
        }
      }
    }
  }

  lemma {:induction false} NotListed<V>(s: seq<Entry<V>>, k: int)
    requires AllAbove(s, k) || AllBelow(s, k) || (Sorted(s) && s != [] && k < s[0].0)
    ensures Lookup(s, k).None?
  {
    if s != [] {
      if !AllBelow(s, k) {
        assert AllAbove(s[1..], k);
      }
      NotListed(s[1..], k);
    }
  }

  /** A list is a map from keys to values: inserting changes the value of one key. */
  lemma {:induction false} LookupInsert<V>(s: seq<Entry<V>>, k: int, v: V, k': int)
    requires Sorted(s)
    ensures Lookup(Insert(s, k, v), k') == if k' == k then Some(v) else Lookup(s, k')
  {
    var r := Insert(s, k, v);
    if s != [] && s[0].0 < k {
      LookupInsert(s[1..], k, v, k');
      assert r[1..] == Insert(s[1..], k, v);
    } else if s != [] && s[0].0 == k {
      assert r[1..] == s[1..];
    } else {
      assert r[1..] == s;
    }
  }

  /** Between smaller and greater keys, only the middle part of a list matters. */
  lemma {:induction false} InsertMiddle<V>(l: seq<Entry<V>>, m: seq<Entry<V>>, r: seq<Entry<V>>, k: int, v: V)
    requires AllBelow(l, k) && AllAbove(r, k)
    ensures Insert(l + m + r, k, v) == l + Insert(m, k, v) + r
    ensures Lookup(l + m + r, k) == Lookup(m, k)
    decreases |l|
  {
    if l != [] {
      var s := l + m + r;
      assert s[0] == l[0] && s[1..] == l[1..] + m + r;
      InsertMiddle(l[1..], m, r, k, v);
    } else {
      assert l + m + r == m + r;
      InsertBefore(m, r, k, v);
    }
  }

  lemma {:induction false} InsertBefore<V>(m: seq<Entry<V>>, r: seq<Entry<V>>, k: int, v: V)
    requires AllAbove(r, k)
    ensures Insert(m + r, k, v) == Insert(m, k, v) + r && Lookup(m + r, k) == Lookup(m, k)
    decreases |m|
  {
    if m == [] {
      assert m + r == r;
      NotListed(r, k);
    } else {
      assert (m + r)[0] == m[0] && (m + r)[1..] == m[1..] + r;
      InsertBefore(m[1..], r, k, v);
    }
  }

  lemma SortedParts<V>(l: seq<Entry<V>>, m: seq<Entry<V>>, r: seq<Entry<V>>)
    requires Sorted(l + m + r)
    ensures Sorted(l) && Sorted(m) && Sorted(r)
  {
    var s := l + m + r;
    assert forall i :: 0 <= i < |l| ==> l[i] == s[i];
    assert forall i :: 0 <= i < |m| ==> m[i] == s[|l| + i];
    assert forall i :: 0 <= i < |r| ==> r[i] == s[|l| + |m| + i];
  }

  lemma SortedEnds<V>(l: seq<Entry<V>>, m: seq<Entry<V>>, r: seq<Entry<V>>)
    requires Sorted(l + m + r) && l != [] && r != []
    ensures l[|l| - 1].0 < r[0].0
  {
    var s := l + m + r;
    assert s[|l| - 1] == l[|l| - 1] && s[|l| + |m|] == r[0];
  }

  lemma SortedAround<V>(l: seq<Entry<V>>, e: Entry<V>, r: seq<Entry<V>>)
    requires Sorted(l + [e] + r)
    ensures AllBelow(l, e.0) && AllAbove(r, e.0)
  {
    var s := l + [e] + r;
    assert s[|l|] == e;
    forall i | 0 <= i < |l| ensures l[i].0 < e.0 {
      assert s[i] == l[i];
    }
    forall i | 0 <= i < |r| ensures r[i].0 > e.0 {
      assert s[|l| + 1 + i] == r[i];
    }
  }

  // ----- lists woven from parts and the entries between them

  type Parts<V> = seq<seq<Entry<V>>>

  /** The parts before part i, each with the entry after it. */
  ghost function Before<V>(ps: Parts<V>, es: seq<Entry<V>>, i: nat): seq<Entry<V>>
    requires i <= |ps| && i <= |es|
  {
    if i == 0 then [] else Before(ps, es, i - 1) + ps[i - 1] + [es[i - 1]]
  }

  /** The entries after part i, each with the part after it. */
  ghost function After<V>(ps: Parts<V>, es: seq<Entry<V>>, i: nat): seq<Entry<V>>
    requires |ps| == |es| + 1 && i <= |es|
    decreases |es| - i
  {
    if i == |es| then [] else [es[i]] + ps[i + 1] + After(ps, es, i + 1)
  }

  ghost function Woven<V>(ps: Parts<V>, es: seq<Entry<V>>): seq<Entry<V>>
    requires |ps| == |es| + 1
  {
    ps[0] + After(ps, es, 0)
  }

  lemma Neighbours<V>(ps: Parts<V>, es: seq<Entry<V>>, i: nat)
    requires |ps| == |es| + 1 && i <= |es|
    ensures i > 0 ==> Before(ps, es, i) != [] && Before(ps, es, i)[|Before(ps, es, i)| - 1] == es[i - 1]
    ensures i < |es| ==> After(ps, es, i) != [] && After(ps, es, i)[0] == es[i]
  {
  }

  lemma {:induction false} WovenAt<V>(ps: Parts<V>, es: seq<Entry<V>>, i: nat)
    requires |ps| == |es| + 1 && i <= |es|
    ensures Woven(ps, es) == Before(ps, es, i) + ps[i] + After(ps, es, i)
  {
    if i > 0 {
      WovenAt(ps, es, i - 1);
    }
  }

  lemma {:induction false} BeforeLocal<V>(ps: Parts<V>, es: seq<Entry<V>>, ps': Parts<V>, es': seq<Entry<V>>, i: nat)
    requires i <= |ps| && i <= |es| && i <= |ps'| && i <= |es'| && ps[..i] == ps'[..i] && es[..i] == es'[..i]
    ensures Before(ps, es, i) == Before(ps', es', i)
  {
    if i > 0 {
      var j := i - 1;
      assert ps[..i][..j] == ps[..j] && ps'[..i][..j] == ps'[..j] && es[..i][..j] == es[..j] && es'[..i][..j] == es'[..j];
      assert ps[..i][j] == ps'[..i][j] && es[..i][j] == es'[..i][j];
      BeforeLocal(ps, es, ps', es', j);
    }
  }

  /** After part i of one list comes what comes after part j of the other. */
  lemma {:induction false} AfterLocal<V>(ps: Parts<V>, es: seq<Entry<V>>, i: nat, ps': Parts<V>, es': seq<Entry<V>>, j: nat)
    requires |ps| == |es| + 1 && |ps'| == |es'| + 1 && i <= |es| && j <= |es'| && ps[i + 1..] == ps'[j + 1..] && es[i..] == es'[j..]
    ensures After(ps, es, i) == After(ps', es', j)
    decreases |es| - i
  {
    if i < |es| {
      assert es[i..][0] == es'[j..][0] && ps[i + 1..][0] == ps'[j + 1..][0];
      assert es[i..][1..] == es[i + 1..] && es'[j..][1..] == es'[j + 1..];
      assert ps[i + 1..][1..] == ps[i + 2..] && ps'[j + 1..][1..] == ps'[j + 2..];
      AfterLocal(ps, es, i + 1, ps', es', j + 1);
    }
  }

  /** Replacing a part by two parts and an entry between them replaces it in the list. */
  lemma ReplacePart<V>(ps: Parts<V>, es: seq<Entry<V>>, i: nat, l: seq<Entry<V>>, e: Entry<V>, r: seq<Entry<V>>)
    requires |ps| == |es| + 1 && i <= |es|
    ensures Woven(ps[..i] + [l, r] + ps[i + 1..], es[..i] + [e] + es[i..]) == Before(ps, es, i) + (l + [e] + r) + After(ps, es, i)
  {
    var ps', es' := ps[..i] + [l, r] + ps[i + 1..], es[..i] + [e] + es[i..];
    var i' := i + 1;
    WovenAt(ps', es', i);
    BeforeLocal(ps, es, ps', es', i);
    assert ps'[i' + 1..] == ps[i + 1..] && es'[i'..] == es[i..];
    AfterLocal(ps, es, i, ps', es', i');
    assert After(ps', es', i) == [e] + r + After(ps', es', i');
  }

  lemma UpdatePart<V>(ps: Parts<V>, es: seq<Entry<V>>, i: nat, p: seq<Entry<V>>)
    requires |ps| == |es| + 1 && i <= |es|
    ensures Woven(ps[i := p], es) == Before(ps, es, i) + p + After(ps, es, i)
  {
    WovenAt(ps[i := p], es, i);
    BeforeLocal(ps, es, ps[i := p], es, i);
    AfterLocal(ps, es, i, ps[i := p], es, i);
  }

  /** Cutting at an entry gives the lists before and after it. */
  lemma CutAt<V>(ps: Parts<V>, es: seq<Entry<V>>, i: nat)
    requires |ps| == |es| + 1 && i < |es|
    ensures Woven(ps, es) == Woven(ps[..i + 1], es[..i]) + [es[i]] + Woven(ps[i + 1..], es[i + 1..])
  {
    EntryAt(ps, es, i);
    LeftOf(ps, es, i);
    RightOf(ps, es, i);
  }

  lemma LeftOf<V>(ps: Parts<V>, es: seq<Entry<V>>, i: nat)
    requires |ps| == |es| + 1 && i < |es|
    ensures Woven(ps[..i + 1], es[..i]) == Before(ps, es, i) + ps[i]
  {
    var l, f := ps[..i + 1], es[..i];
    WovenAt(l, f, i);
    BeforeLocal(ps, es, l, f, i);
    assert After(l, f, i) == [];
  }

  lemma RightOf<V>(ps: Parts<V>, es: seq<Entry<V>>, i: nat)
    requires |ps| == |es| + 1 && i < |es|
    ensures Woven(ps[i + 1..], es[i + 1..]) == ps[i + 1] + After(ps, es, i + 1)
  {
    var i' := i + 1;
    var r := ps[i'..];
    assert r[1..] == ps[i' + 1..];
    AfterLocal(ps, es, i', r, es[i'..], 0);
  }

  lemma EntryAt<V>(ps: Parts<V>, es: seq<Entry<V>>, i: nat)
    requires |ps| == |es| + 1 && i < |es|
    ensures Woven(ps, es) == (Before(ps, es, i) + ps[i]) + [es[i]] + (ps[i + 1] + After(ps, es, i + 1))
  {
    WovenAt(ps, es, i);
    var l, r := Before(ps, es, i) + ps[i], ps[i + 1] + After(ps, es, i + 1);
    assert After(ps, es, i) == [es[i]] + r;
    assert l + ([es[i]] + r) == l + [es[i]] + r;
  }

  lemma {:induction false} EntriesAscend<V>(ps: Parts<V>, es: seq<Entry<V>>, i: nat, j: nat)
    requires |ps| == |es| + 1 && Sorted(Woven(ps, es)) && i < j < |es|
    ensures es[i].0 < es[j].0
    decreases j
  {
    WovenAt(ps, es, j);
    Neighbours(ps, es, j);
    SortedEnds(Before(ps, es, j), ps[j], After(ps, es, j));
    if i < j - 1 {
      EntriesAscend(ps, es, i, j - 1);
    }
  }
}
