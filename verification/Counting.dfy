/** Facts about numbers, sets of them and lists of lists that several modules need. */
module Counting {

  ghost predicate WithinBounds(s: set<int>, n: nat) {
    forall x {:trigger x in s} :: x in s ==> 0 <= x < n
  }

  lemma Bounded(s: set<int>, n: nat)
    requires WithinBounds(s, n)
    ensures |s| <= n
  {
    if n == 0 {
      assert s == {} by {
        forall x ensures x !in s {}
      }
    } else {
      var r := s - {n - 1};
      Bounded(r, n - 1);
      assert s == if n - 1 in s then r + {n - 1} else r;
    }
  }

  lemma TwoElements(s: set<int>, x: int, y: int)
    requires x in s && y in s && x != y
    ensures |s| >= 2
  {
    var others := s - {x};
    assert y in others && |others| == |s| - 1;
  }

  /** The number of elements in all lists. */
  ghost function Total(lists: seq<seq<int>>): nat {
    if lists == [] then 0 else Total(lists[..|lists| - 1]) + |lists[|lists| - 1]|
  }

  lemma Cancel(a: int, b: int, n: nat)
    requires n > 0 && a * n < b * n
    ensures a < b
  {
    assert (b - a) * n > 0;
  }

  lemma DivMod(v: int, n: nat)
    requires n > 0
    ensures v == (v / n) * n + v % n && 0 <= v % n < n
  {
  }

  /** Quotient and remainder are determined by what they are for. */
  lemma QuotientIs(v: int, n: nat, q: int, r: int)
    requires n > 0 && v == q * n + r && 0 <= r < n
    ensures v / n == q && v % n == r
  {
    var d := v / n - q;
    DivMod(v, n);
    assert d * n == (v / n) * n - q * n;
    Cancel(d, 1, n);
    Cancel(-1, d, n);
  }

  function Pow2(k: nat): (r: nat)
    ensures r >= 1
  {
    if k == 0 then 1 else 2 * Pow2(k - 1)
  }

  function Pow4(k: nat): (r: nat)
    ensures r >= 1
  {
    if k == 0 then 1 else 4 * Pow4(k - 1)
  }

  ghost predicate Distinct(ids: seq<int>) {
    forall i, j {:trigger ids[i], ids[j]} :: 0 <= i < j < |ids| ==> ids[i] != ids[j]
  }

  lemma AppendedDistinct(ids: seq<int>, id: int)
    requires Distinct(ids) && id !in ids
    ensures Distinct(ids + [id])
  {
  }
}
