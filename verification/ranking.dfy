/** Ranking of the accepted fruits (app.py:318-322): the records are sorted
    in place by their vitamin C, largest first (app.py:319), and the first
    five are kept. Python's sort is stable also with `reverse=True`:
    entries with equal keys keep their original relative order. The sort is
    modelled as an insertion sort that places each entry before the entries
    with an equal or smaller key that came after it. */
module Ranking {
  import opened Catalog

  /** The sort key. */
  function Key(r: Recommendation): real {
    r.nutrition.vitaminC
  }

  /** Vitamin C never increases along the list. */
  predicate SortedByVitaminC(s: seq<Recommendation>) {
    forall i, j | 0 <= i < j < |s| :: Key(s[i]) >= Key(s[j])
  }

  /** Putting an entry with at least the head's key in front of a sorted
      list keeps it sorted. */
  lemma ConsSorted(x: Recommendation, s: seq<Recommendation>)
    requires SortedByVitaminC(s)
    requires |s| == 0 || Key(x) >= Key(s[0])
    ensures SortedByVitaminC([x] + s)
  {
    var r := [x] + s;
    forall i, j | 0 <= i < j < |r|
      ensures Key(r[i]) >= Key(r[j])
    {
      assert r[j] == s[j - 1];
      if i > 0 {
        assert r[i] == s[i - 1];
      } else if j > 1 {
        assert Key(s[0]) >= Key(s[j - 1]);
      }
    }
  }

  lemma TailSorted(s: seq<Recommendation>)
    requires SortedByVitaminC(s) && |s| > 0
    ensures SortedByVitaminC(s[1..])
  {
    forall i, j | 0 <= i < j < |s| - 1
      ensures Key(s[1..][i]) >= Key(s[1..][j])
    {
      assert s[1..][i] == s[i + 1] && s[1..][j] == s[j + 1];
    }
  }

  /** Inserts `x`, which precedes every entry of `s` in the original order,
      in front of the first entry whose key is not larger than its own. */
  function Insert(x: Recommendation, s: seq<Recommendation>): (r: seq<Recommendation>)
    requires SortedByVitaminC(s)
    ensures SortedByVitaminC(r)
    ensures multiset(r) == multiset(s) + multiset{x}
    ensures |r| == |s| + 1
    ensures r[0] == x || (|s| > 0 && r[0] == s[0])
    decreases |s|
  {
    if |s| == 0 then [x]
    else if Key(s[0]) > Key(x) then
      TailSorted(s);
      var rest := Insert(x, s[1..]);
      assert |s| > 1 ==> Key(s[0]) >= Key(s[1]);
      ConsSorted(s[0], rest);
      assert s == [s[0]] + s[1..];
      [s[0]] + rest
    else
      ConsSorted(x, s);
      [x] + s
  }

  /** The stable sort by vitamin C, largest first. */
  function SortByVitaminC(s: seq<Recommendation>): (r: seq<Recommendation>)
    ensures SortedByVitaminC(r)
    ensures multiset(r) == multiset(s)
    ensures |r| == |s|
    decreases |s|
  {
    if |s| == 0 then []
    else
      assert s == [s[0]] + s[1..];
      Insert(s[0], SortByVitaminC(s[1..]))
  }

  /** The entries whose key is `v`, in their order in `s`. */
  function WithKey(s: seq<Recommendation>, v: real): (r: seq<Recommendation>)
    ensures |r| <= |s|
    decreases |s|
  {
    if |s| == 0 then []
    else (if Key(s[0]) == v then [s[0]] else []) + WithKey(s[1..], v)
  }

  /** `WithKey` keeps exactly the entries with key `v`. */
  lemma {:induction false} WithKeyMembers(s: seq<Recommendation>, v: real)
    ensures forall e :: e in WithKey(s, v) <==> e in s && Key(e) == v
    decreases |s|
  {
    if |s| > 0 {
      WithKeyMembers(s[1..], v);
      assert s == [s[0]] + s[1..];
    }
  }

  /** Unfolds `WithKey` at the head of a non-empty list. */
  lemma WithKeyCons(s: seq<Recommendation>, v: real)
    requires |s| > 0
    ensures WithKey(s, v) == (if Key(s[0]) == v then [s[0]] else []) + WithKey(s[1..], v)
  {
  }

  /** Inserting `x` adds `x` in front of the entries that share its key
      and leaves the other keys' entries alone. */
  lemma {:induction false} InsertWithKey(x: Recommendation, s: seq<Recommendation>, v: real)
    requires SortedByVitaminC(s)
    ensures WithKey(Insert(x, s), v) == (if Key(x) == v then [x] else []) + WithKey(s, v)
    decreases |s|
  {
    if |s| == 0 {
      WithKeyCons([x], v);
      assert [x][1..] == [];
    } else if Key(s[0]) > Key(x) {
      TailSorted(s);
      InsertWithKey(x, s[1..], v);
      InsertPastHead(x, s, v);
    } else {
      WithKeyCons([x] + s, v);
      assert ([x] + s)[1..] == s;
    }
  }

  /** The step of `InsertWithKey` where `x` goes past the head of `s`. */
  lemma InsertPastHead(x: Recommendation, s: seq<Recommendation>, v: real)
    requires SortedByVitaminC(s) && |s| > 0 && Key(s[0]) > Key(x)
    requires SortedByVitaminC(s[1..])
    requires WithKey(Insert(x, s[1..]), v) == (if Key(x) == v then [x] else []) + WithKey(s[1..], v)
    ensures WithKey(Insert(x, s), v) == (if Key(x) == v then [x] else []) + WithKey(s, v)
  {
    var rest := Insert(x, s[1..]);
    assert Insert(x, s) == [s[0]] + rest;
    WithKeyCons([s[0]] + rest, v);
    assert ([s[0]] + rest)[1..] == rest;
    WithKeyCons(s, v);
    if Key(x) == v {
      assert WithKey(Insert(x, s), v) == WithKey(rest, v);
      assert WithKey(s, v) == WithKey(s[1..], v);
    } else {
      assert WithKey(rest, v) == WithKey(s[1..], v);
    }
  }

  /** Stability: among entries with the same vitamin C, the sorted list
      keeps the order of the input. */
  lemma {:induction false} SortIsStable(s: seq<Recommendation>, v: real)
    ensures WithKey(SortByVitaminC(s), v) == WithKey(s, v)
    decreases |s|
  {
    if |s| > 0 {
      SortIsStable(s[1..], v);
      InsertWithKey(s[0], SortByVitaminC(s[1..]), v);
    }
  }

  /** The greatest key of a sorted list is the key of its head. */
  lemma HeadKeyIsLargest(r: seq<Recommendation>, e: Recommendation)
    requires SortedByVitaminC(r) && |r| > 0
    requires e in r
    ensures Key(e) <= Key(r[0])
  {
    var i :| 0 <= i < |r| && r[i] == e;
    if i > 0 {
      assert Key(r[0]) >= Key(r[i]);
    }
  }

  /** Two lists sorted by vitamin C that agree, key by key, on which entries
      carry that key and in which order, are the same list. */
  lemma {:induction false} SortedListsWithSameKeysAreEqual(r: seq<Recommendation>, t: seq<Recommendation>)
    requires SortedByVitaminC(r) && SortedByVitaminC(t)
    requires forall v :: WithKey(r, v) == WithKey(t, v)
    ensures r == t
    decreases |r|
  {
    if |r| == 0 {
      if |t| > 0 {
        assert false;
      }
    } else if |t| == 0 {
      WithKeyCons(r, Key(r[0]));
      assert false;
    } else {
      var k := Key(r[0]);
      WithKeyMembers(r, Key(t[0]));
      WithKeyMembers(t, k);
      assert r[0] in WithKey(r, k);
      assert t[0] in WithKey(t, Key(t[0]));
      HeadKeyIsLargest(t, r[0]);
      HeadKeyIsLargest(r, t[0]);
      assert Key(t[0]) == k;
      assert WithKey(r, k) == [r[0]] + WithKey(r[1..], k);
      assert WithKey(t, k) == [t[0]] + WithKey(t[1..], k);
      assert r[0] == WithKey(r, k)[0] == WithKey(t, k)[0] == t[0];
      forall v
        ensures WithKey(r[1..], v) == WithKey(t[1..], v)
      {
        var hr := if Key(r[0]) == v then [r[0]] else [];
        var ht := if Key(t[0]) == v then [t[0]] else [];
        assert WithKey(r, v) == hr + WithKey(r[1..], v);
        assert WithKey(t, v) == ht + WithKey(t[1..], v);
        assert hr == ht;
        assert WithKey(r[1..], v) == (hr + WithKey(r[1..], v))[|hr|..];
        assert WithKey(t[1..], v) == (ht + WithKey(t[1..], v))[|ht|..];
      }
      TailSorted(r);
      TailSorted(t);
      SortedListsWithSameKeysAreEqual(r[1..], t[1..]);
      assert r == [r[0]] + r[1..] && t == [t[0]] + t[1..];
    }
  }

  /** The sort is determined by what it promises: any list ordered by
      vitamin C that, for every key, lists the entries of `s` with that key
      in their original order is the result of sorting `s`. */
  lemma StableSortUnique(s: seq<Recommendation>, r: seq<Recommendation>)
    requires SortedByVitaminC(r)
    requires forall v :: WithKey(r, v) == WithKey(s, v)
    ensures r == SortByVitaminC(s)
  {
    var sorted := SortByVitaminC(s);
    forall v
      ensures WithKey(r, v) == WithKey(sorted, v)
    {
      SortIsStable(s, v);
    }
    SortedListsWithSameKeysAreEqual(r, sorted);
  }

  /** Sorting two entries puts the one with more vitamin C first, and keeps
      their order on a tie. */
  lemma SortTwo(a: Recommendation, b: Recommendation)
    ensures SortByVitaminC([a, b]) == if Key(b) > Key(a) then [b, a] else [a, b]
  {
    assert [a, b][1..] == [b];
    assert [b][1..] == [];
    assert SortByVitaminC([b]) == [b];
  }

  /** `s[:n]` */
  function Take(s: seq<Recommendation>, n: nat): (r: seq<Recommendation>)
    ensures |r| == if |s| <= n then |s| else n
    ensures r == s[..|r|]
  {
    if |s| <= n then s else s[..n]
  }

  predicate IsPrefix(a: seq<Recommendation>, b: seq<Recommendation>) {
    |a| <= |b| && a == b[..|a|]
  }

  /** Keeping a prefix keeps, for every key, a prefix of that key's
      entries. */
  lemma {:induction false} WithKeyOfPrefix(s: seq<Recommendation>, k: nat, v: real)
    requires k <= |s|
    ensures IsPrefix(WithKey(s[..k], v), WithKey(s, v))
    decreases k
  {
    if k > 0 {
      assert s[..k][1..] == s[1..][..k - 1];
      assert s[..k][0] == s[0];
      WithKeyOfPrefix(s[1..], k - 1, v);
      assert WithKey(s, v) == (if Key(s[0]) == v then [s[0]] else []) + WithKey(s[1..], v);
      assert WithKey(s[..k], v) == (if Key(s[0]) == v then [s[0]] else []) + WithKey(s[..k][1..], v);
    }
  }
}
