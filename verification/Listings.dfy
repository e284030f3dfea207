/** What ORDER BY promises: the rows in the order of their keys, rows with equal keys in any
    order, and differently each time. */
module Listings {
  import opened Ports

  function Elements(s: seq<Uuid>): set<Uuid> { set id | id in s }

  ghost predicate NoRepeats(s: seq<Uuid>) {
    forall j, k | 0 <= j < k < |s| :: s[j] != s[k]
  }

  ghost predicate IsSorted(key: Uuid -> int, s: seq<Uuid>) {
    forall j, k | 0 <= j < k < |s| :: key(s[j]) <= key(s[k])
  }

  ghost predicate IsRanking(ids: set<Uuid>, key: Uuid -> int, s: seq<Uuid>) {
    Elements(s) == ids && NoRepeats(s) && IsSorted(key, s)
  }

  /** The rows that are listed before m or tie with it. */
  function UpTo(ids: set<Uuid>, key: Uuid -> int, m: Uuid): set<Uuid> {
    set id | id in ids && key(id) <= key(m)
  }

  /** No tie straddles the boundary after n rows: some row and all it is not before number n. */
  ghost predicate CleanCut(ids: set<Uuid>, key: Uuid -> int, n: nat) {
    exists m :: m in ids && |UpTo(ids, key, m)| == n
  }

  ghost predicate NoTies(ids: set<Uuid>, key: Uuid -> int) {
    forall x, y | x in ids && y in ids && x != y :: key(x) != key(y)
  }

  lemma {:induction false} SizeOfDistinct(s: seq<Uuid>)
    requires NoRepeats(s)
    ensures |Elements(s)| == |s|
  {
    if s == [] {
    } else {
      var init := s[..|s| - 1];
      SizeOfDistinct(init);
      assert Elements(s) == Elements(init) + {s[|s| - 1]};
      assert s[|s| - 1] !in Elements(init);
    }
  }

  lemma {:induction false} DistinctCounts(s: seq<Uuid>)
    requires NoRepeats(s)
    ensures multiset(s) == multiset(Elements(s))
  {
    if s == [] {
    } else {
      var init := s[..|s| - 1];
      DistinctCounts(init);
      assert s == init + [s[|s| - 1]];
      assert Elements(s) == Elements(init) + {s[|s| - 1]};
      assert s[|s| - 1] !in Elements(init);
    }
  }

  lemma {:induction false} SubsetSize(a: set<Uuid>, b: set<Uuid>)
    requires a <= b
    ensures |a| <= |b|
    decreases |a|
  {
    if a == {} {
    } else {
      var x :| x in a;
      SubsetSize(a - {x}, b - {x});
    }
  }

  lemma PlaceOf(s: seq<Uuid>, id: Uuid) returns (p: nat)
    requires id in Elements(s)
    ensures p < |s| && s[p] == id
  {
    p :| 0 <= p < |s| && s[p] == id;
  }

  lemma RankingSize(ids: set<Uuid>, key: Uuid -> int, s: seq<Uuid>)
    requires IsRanking(ids, key, s)
    ensures |s| == |ids|
  {
    SizeOfDistinct(s);
  }

  /** Where the keys differ, what is listed so far are the rows up to the last one. */
  lemma StepIsClean(ids: set<Uuid>, key: Uuid -> int, s: seq<Uuid>, p: nat)
    requires IsRanking(ids, key, s) && p < |s| && (p + 1 < |s| ==> key(s[p]) < key(s[p + 1]))
    ensures s[p] in ids && UpTo(ids, key, s[p]) == Elements(s[..p + 1])
    ensures |UpTo(ids, key, s[p])| == p + 1
  {
    var first := s[..p + 1];
    assert s[p] in Elements(s);
    forall id | id in first ensures id in UpTo(ids, key, s[p]) {
      var j := PlaceOf(first, id);
      assert s[j] in Elements(s);
    }
    forall id | id in UpTo(ids, key, s[p]) ensures id in first {
      var j := PlaceOf(s, id);
      assert j <= p;
      assert first[j] == id;
    }
    SizeOfDistinct(first);
  }

  /** Every listing begins with the rows up to m, in some order. */
  lemma PrefixIsUpTo(ids: set<Uuid>, key: Uuid -> int, s: seq<Uuid>, m: Uuid)
    requires IsRanking(ids, key, s) && m in ids
    ensures var n := |UpTo(ids, key, m)|;
            1 <= n <= |s| && Elements(s[..n]) == UpTo(ids, key, m)
  {
    var p := PlaceOf(s, m);
    while p + 1 < |s| && key(s[p + 1]) == key(m)
      invariant p < |s| && key(s[p]) == key(m)
      decreases |s| - p
    {
      p := p + 1;
    }
    StepIsClean(ids, key, s, p);
    assert UpTo(ids, key, s[p]) == UpTo(ids, key, m);
  }

  /** A cut is clean exactly where the keys differ, in any of the listings. */
  lemma CleanCutMeaning(ids: set<Uuid>, key: Uuid -> int, s: seq<Uuid>, n: nat)
    requires IsRanking(ids, key, s) && 1 <= n < |s|
    ensures CleanCut(ids, key, n) <==> key(s[n - 1]) < key(s[n])
  {
    if key(s[n - 1]) < key(s[n]) {
      StepIsClean(ids, key, s, n - 1);
    }
    if CleanCut(ids, key, n) {
      var m :| m in ids && |UpTo(ids, key, m)| == n;
      PrefixIsUpTo(ids, key, s, m);
      assert s[..n][n - 1] in Elements(s[..n]);
      assert s[n] in Elements(s) && s[n] !in s[..n];
      assert s[n] !in UpTo(ids, key, m);
    }
  }

  function Swapped(s: seq<Uuid>, p: nat, q: nat): (t: seq<Uuid>)
    requires p < |s| && q < |s|
    ensures |t| == |s|
  {
    s[p := s[q]][q := s[p]]
  }

  /** Two rows that tie may as well come the other way round. */
  lemma SwapTie(ids: set<Uuid>, key: Uuid -> int, s: seq<Uuid>, p: nat, q: nat)
    requires IsRanking(ids, key, s) && p < q < |s| && key(s[p]) == key(s[q])
    ensures IsRanking(ids, key, Swapped(s, p, q))
  {
    var t := Swapped(s, p, q);
    assert forall j | 0 <= j < |s| :: key(t[j]) == key(s[j]);
    forall id ensures id in Elements(t) <==> id in Elements(s) {
      if id in Elements(s) {
        var j := PlaceOf(s, id);
        assert t[if j == p then q else if j == q then p else j] == id;
      }
    }
  }

  lemma {:induction false} LeastExists(ids: set<Uuid>, key: Uuid -> int) returns (m: Uuid)
    requires ids != {}
    ensures m in ids && forall id | id in ids :: key(m) <= key(id)
    decreases |ids|
  {
    var x :| x in ids;
    if ids == {x} {
      m := x;
    } else {
      var best := LeastExists(ids - {x}, key);
      m := if key(x) <= key(best) then x else best;
      forall id | id in ids ensures key(m) <= key(id) {
        if id != x { assert id in ids - {x}; }
      }
    }
  }

  lemma {:induction false} RankingExists(ids: set<Uuid>, key: Uuid -> int) returns (s: seq<Uuid>)
    ensures IsRanking(ids, key, s)
    decreases |ids|
  {
    if ids == {} {
      s := [];
    } else {
      var m := LeastExists(ids, key);
      var rest := RankingExists(ids - {m}, key);
      s := [m] + rest;
      assert forall k | 0 <= k < |rest| :: rest[k] in Elements(rest);
      assert forall id :: id in Elements(s) <==> id == m || id in Elements(rest);
    }
  }

  lemma HasElements(s: seq<Uuid>)
    ensures s != [] <==> Elements(s) != {}
  {
    if s != [] { assert s[0] in Elements(s); }
  }

  lemma {:induction false} StrictlySortedUnique(key: Uuid -> int, a: seq<Uuid>, b: seq<Uuid>)
    requires forall j, k | 0 <= j < k < |a| :: key(a[j]) < key(a[k])
    requires forall j, k | 0 <= j < k < |b| :: key(b[j]) < key(b[k])
    requires Elements(a) == Elements(b)
    ensures a == b
    decreases |a|
  {
    HasElements(a);
    HasElements(b);
    if a == [] {
    } else {
      assert a[0] in Elements(a) && a[0] in b;
      assert b[0] in Elements(b) && b[0] in a;
      assert a[0] == b[0];
      forall id | id in a[1..] ensures id in b[1..] { assert id in Elements(a); assert id in b; }
      forall id | id in b[1..] ensures id in a[1..] { assert id in Elements(b); assert id in a; }
      StrictlySortedUnique(key, a[1..], b[1..]);
    }
  }

  /** Without ties the order is determined, so separate page fetches see the same list. */
  lemma TieFreeRankingUnique(ids: set<Uuid>, key: Uuid -> int, a: seq<Uuid>, b: seq<Uuid>)
    requires IsRanking(ids, key, a) && IsRanking(ids, key, b) && NoTies(ids, key)
    ensures a == b
  {
    assert forall k | 0 <= k < |a| :: a[k] in Elements(a);
    assert forall k | 0 <= k < |b| :: b[k] in Elements(b);
    StrictlySortedUnique(key, a, b);
  }
}
