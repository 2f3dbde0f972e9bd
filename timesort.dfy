/** `lines.sort((a, b) => a.time - b.time)`: the stable sort by time that
    ECMAScript has required of `Array.prototype.sort` since ES2019. It is
    given here by a reference definition, insertion sort, together with the
    proof that ANY sorted arrangement that keeps equal-time entries in their
    original order is that same sequence, so the definition stands for
    whichever stable algorithm the engine uses. */
module TimeSort {
  import opened Types

  /** The entries of `s` whose time is `v`, in their order in `s`. */
  function WithTime(s: seq<SyncedLine>, v: nat): seq<SyncedLine>
  {
    if s == [] then []
    else WithTime(s[..|s| - 1], v) + (if s[|s| - 1].time == v then [s[|s| - 1]] else [])
  }

  /** Puts `x` just after the last entry whose time is at most `x.time`. */
  function InsertByTime(s: seq<SyncedLine>, x: SyncedLine): (r: seq<SyncedLine>)
    ensures multiset(r) == multiset(s) + multiset{x}
    ensures |r| == |s| + 1
  {
    if s == [] || s[|s| - 1].time <= x.time then s + [x]
    else
      var init, last := s[..|s| - 1], s[|s| - 1];
      assert s == init + [last];
      InsertByTime(init, x) + [last]
  }

  /** Inserting into a sorted sequence keeps it sorted. */
  lemma {:induction false} InsertKeepsSorted(s: seq<SyncedLine>, x: SyncedLine)
    requires SortedByTime(s)
    ensures SortedByTime(InsertByTime(s, x))
  {
    if s != [] && s[|s| - 1].time > x.time {
      var init, last := s[..|s| - 1], s[|s| - 1];
      var r := InsertByTime(init, x);
      assert InsertByTime(s, x) == r + [last];
      SortedInit(s);
      InsertKeepsSorted(init, x);
      forall k | 0 <= k < |r|
        ensures r[k].time <= last.time
      {
        assert r[k] in multiset(init) + multiset{x} by {
          assert r[k] in multiset(r);
        }
        if r[k] != x {
          SortedLastIsLatest(s, r[k]);
        }
      }
    }
  }

  /** In a sorted sequence no entry is later than the last one. */
  lemma SortedLastIsLatest(s: seq<SyncedLine>, e: SyncedLine)
    requires SortedByTime(s) && e in s
    ensures e.time <= s[|s| - 1].time
  {
    var k :| 0 <= k < |s| && s[k] == e;
  }

  /** The stable sort by time. */
  function SortByTime(s: seq<SyncedLine>): (r: seq<SyncedLine>)
    ensures SortedByTime(r)
    ensures multiset(r) == multiset(s)
    ensures |r| == |s|
  {
    if s == [] then []
    else
      assert s == s[..|s| - 1] + [s[|s| - 1]];
      InsertKeepsSorted(SortByTime(s[..|s| - 1]), s[|s| - 1]);
      InsertByTime(SortByTime(s[..|s| - 1]), s[|s| - 1])
  }

  lemma WithTimeAppend(s: seq<SyncedLine>, x: SyncedLine, v: nat)
    ensures WithTime(s + [x], v) == WithTime(s, v) + (if x.time == v then [x] else [])
  {
    assert (s + [x])[..|s|] == s;
  }

  /** Inserting into a sorted sequence puts `x` after every entry that has
      its time, and disturbs no other time's entries. */
  lemma {:induction false} InsertKeepsOrder(s: seq<SyncedLine>, x: SyncedLine, v: nat)
    requires SortedByTime(s)
    ensures WithTime(InsertByTime(s, x), v) == WithTime(s, v) + (if x.time == v then [x] else [])
  {
    if s == [] || s[|s| - 1].time <= x.time {
      assert InsertByTime(s, x) == s + [x];
      WithTimeAppend(s, x, v);
    } else {
      var init, last := s[..|s| - 1], s[|s| - 1];
      var r := InsertByTime(init, x);
      assert InsertByTime(s, x) == r + [last];
      SortedInit(s);
      InsertKeepsOrder(init, x, v);
      WithTimeAppend(r, last, v);
      WithTimeAppend(init, last, v);
      assert s == init + [last];
      if x.time == v {
        assert last.time != v;
        assert WithTime(InsertByTime(s, x), v) == WithTime(r, v) == WithTime(init, v) + [x];
        assert WithTime(s, v) == WithTime(init, v);
      } else {
        assert WithTime(r, v) == WithTime(init, v);
      }
    }
  }

  /** Dropping the last entry keeps a sequence sorted. */
  lemma SortedInit(s: seq<SyncedLine>)
    requires SortedByTime(s) && s != []
    ensures SortedByTime(s[..|s| - 1])
  {
    var init := s[..|s| - 1];
    assert forall k :: 0 <= k < |init| ==> init[k] == s[k];
  }

  /** Stability: for every time, the entries with that time appear in the
      sorted result in exactly their input order. */
  lemma {:induction false} SortByTimeStable(s: seq<SyncedLine>, v: nat)
    ensures WithTime(SortByTime(s), v) == WithTime(s, v)
  {
    if s != [] {
      var init, last := s[..|s| - 1], s[|s| - 1];
      SortByTimeStable(init, v);
      InsertKeepsOrder(SortByTime(init), last, v);
    }
  }

  lemma {:induction false} WithTimeMembers(s: seq<SyncedLine>, v: nat, e: SyncedLine)
    ensures e in WithTime(s, v) <==> e in s && e.time == v
  {
    if s != [] {
      var init := s[..|s| - 1];
      WithTimeMembers(init, v, e);
      assert s == init + [s[|s| - 1]];
    }
  }

  /** Dropping the last entry drops it from its own time's subsequence. */
  lemma WithTimeDropLast(s: seq<SyncedLine>, u: nat)
    requires s != []
    ensures var w := WithTime(s, u);
      if s[|s| - 1].time == u then w != [] && w[|w| - 1] == s[|s| - 1] && w[..|w| - 1] == WithTime(s[..|s| - 1], u)
      else w == WithTime(s[..|s| - 1], u)
  {
    var w, init := WithTime(s, u), s[..|s| - 1];
    if s[|s| - 1].time == u {
      assert w == WithTime(init, u) + [s[|s| - 1]];
      assert w[..|w| - 1] == WithTime(init, u);
    }
  }

  /** Two sorted sequences with the same per-time subsequences end with
      entries of the same time. */
  lemma SameLastTime(r1: seq<SyncedLine>, r2: seq<SyncedLine>)
    requires SortedByTime(r1) && SortedByTime(r2) && r1 != [] && r2 != []
    requires forall v :: WithTime(r1, v) == WithTime(r2, v)
    ensures r1[|r1| - 1].time == r2[|r2| - 1].time
  {
    var x1, x2 := r1[|r1| - 1], r2[|r2| - 1];
    WithTimeMembers(r1, x2.time, x2);
    WithTimeMembers(r2, x2.time, x2);
    WithTimeMembers(r1, x1.time, x1);
    WithTimeMembers(r2, x1.time, x1);
    SortedLastIsLatest(r1, x2);
    SortedLastIsLatest(r2, x1);
  }

  /** A sorted arrangement is fixed by its per-time subsequences: two sorted
      sequences that agree on WithTime for every time are equal. Together
      with SortByTimeStable, any stable sort by time returns SortByTime(s). */
  lemma {:induction false} StableSortIsUnique(r1: seq<SyncedLine>, r2: seq<SyncedLine>)
    requires SortedByTime(r1) && SortedByTime(r2)
    requires forall v :: WithTime(r1, v) == WithTime(r2, v)
    ensures r1 == r2
  {
    if r1 == [] && r2 != [] {
      var e := r2[|r2| - 1];
      WithTimeMembers(r2, e.time, e);
    } else if r1 != [] && r2 == [] {
      var e := r1[|r1| - 1];
      WithTimeMembers(r1, e.time, e);
    } else if r1 != [] {
      var i1, i2 := r1[..|r1| - 1], r2[..|r2| - 1];
      DropLastAgrees(r1, r2, i1, i2);
      SortedInit(r1);
      SortedInit(r2);
      StableSortIsUnique(i1, i2);
      assert r1 == i1 + [r1[|r1| - 1]] && r2 == i2 + [r2[|r2| - 1]];
    }
  }

  /** Two sorted sequences with the same per-time subsequences end with
      the same entry, and agree on them once it is dropped. */
  lemma DropLastAgrees(r1: seq<SyncedLine>, r2: seq<SyncedLine>, i1: seq<SyncedLine>, i2: seq<SyncedLine>)
    requires SortedByTime(r1) && SortedByTime(r2) && r1 != [] && r2 != []
    requires forall v :: WithTime(r1, v) == WithTime(r2, v)
    requires i1 == r1[..|r1| - 1] && i2 == r2[..|r2| - 1]
    ensures r1[|r1| - 1] == r2[|r2| - 1]
    ensures forall u :: WithTime(i1, u) == WithTime(i2, u)
  {
    SameLastTime(r1, r2);
    var x1 := r1[|r1| - 1];
    WithTimeDropLast(r1, x1.time);
    WithTimeDropLast(r2, x1.time);
    forall u
      ensures WithTime(i1, u) == WithTime(i2, u)
    {
      WithTimeDropLast(r1, u);
      WithTimeDropLast(r2, u);
    }
  }
}
