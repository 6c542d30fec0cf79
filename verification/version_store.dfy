/** The version store of src/main.rs: the `Version` record, the `Versions` collection and
    `Versions::sort_versions`, which sorts the records by version number with the stable
    `slice::sort_by`. The stable sort is specified by `StableSort`, an insertion sort on
    sequences, and the in-place sort on an array is proved to compute it. */
module VersionStore {

  /** One discovered revision: its probe number and the `last-modified` text. */
  datatype Version = Version(version: nat, date: string)

  /** Records are in non-decreasing order of version number. */
  ghost predicate SortedByVersion(s: seq<Version>) {
    forall i, j :: 0 <= i < j < |s| ==> s[i].version <= s[j].version
  }

  /** The records of `s` that carry version number `k`, in their order in `s`. */
  function WithVersion(s: seq<Version>, k: nat): (r: seq<Version>)
    ensures |r| <= |s|
    ensures forall i :: 0 <= i < |r| ==> r[i].version == k && r[i] in s
  {
    if s == [] then []
    else WithVersion(s[..|s| - 1], k) + (if s[|s| - 1].version == k then [s[|s| - 1]] else [])
  }

  /** Places `v` after every record, counted from the back, whose version is not greater
      than its own: the step of a stable insertion sort. */
  function InsertByVersion(s: seq<Version>, v: Version): seq<Version>
  {
    if s == [] || s[|s| - 1].version <= v.version then s + [v]
    else InsertByVersion(s[..|s| - 1], v) + [s[|s| - 1]]
  }

  /** The result of sorting `s` by version number with a stable sort. */
  function StableSort(s: seq<Version>): seq<Version>
  {
    if s == [] then [] else InsertByVersion(StableSort(s[..|s| - 1]), s[|s| - 1])
  }

  // ----- properties of one insertion step -----

  lemma {:induction false} InsertPermutes(s: seq<Version>, v: Version)
    ensures |InsertByVersion(s, v)| == |s| + 1
    ensures multiset(InsertByVersion(s, v)) == multiset(s) + multiset{v}
  {
    if s != [] && s[|s| - 1].version > v.version {
      InsertPermutes(s[..|s| - 1], v);
      assert s == s[..|s| - 1] + [s[|s| - 1]];
    }
  }

  lemma {:induction false} InsertKeepsSorted(s: seq<Version>, v: Version)
    requires SortedByVersion(s)
    ensures SortedByVersion(InsertByVersion(s, v))
  {
    if s != [] && s[|s| - 1].version > v.version {
      var init, last := s[..|s| - 1], s[|s| - 1];
      InsertKeepsSorted(init, v);
      InsertPermutes(init, v);
      var r := InsertByVersion(init, v);
      forall x | x in r ensures x.version <= last.version {
        assert x in multiset(init) + multiset{v};
        if x != v {
          var i :| 0 <= i < |init| && init[i] == x;
          assert s[i].version <= s[|s| - 1].version;
        }
      }
      var w := r + [last];
      forall i, j | 0 <= i < j < |w| ensures w[i].version <= w[j].version {
        if j == |r| {
          assert w[i] == r[i];
          assert r[i] in r;
        } else {
          assert w[i] == r[i] && w[j] == r[j];
        }
      }
    }
  }

  /** Inserting `v` appends it to the records of its own version and leaves the
      records of every other version as they were. */
  lemma {:induction false} InsertKeepsOrderPerVersion(s: seq<Version>, v: Version, k: nat)
    ensures WithVersion(InsertByVersion(s, v), k)
         == WithVersion(s, k) + (if v.version == k then [v] else [])
  {
    var r := InsertByVersion(s, v);
    if s == [] || s[|s| - 1].version <= v.version {
      assert r[..|r| - 1] == s;
    } else {
      var init := s[..|s| - 1];
      var last := s[|s| - 1];
      InsertKeepsOrderPerVersion(init, v, k);
      assert r[..|r| - 1] == InsertByVersion(init, v);
      if v.version == k {
        assert last.version != k;
      }
    }
  }

  // ----- properties of the stable sort -----

  lemma {:induction false} SortPermutes(s: seq<Version>)
    ensures |StableSort(s)| == |s|
    ensures multiset(StableSort(s)) == multiset(s)
  {
    if s != [] {
      var init := s[..|s| - 1];
      SortPermutes(init);
      InsertPermutes(StableSort(init), s[|s| - 1]);
      assert s == init + [s[|s| - 1]];
    }
  }

  lemma {:induction false} SortSorts(s: seq<Version>)
    ensures SortedByVersion(StableSort(s))
  {
    if s != [] {
      SortSorts(s[..|s| - 1]);
      InsertKeepsSorted(StableSort(s[..|s| - 1]), s[|s| - 1]);
    }
  }

  /** Stability: for every version number, the records carrying it appear in the sorted
      result in the order they had before, so a duplicate is kept next to the earlier
      record and replaces nothing. */
  lemma {:induction false} SortIsStable(s: seq<Version>, k: nat)
    ensures WithVersion(StableSort(s), k) == WithVersion(s, k)
  {
    if s != [] {
      var init := s[..|s| - 1];
      SortIsStable(init, k);
      InsertKeepsOrderPerVersion(StableSort(init), s[|s| - 1], k);
    }
  }

  /** A collection that is already sorted is left as it is. */
  lemma {:induction false} SortOfSorted(s: seq<Version>)
    requires SortedByVersion(s)
    ensures StableSort(s) == s
  {
    if s != [] {
      var init := s[..|s| - 1];
      SortOfSorted(init);
    }
  }

  lemma {:induction false} InWithVersion(s: seq<Version>, x: Version)
    requires x in s
    ensures x in WithVersion(s, x.version)
  {
    var init := s[..|s| - 1];
    if x != s[|s| - 1] {
      assert s == init + [s[|s| - 1]];
      InWithVersion(init, x);
    }
  }

  /** Dropping the last record removes it from the records of its version and from
      nowhere else. */
  lemma DropLastWithVersion(s: seq<Version>, k: nat)
    requires s != []
    ensures var w := WithVersion(s, k);
      WithVersion(s[..|s| - 1], k)
      == if k == s[|s| - 1].version then w[..|w| - 1] else w
  {
  }

  /** In a sorted collection no record has a greater version than the last one. */
  lemma LastIsGreatest(s: seq<Version>, x: Version)
    requires SortedByVersion(s) && x in s
    ensures x.version <= s[|s| - 1].version
  {
    var i :| 0 <= i < |s| && s[i] == x;
  }

  /** The last record is the last of the records of its version. */
  lemma LastClosesItsGroup(s: seq<Version>)
    requires s != []
    ensures var w := WithVersion(s, s[|s| - 1].version); w != [] && w[|w| - 1] == s[|s| - 1]
  {
  }

  /** In two sorted collections that agree version by version, the last records agree. */
  lemma LastRecordsAgree(t: seq<Version>, u: seq<Version>)
    requires t != [] && u != []
    requires SortedByVersion(t) && SortedByVersion(u)
    requires WithVersion(t, t[|t| - 1].version) == WithVersion(u, t[|t| - 1].version)
    requires WithVersion(t, u[|u| - 1].version) == WithVersion(u, u[|u| - 1].version)
    ensures t[|t| - 1] == u[|u| - 1]
  {
    var a, b := t[|t| - 1], u[|u| - 1];
    InWithVersion(t, a);
    InWithVersion(u, b);
    LastIsGreatest(u, a);
    LastIsGreatest(t, b);
    LastClosesItsGroup(t);
    LastClosesItsGroup(u);
  }

  /** Two sorted collections whose records agree version by version are equal. */
  lemma {:induction false} SortedGroupsDetermine(t: seq<Version>, u: seq<Version>)
    requires SortedByVersion(t) && SortedByVersion(u)
    requires forall k :: WithVersion(t, k) == WithVersion(u, k)
    ensures t == u
    decreases |t| + |u|
  {
    if t == [] && u != [] {
      InWithVersion(u, u[|u| - 1]);
    } else if t != [] && u == [] {
      InWithVersion(t, t[|t| - 1]);
    } else if t != [] {
      assert WithVersion(t, t[|t| - 1].version) == WithVersion(u, t[|t| - 1].version);
      assert WithVersion(t, u[|u| - 1].version) == WithVersion(u, u[|u| - 1].version);
      LastRecordsAgree(t, u);
      var t', u' := t[..|t| - 1], u[..|u| - 1];
      forall k ensures WithVersion(t', k) == WithVersion(u', k) {
        DropLastWithVersion(t, k);
        DropLastWithVersion(u, k);
      }
      SortedGroupsDetermine(t', u');
      assert t == t' + [t[|t| - 1]];
      assert u == u' + [u[|u| - 1]];
    }
  }

  /** `StableSort` is THE stable sort by version: any sorted arrangement that keeps the
      order of the records of each version is it. */
  lemma StableSortUnique(s: seq<Version>, t: seq<Version>)
    requires SortedByVersion(t)
    requires forall k :: WithVersion(t, k) == WithVersion(s, k)
    ensures t == StableSort(s)
  {
    SortSorts(s);
    forall k ensures WithVersion(t, k) == WithVersion(StableSort(s), k) {
      SortIsStable(s, k);
    }
    SortedGroupsDetermine(t, StableSort(s));
  }

  /** No two records share a version number. */
  ghost predicate DistinctVersions(s: seq<Version>) {
    forall i, j :: 0 <= i < j < |s| ==> s[i].version != s[j].version
  }

  lemma {:induction false} NoneWithVersion(s: seq<Version>, k: nat)
    requires forall i :: 0 <= i < |s| ==> s[i].version != k
    ensures WithVersion(s, k) == []
  {
    if s != [] {
      NoneWithVersion(s[..|s| - 1], k);
    }
  }

  lemma {:induction false} DistinctGroupIsSmall(s: seq<Version>, k: nat)
    requires DistinctVersions(s)
    ensures |WithVersion(s, k)| <= 1
  {
    if s != [] {
      var init, last := s[..|s| - 1], s[|s| - 1];
      DistinctGroupIsSmall(init, k);
      if last.version == k {
        forall i | 0 <= i < |init| ensures init[i].version != k {
          assert s[i].version != s[|s| - 1].version;
        }
        NoneWithVersion(init, k);
      }
    }
  }

  /** How often a record occurs among the records of version `k`. */
  lemma {:induction false} GroupCounts(s: seq<Version>, k: nat, x: Version)
    ensures multiset(WithVersion(s, k))[x] == if x.version == k then multiset(s)[x] else 0
  {
    if s != [] {
      var init := s[..|s| - 1];
      GroupCounts(init, k, x);
      assert s == init + [s[|s| - 1]];
    }
  }

  /** Rearranging the records rearranges the records of each version. */
  lemma GroupsFollowMultiset(s: seq<Version>, t: seq<Version>, k: nat)
    requires multiset(s) == multiset(t)
    ensures multiset(WithVersion(s, k)) == multiset(WithVersion(t, k))
  {
    forall x ensures multiset(WithVersion(s, k))[x] == multiset(WithVersion(t, k))[x] {
      GroupCounts(s, k, x);
      GroupCounts(t, k, x);
    }
  }

  /** A sequence of at most one record is fixed by its multiset. */
  lemma AtMostOneByMultiset(a: seq<Version>, b: seq<Version>)
    requires |a| <= 1 && multiset(a) == multiset(b)
    ensures a == b
  {
    assert |b| == |multiset(b)|;
    if |a| == 1 {
      assert multiset(a) == multiset{a[0]};
      assert b == [b[0]];
      assert b[0] in multiset(a);
    }
  }

  /** With distinct version numbers, a rearrangement has the same records per version. */
  lemma SameGroups(s: seq<Version>, t: seq<Version>, k: nat)
    requires multiset(s) == multiset(t) && DistinctVersions(s)
    ensures WithVersion(s, k) == WithVersion(t, k)
  {
    DistinctGroupIsSmall(s, k);
    GroupsFollowMultiset(s, t, k);
    AtMostOneByMultiset(WithVersion(s, k), WithVersion(t, k));
  }

  /** The store after recording each of `rs` in turn, starting from `s`: every record is
      pushed and the collection sorted again (src/main.rs:127-132). */
  function RecordAll(s: seq<Version>, rs: seq<Version>): seq<Version>
    decreases |rs|
  {
    if rs == [] then s else RecordAll(StableSort(s + [rs[0]]), rs[1..])
  }

  /** Sorting after a push onto a sorted store is sorting the whole recording sequence. */
  lemma SortAfterPush(s: seq<Version>, v: Version)
    ensures StableSort(StableSort(s) + [v]) == StableSort(s + [v])
  {
    SortSorts(s);
    SortOfSorted(StableSort(s));
    var t := StableSort(s);
    assert (t + [v])[..|t|] == t;
    assert (s + [v])[..|s|] == s;
  }

  /** Sorting after every push leaves the same store as one sort of all the records in
      the order they were recorded. */
  lemma {:induction false} RecordAllSorts(s: seq<Version>, rs: seq<Version>, all: seq<Version>)
    requires all == s + rs
    ensures RecordAll(StableSort(s), rs) == StableSort(all)
    decreases |rs|
  {
    if rs == [] {
      assert all == s;
    } else {
      var s', rest := s + [rs[0]], rs[1..];
      assert all == s' + rest;
      RecordAllSorts(s', rest, all);
      SortAfterPush(s, rs[0]);
      assert RecordAll(StableSort(s), rs) == RecordAll(StableSort(s'), rest);
    }
  }

  /** A store that starts empty and is sorted after every push is the stable sort of
      the records in the order they were recorded. */
  lemma RecordAllFromEmpty(rs: seq<Version>)
    ensures RecordAll([], rs) == StableSort(rs)
  {
    RecordAllSorts([], rs, rs);
  }

  /** When no version number repeats, the order in which probe results were recorded
      does not matter: any two completion orders of the same records sort to the same
      collection, and so leave the same store when it is sorted after every push. */
  lemma CompletionOrderIrrelevant(s: seq<Version>, t: seq<Version>)
    requires multiset(s) == multiset(t) && DistinctVersions(s)
    ensures StableSort(s) == StableSort(t)
    ensures RecordAll([], s) == RecordAll([], t)
  {
    forall k ensures WithVersion(StableSort(t), k) == WithVersion(s, k) {
      SortIsStable(t, k);
      SameGroups(s, t, k);
    }
    SortSorts(t);
    StableSortUnique(s, StableSort(t));
    RecordAllFromEmpty(s);
    RecordAllFromEmpty(t);
  }

  /** A store sorted after every push is sorted, and keeps the records of each version
      in the order they were recorded in: a repeated version replaces nothing. */
  lemma DuplicatesKeepRecordingOrder(rs: seq<Version>, k: nat)
    ensures SortedByVersion(RecordAll([], rs))
    ensures WithVersion(RecordAll([], rs), k) == WithVersion(rs, k)
  {
    RecordAllFromEmpty(rs);
    SortSorts(rs);
    SortIsStable(rs, k);
  }

  /** Two different records of one version: the two completion orders leave two
      different stores, each in its own recording order. */
  lemma RecordingOrderShows(ab: seq<Version>, ba: seq<Version>)
    requires |ab| == 2 && ba == [ab[1], ab[0]]
    requires ab[0].version == ab[1].version && ab[0] != ab[1]
    ensures RecordAll([], ab) == ab && RecordAll([], ba) == ba
    ensures RecordAll([], ab) != RecordAll([], ba)
  {
    forall i, j | 0 <= i < j < 2 ensures ab[i].version <= ab[j].version && ba[i].version <= ba[j].version {
      assert i == 0 && j == 1;
    }
    SortOfSorted(ab);
    SortOfSorted(ba);
    RecordAllFromEmpty(ab);
    RecordAllFromEmpty(ba);
  }

  /** Recording a probe result (push, then sort) adds exactly the new record, keeps every
      earlier one, and leaves the collection sorted whether or not it was sorted before;
      on a sorted collection it is the insertion of the record. */
  lemma PushThenSort(s: seq<Version>, v: Version)
    ensures |StableSort(s + [v])| == |s| + 1
    ensures multiset(StableSort(s + [v])) == multiset(s) + multiset{v}
    ensures v in StableSort(s + [v])
    ensures SortedByVersion(StableSort(s + [v]))
    ensures SortedByVersion(s) ==> StableSort(s + [v]) == InsertByVersion(s, v)
  {
    SortPermutes(s + [v]);
    SortSorts(s + [v]);
    assert (s + [v])[..|s|] == s;
    assert v in multiset(StableSort(s + [v]));
    if SortedByVersion(s) {
      SortOfSorted(s);
    }
  }

  /** `v` lands right after the last record whose version is not greater than its own. */
  lemma {:induction false} InsertLandsAfter(t: seq<Version>, v: Version, j: nat)
    requires j <= |t| && (j == 0 || t[j - 1].version <= v.version)
    requires forall k :: j <= k < |t| ==> t[k].version > v.version
    ensures InsertByVersion(t, v) == t[..j] + [v] + t[j..]
    decreases |t|
  {
    if j < |t| {
      var init := t[..|t| - 1];
      InsertLandsAfter(init, v, j);
      assert init[..j] == t[..j];
      assert t[j..] == init[j..] + [t[|t| - 1]];
    } else {
      assert t[..j] == t;
    }
  }

  /** After the shifting, the prefix holds the sorted records with `v` in the gap. */
  lemma FillHole(b: seq<Version>, t: seq<Version>, v: Version, j: nat)
    requires j <= |t| && |b| == |t| + 1 && b[j] == v
    requires forall k :: 0 <= k < j ==> b[k] == t[k]
    requires forall k :: j < k < |b| ==> b[k] == t[k - 1]
    ensures b == t[..j] + [v] + t[j..]
  {
  }

  /** One pass of the insertion sort: the record at `i` moves left past the larger
      records of the sorted prefix `a[..i]`, which shift one place right. */
  method InsertAt(a: array<Version>, i: nat)
    requires i < a.Length
    modifies a
    ensures a[..i + 1] == InsertByVersion(old(a[..i]), old(a[i]))
    ensures a[i + 1..] == old(a[i + 1..])
  {
    var x := a[i];
    ghost var t := a[..i];
    var j := i;
    while j > 0 && a[j - 1].version > x.version
      invariant 0 <= j <= i
      invariant forall k :: 0 <= k < j ==> a[k] == t[k]
      invariant forall k :: j < k <= i ==> a[k] == t[k - 1]
      invariant forall k :: i < k < a.Length ==> a[k] == old(a[k])
      invariant forall k :: j <= k < i ==> t[k].version > x.version
    {
      a[j] := a[j - 1];
      j := j - 1;
    }
    InsertLandsAfter(t, x, j);
    a[j] := x;
    FillHole(a[..i + 1], t, x, j);
  }

  /** Sorting in place, as `slice::sort_by(|a, b| a.version.cmp(&b.version))` does:
      an insertion sort that never moves a record past one of equal version. */
  method SortByVersion(a: array<Version>)
    modifies a
    ensures a[..] == StableSort(old(a[..]))
  {
    ghost var s := a[..];
    var i := 0;
    while i < a.Length
      invariant 0 <= i <= a.Length
      invariant a[..i] == StableSort(s[..i])
      invariant a[i..] == s[i..]
    {
      ghost var sorted := a[..i];
      InsertAt(a, i);
      assert s[..i + 1][..i] == s[..i];
      assert StableSort(s[..i + 1]) == InsertByVersion(sorted, s[i]);
      i := i + 1;
    }
    assert s[..a.Length] == s;
  }

  /** The `Versions` collection: the asset it belongs to and its records in stored order. */
  class Versions {
    var assetid: nat
    var versions: seq<Version>

    constructor (assetid: nat)
      ensures this.assetid == assetid && versions == []
    {
      this.assetid := assetid;
      versions := [];
    }

    /** `Vec::push`: the record goes to the end. */
    method Push(v: Version)
      modifies this
      ensures versions == old(versions) + [v] && assetid == old(assetid)
    {
      versions := versions + [v];
    }

    /** `Versions::sort_versions`: stable sort by version number; `assetid` is untouched. */
    method SortVersions()
      modifies this
      ensures versions == StableSort(old(versions)) && assetid == old(assetid)
    {
      var s := versions;
      var a := new Version[|s|](i requires 0 <= i < |s| => s[i]);
      assert a[..] == s;
      SortByVersion(a);
      versions := a[..];
    }
  }
}
