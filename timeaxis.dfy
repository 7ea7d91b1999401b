/** The time-axis merge at the start of `write_nc` (tools/pre_function.py:41-48):
    the existing timestamps that are not being rewritten are kept once each
    (`np.unique`), the new timestamps are appended, and the whole axis is sorted
    (`sortby('time')`). Timestamps are real numbers (a count since an epoch). */
module TimeAxis {
  import opened Sorting

  type Time = real

  predicate Distinct(s: seq<Time>)
  {
    forall i, j :: 0 <= i < j < |s| ==> s[i] != s[j]
  }

  /** `[item for item in old if np.count_nonzero(item == new) == 0]`: the existing times not being rewritten. */
  function Without(existing: seq<Time>, added: seq<Time>): seq<Time>
  {
    if existing == [] then []
    else (if existing[0] in added then [] else [existing[0]]) + Without(existing[1..], added)
  }

  /** One copy of every element of `s`. */
  function Dedup(s: seq<Time>): seq<Time>
  {
    if s == [] then []
    else if s[0] in s[1..] then Dedup(s[1..]) else [s[0]] + Dedup(s[1..])
  }

  /** `np.unique`: the distinct elements, ascending. */
  function Unique(s: seq<Time>): seq<Time>
  {
    SortSeq(Dedup(s))
  }

  /** The merged and sorted axis `write_nc` reindexes onto. */
  function MergedAxis(existing: seq<Time>, added: seq<Time>): seq<Time>
  {
    SortSeq(Unique(Without(existing, added)) + added)
  }

  lemma {:induction false} WithoutCount(existing: seq<Time>, added: seq<Time>, t: Time)
    ensures multiset(Without(existing, added))[t] == if t in added then 0 else multiset(existing)[t]
  {
    if existing != [] {
      WithoutCount(existing[1..], added, t);
      assert existing == [existing[0]] + existing[1..];
    }
  }

  lemma {:induction false} DedupCount(s: seq<Time>, t: Time)
    ensures multiset(Dedup(s))[t] == if t in s then 1 else 0
  {
    if s != [] {
      DedupCount(s[1..], t);
      assert s == [s[0]] + s[1..];
    }
  }

  /** How often each timestamp occurs on the merged axis: a new timestamp as
      often as it was given, an old one that is not rewritten exactly once, any
      other never. */
  lemma MergedCount(existing: seq<Time>, added: seq<Time>, t: Time)
    ensures multiset(MergedAxis(existing, added))[t] ==
      if t in added then multiset(added)[t] else if t in existing then 1 else 0
  {
    var w := Without(existing, added);
    SortSeqProps(Unique(w) + added);
    SortSeqProps(Dedup(w));
    DedupCount(w, t);
    WithoutCount(existing, added, t);
    assert t in w <==> multiset(w)[t] > 0;
    assert t in existing <==> multiset(existing)[t] > 0;
    assert t in added <==> multiset(added)[t] > 0;
  }

  /** The merged axis is ascending. */
  lemma MergedSorted(existing: seq<Time>, added: seq<Time>)
    ensures Sorted(MergedAxis(existing, added))
  {
    SortSeqProps(Unique(Without(existing, added)) + added);
  }

  /** A sequence is duplicate-free exactly when no element occurs twice. */
  lemma {:induction false} DistinctCounts(s: seq<Time>)
    ensures Distinct(s) <==> forall t :: multiset(s)[t] <= 1
  {
    if s != [] {
      var rest := s[1..];
      DistinctCounts(rest);
      assert s == [s[0]] + rest;
      if Distinct(s) {
        assert s[0] !in rest by {
          forall j | 0 <= j < |rest| ensures rest[j] != s[0] { assert rest[j] == s[j + 1]; }
        }
        assert Distinct(rest) by {
          forall i, j | 0 <= i < j < |rest| ensures rest[i] != rest[j] { assert rest[i] == s[i + 1] && rest[j] == s[j + 1]; }
        }
      } else {
        var i, j :| 0 <= i < j < |s| && s[i] == s[j];
        if i == 0 {
          assert s[0] in rest by { assert rest[j - 1] == s[j]; }
          assert multiset(s)[s[0]] == 1 + multiset(rest)[s[0]];
        } else {
          assert rest[i - 1] == rest[j - 1];
          assert !Distinct(rest);
          var u :| multiset(rest)[u] > 1;
          assert multiset(s)[u] >= multiset(rest)[u];
        }
      }
    }
  }

  /** With distinct new timestamps the merged axis holds every timestamp once
      and is strictly ascending. */
  lemma MergedStrictlyAscending(existing: seq<Time>, added: seq<Time>)
    requires Distinct(added)
    ensures Distinct(MergedAxis(existing, added))
    ensures forall i, j :: 0 <= i < j < |MergedAxis(existing, added)| ==> MergedAxis(existing, added)[i] < MergedAxis(existing, added)[j]
  {
    var m := MergedAxis(existing, added);
    DistinctCounts(added);
    forall t ensures multiset(m)[t] <= 1 { MergedCount(existing, added, t); }
    DistinctCounts(m);
    MergedSorted(existing, added);
  }

  /** Membership on the merged axis: the new times and the old ones. */
  lemma MergedMembers(existing: seq<Time>, added: seq<Time>)
    ensures forall t :: t in MergedAxis(existing, added) <==> t in existing || t in added
  {
    forall t ensures t in MergedAxis(existing, added) <==> t in existing || t in added {
      MergedCount(existing, added, t);
      assert t in MergedAxis(existing, added) <==> multiset(MergedAxis(existing, added))[t] > 0;
      assert t in added <==> multiset(added)[t] > 0;
    }
  }
}
