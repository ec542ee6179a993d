/** When a cleanup leaves a hole in the directory: `remove_segments_covered_by_checkpoint` in src/wal/mod.rs. */
module CleanupOrder {
  import opened FrameCodec
  import opened SegmentLog
  import opened WalSpec
  import opened LogInvariant
  import opened LogTheorems

  /** Of the segments that hold records, those removed come before those kept. */
  ghost predicate OldestFirst(segs: Log, gone: set<nat>) {
    forall i, k :: 0 <= i < k < |segs| && segs[i].recs != [] && segs[k].recs != [] && segs[k].id in gone ==>
      segs[i].id in gone
  }

  ghost predicate OnlyEmptyGo(segs: Log, gone: set<nat>) {
    forall k :: 0 <= k < |segs| && segs[k].id in gone ==> segs[k].recs == []
  }

  lemma {:induction false} RecordsLost(segs: Log, gone: set<nat>)
    ensures |Flat(Without(segs, gone))| <= |Flat(segs)|
    ensures OnlyEmptyGo(segs, gone) <==> |Flat(Without(segs, gone))| == |Flat(segs)|
    ensures OnlyEmptyGo(segs, gone) ==> Flat(Without(segs, gone)) == Flat(segs)
  {
    if segs != [] {
      RecordsLost(segs[1..], gone);
      WithoutFirst(segs, gone);
      assert OnlyEmptyGo(segs, gone) <==>
             (segs[0].id in gone ==> segs[0].recs == []) && OnlyEmptyGo(segs[1..], gone) by {
        assert forall k :: 1 <= k < |segs| ==> segs[k] == segs[1..][k - 1];
      }
    }
  }

  lemma WithoutFirst(segs: Log, gone: set<nat>)
    requires segs != []
    ensures Flat(segs) == segs[0].recs + Flat(segs[1..])
    ensures Flat(Without(segs, gone))
            == (if segs[0].id in gone then [] else segs[0].recs) + Flat(Without(segs[1..], gone))
  {
    hide Flat;
    FlatHead(segs);
    var rest := Without(segs[1..], gone);
    if segs[0].id in gone {
      assert [] + rest == rest && [] + Flat(rest) == Flat(rest);
    } else {
      FlatHead([segs[0]] + rest);
      assert ([segs[0]] + rest)[1..] == rest;
    }
  }

  lemma OldestFirstRest(segs: Log, gone: set<nat>)
    requires segs != []
    ensures OldestFirst(segs, gone)
       <==> OldestFirst(segs[1..], gone) && (segs[0].recs == [] || segs[0].id in gone || OnlyEmptyGo(segs[1..], gone))
  {
    var rest := segs[1..];
    assert forall k :: 1 <= k < |segs| ==> segs[k] == rest[k - 1];
    assert forall k :: 0 <= k < |rest| ==> rest[k] == segs[k + 1];
  }

  ghost predicate AllDifferent<T>(s: seq<T>) {
    forall i, j :: 0 <= i < j < |s| ==> s[i] != s[j]
  }

  /** Removing the front part: what is left is the end of the whole iff it is the end of the rest. */
  lemma FrontGone<T>(first: seq<T>, rest: seq<T>, left: seq<T>)
    requires |left| <= |rest|
    ensures left == (first + rest)[|first + rest| - |left|..] <==> left == rest[|rest| - |left|..]
  {
    DropMore(first, rest, |first| + |rest| - |left|);
  }

  /** Keeping the front part: what is left is the end of the whole iff nothing of the rest is lost. */
  lemma FrontKept<T>(first: seq<T>, rest: seq<T>, left: seq<T>)
    requires first != [] && |left| <= |rest| && (|left| == |rest| ==> left == rest)
    requires AllDifferent(first + rest)
    ensures first + left == (first + rest)[|rest| - |left|..] <==> |left| == |rest|
  {
    var all, n := first + rest, |rest| - |left|;
    if n > 0 {
      assert all[n..][0] == all[n] && (first + left)[0] == all[0];
    } else {
      assert all[0..] == all;
    }
  }

  /** The records left are the last ones exactly if the oldest segments went first. */
  lemma {:induction false} LastOnesLeft(segs: Log, gone: set<nat>)
    requires AllDifferent(Flat(segs))
    ensures |Flat(Without(segs, gone))| <= |Flat(segs)|
    ensures OldestFirst(segs, gone)
       <==> Flat(Without(segs, gone)) == Flat(segs)[|Flat(segs)| - |Flat(Without(segs, gone))|..]
    decreases |segs|
  {
    hide Flat, Without, OldestFirst, OnlyEmptyGo, AllDifferent;
    if segs == [] {
      NothingToRemove(gone);
    } else {
      var first, rest := segs[0].recs, segs[1..];
      WithoutFirst(segs, gone);
      OldestFirstRest(segs, gone);
      RecordsLost(rest, gone);
      DistinctRest(first, Flat(rest));
      LastOnesLeft(rest, gone);
      if first == [] || segs[0].id in gone {
        assert [] + Flat(Without(rest, gone)) == Flat(Without(rest, gone));
        FrontGone(first, Flat(rest), Flat(Without(rest, gone)));
      } else {
        FrontKept(first, Flat(rest), Flat(Without(rest, gone)));
      }
    }
  }

  lemma DistinctRest<T>(first: seq<T>, rest: seq<T>)
    requires AllDifferent(first + rest)
    ensures AllDifferent(rest)
  {
    assert forall i :: 0 <= i < |rest| ==> rest[i] == (first + rest)[|first| + i];
  }

  lemma NothingToRemove(gone: set<nat>)
    ensures OldestFirst([], gone) && Without([], gone) == [] && Flat([]) == []
  {
  }

  /** Removing segments from a directory without holes leaves none exactly if, of the segments that hold records, no
      removed one comes after a kept one. A finished cleanup always does so, one that is cut short need not. */
  lemma CleanupLeavesNoHoleExactlyWhen(segs: Log, hist: seq<Record>, gone: set<nat>)
    requires Numbered(hist) && Suffix(segs, hist)
    ensures Suffix(Without(segs, gone), hist) <==> OldestFirst(segs, gone)
  {
    hide Flat, Without, OldestFirst;
    var all, left := Flat(segs), Flat(Without(segs, gone));
    forall i, j | 0 <= i < j < |all| ensures all[i] != all[j] {
      assert all[i].lsn == |hist| - |all| + i + 1 && all[j].lsn == |hist| - |all| + j + 1;
    }
    LastOnesLeft(segs, gone);
    var n := |all| - |left|;
    assert all[n..] == hist[|hist| - |all|..][n..] == hist[|hist| - |left|..];
  }

  // ---- the order of the directory -------------------------------------------------------------

  /** Of the covered segments that hold records, the directory lists an older one before a younger one. */
  ghost predicate ListedInOrder(segs: Log, covered: set<nat>, listing: seq<nat>) {
    forall a, b :: 0 <= a < b < |listing| && HoldsRecords(segs, covered, listing[a])
                   && HoldsRecords(segs, covered, listing[b])
      ==> listing[a] < listing[b]
  }

  ghost predicate HoldsRecords(segs: Log, covered: set<nat>, id: nat) {
    id in covered && exists k :: 0 <= k < |segs| && segs[k].id == id && segs[k].recs != []
  }

  /** A listing of a directory: every segment's file once. */
  ghost predicate Lists(segs: Log, listing: seq<nat>) {
    && (forall i, j :: 0 <= i < j < |listing| ==> listing[i] != listing[j])
    && (forall k :: 0 <= k < |segs| ==> segs[k].id in listing)
  }

  /** Of two segments with records the older one has the lower LSNs. */
  lemma OlderIsLower(segs: Log, hist: seq<Record>, i: nat, k: nat, a: nat, b: nat)
    requires Numbered(hist) && Suffix(segs, hist) && i < k < |segs| && a < |segs[i].recs| && b < |segs[k].recs|
    ensures segs[i].recs[a].lsn < segs[k].recs[b].lsn
  {
    hide Flat;
    var all, x, y := Flat(segs), |Flat(segs[..i])| + a, |Flat(segs[..k])| + b;
    RecordInFlat(segs, i, a);
    RecordInFlat(segs, k, b);
    FlatSplit(segs[..k], i);
    assert segs[..k][..i] == segs[..i] && segs[..k][i] == segs[i];
    assert all[x] == hist[|hist| - |all| + x] && all[y] == hist[|hist| - |all| + y];
  }

  lemma RecordInFlat(segs: Log, i: nat, a: nat)
    requires i < |segs| && a < |segs[i].recs|
    ensures |Flat(segs[..i])| + a < |Flat(segs)| && Flat(segs)[|Flat(segs[..i])| + a] == segs[i].recs[a]
  {
    hide Flat;
    FlatSplit(segs, i);
  }

  /** What a checkpoint covers are the oldest segments. */
  lemma CoveredIsOldestFirst(segs: Log, hist: seq<Record>, lsn: nat, keepFrom: nat)
    requires Numbered(hist) && Suffix(segs, hist) && Ordered(segs)
    ensures OldestFirst(segs, CoveredIds(segs, lsn, keepFrom))
  {
    hide MaxLsn, Flat, Suffix, Numbered;
    var covered := CoveredIds(segs, lsn, keepFrom);
    forall i, k | 0 <= i < k < |segs| && segs[i].recs != [] && segs[k].recs != [] && segs[k].id in covered
      ensures segs[i].id in covered
    {
      MaxLsnBounds(segs[i].recs);
      MaxLsnBounds(segs[k].recs);
      var a :| 0 <= a < |segs[i].recs| && segs[i].recs[a].lsn == MaxLsn(segs[i].recs);
      OlderIsLower(segs, hist, i, k, a, 0);
      assert Covered(segs[i], lsn, keepFrom);
    }
  }

  /** A removal may be cut short after any number of files without leaving a hole, if and only if the directory lists
      the covered segments that hold records in ascending order. */
  lemma NoHoleExactlyWhenListedInOrder(segs: Log, hist: seq<Record>, covered: set<nat>, listing: seq<nat>)
    requires Numbered(hist) && Suffix(segs, hist) && Ordered(segs) && OldestFirst(segs, covered) && Lists(segs, listing)
    ensures (forall n :: 0 <= n <= |listing| ==> Suffix(Without(segs, GoneAfter(covered, listing, n)), hist))
       <==> ListedInOrder(segs, covered, listing)
  {
    hide Suffix, Without;
    forall n | 0 <= n <= |listing|
      ensures Suffix(Without(segs, GoneAfter(covered, listing, n)), hist)
         <==> OldestFirst(segs, GoneAfter(covered, listing, n))
    {
      CleanupLeavesNoHoleExactlyWhen(segs, hist, GoneAfter(covered, listing, n));
    }
    if ListedInOrder(segs, covered, listing) {
      forall n | 0 <= n <= |listing| ensures OldestFirst(segs, GoneAfter(covered, listing, n)) {
        InOrderIsOldestFirst(segs, covered, listing, n);
      }
    } else {
      var a, b :| 0 <= a < b < |listing| && HoldsRecords(segs, covered, listing[a])
                  && HoldsRecords(segs, covered, listing[b])
                  && listing[a] >= listing[b];
      OutOfOrderLeavesHole(segs, covered, listing, a, b);
    }
  }

  lemma InOrderIsOldestFirst(segs: Log, covered: set<nat>, listing: seq<nat>, n: nat)
    requires Ordered(segs) && OldestFirst(segs, covered) && Lists(segs, listing) && n <= |listing|
    requires ListedInOrder(segs, covered, listing)
    ensures OldestFirst(segs, GoneAfter(covered, listing, n))
  {
    var gone := GoneAfter(covered, listing, n);
    forall i, k | 0 <= i < k < |segs| && segs[i].recs != [] && segs[k].recs != [] && segs[k].id in gone
      ensures segs[i].id in gone
    {
      var b :| 0 <= b < n && listing[b] == segs[k].id;
      var a :| 0 <= a < |listing| && listing[a] == segs[i].id;
      assert segs[i].id in covered;
      assert HoldsRecords(segs, covered, listing[a]) && HoldsRecords(segs, covered, listing[b]);
      assert a < b;
      assert listing[..n][a] == segs[i].id;
    }
  }

  lemma OutOfOrderLeavesHole(segs: Log, covered: set<nat>, listing: seq<nat>, a: nat, b: nat)
    requires Ordered(segs) && Lists(segs, listing) && a < b < |listing| && listing[a] >= listing[b]
    requires HoldsRecords(segs, covered, listing[a]) && HoldsRecords(segs, covered, listing[b])
    ensures !OldestFirst(segs, GoneAfter(covered, listing, a + 1))
  {
    var gone := GoneAfter(covered, listing, a + 1);
    var k :| 0 <= k < |segs| && segs[k].id == listing[a] && segs[k].recs != [];
    var i :| 0 <= i < |segs| && segs[i].id == listing[b] && segs[i].recs != [];
    assert listing[..a + 1][a] == listing[a];
    assert listing[a] in gone;
    assert listing[b] !in listing[..a + 1];
    assert listing[b] < listing[a];
    assert i < k;
  }

  /** A cleanup whose removals fail like this leaves no hole. */
  ghost predicate EndsWithoutHole(segs: Log, hist: seq<Record>, covered: set<nat>, listing: seq<nat>,
                                  fails: nat -> bool) {
    Suffix(Without(segs, GoneAfter(covered, listing, FirstFailure(covered, listing, fails, 0))), hist)
  }

  /** The same for a cleanup: whatever removal fails, the directory has no hole, if and only if the directory lists the
      segments with records that the checkpoint covers in ascending order. */
  lemma CleanupIsSafeExactlyWhen(segs: Log, hist: seq<Record>, lsn: nat, keepFrom: nat, listing: seq<nat>)
    requires Numbered(hist) && Suffix(segs, hist) && Ordered(segs) && Lists(segs, listing)
    ensures (forall fails :: EndsWithoutHole(segs, hist, CoveredIds(segs, lsn, keepFrom), listing, fails))
       <==> ListedInOrder(segs, CoveredIds(segs, lsn, keepFrom), listing)
  {
    var covered := CoveredIds(segs, lsn, keepFrom);
    CoveredIsOldestFirst(segs, hist, lsn, keepFrom);
    NoHoleExactlyWhenListedInOrder(segs, hist, covered, listing);
    hide Suffix, Without, GoneAfter, CoveredIds, ListedInOrder, OldestFirst;
    if forall fails :: EndsWithoutHole(segs, hist, covered, listing, fails) {
      forall n | 0 <= n <= |listing| ensures Suffix(Without(segs, GoneAfter(covered, listing, n)), hist) {
        StopsAnywhere(covered, listing, n);
        assert EndsWithoutHole(segs, hist, covered, listing, FailsFrom(listing, n));
      }
    }
  }

  /** The removal of the file at place n, and of any listed after it, fails. */
  function FailsFrom(listing: seq<nat>, n: nat): nat -> bool
    requires n <= |listing|
  {
    id => id in listing[n..]
  }

  lemma SplitListing(listing: seq<nat>, n: nat)
    requires n <= |listing| && forall i, j :: 0 <= i < j < |listing| ==> listing[i] != listing[j]
    ensures forall i :: 0 <= i < |listing| ==> (listing[i] in listing[n..] <==> n <= i)
  {
    var later := listing[n..];
    assert forall j :: 0 <= j < |later| ==> later[j] == listing[n + j];
    forall i | n <= i < |listing| ensures listing[i] in later { assert later[i - n] == listing[i]; }
  }

  /** A cleanup can end after any number of files. */
  lemma StopsAnywhere(covered: set<nat>, listing: seq<nat>, n: nat)
    requires n <= |listing| && forall i, j :: 0 <= i < j < |listing| ==> listing[i] != listing[j]
    ensures GoneAfter(covered, listing, FirstFailure(covered, listing, FailsFrom(listing, n), 0))
            == GoneAfter(covered, listing, n)
  {
    hide FirstFailure;
    var m := FirstFailure(covered, listing, FailsFrom(listing, n), 0);
    SplitListing(listing, n);
    assert n <= m;
    var between := listing[n..m];
    assert listing[..m] == listing[..n] + between;
    assert forall j :: 0 <= j < |between| ==> between[j] == listing[n + j] && listing[n + j] !in covered;
  }
}
