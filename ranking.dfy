/**
  * The freshness ranking of SyncAction::sync's file branch: each root of the
  * frontier gets a group number from a running "newest" file, and the groups
  * decide which roots receive a copy, an update, or nothing.
  */
module Ranking {
  import opened Options

  /** Group given to a root that does not hold the file. */
  const Missing: int := -2

  /**
    * FileCompare::compareTwoFiles on modification times: positive when the
    * first file is newer, zero when equal, negative when older.
    */
  function Compare(a: int, b: int): (c: int)
    ensures c > 0 <==> a > b
    ensures c == 0 <==> a == b
    ensures c < 0 <==> a < b
  {
    if a > b then 1 else if a == b then 0 else -1
  }

  /**
    * The loop's state after visiting some roots: latest_index_arr so far,
    * latest_index, and the root newest_fi points to (None while it is NULL).
    */
  datatype RankState = RankState(groups: seq<int>, latest: int, newest: Option<nat>)

  /** The ranking after the first k roots, present[n] saying whether root n holds the file. */
  function RankUpTo(present: seq<bool>, mtimes: seq<int>, k: nat): (st: RankState)
    requires |present| == |mtimes| && k <= |present|
    ensures |st.groups| == k
    ensures st.newest.Some? ==> st.newest.value < k
  {
    if k == 0 then RankState([], 0, None)
    else
      var st := RankUpTo(present, mtimes, k - 1);
      var n := k - 1;
      if !present[n] then st.(groups := st.groups + [Missing])
      else match st.newest
        case None => st.(groups := st.groups + [st.latest], newest := Some(n))
        case Some(j) =>
          var c := Compare(mtimes[n], mtimes[j]);
          if c == 0 then st.(groups := st.groups + [st.latest])
          else if c > 0 then RankState(st.groups + [st.latest + 1], st.latest + 1, Some(n))
          else st.(groups := st.groups + [st.latest - 1])
  }

  function Rank(present: seq<bool>, mtimes: seq<int>): RankState
    requires |present| == |mtimes|
  {
    RankUpTo(present, mtimes, |present|)
  }

  predicate AnyPresent(present: seq<bool>)
  {
    exists n :: 0 <= n < |present| && present[n]
  }

  /**
    * What the ranking loop maintains: absent roots and only they are in group
    * -2; present roots are in groups -1 .. latest; newest is the first root
    * holding the largest time seen, and a present root is in the latest group
    * exactly when its time equals that largest time.
    */
  lemma {:induction false} RankInvariant(present: seq<bool>, mtimes: seq<int>, k: nat)
    requires |present| == |mtimes| && k <= |present|
    ensures var st := RankUpTo(present, mtimes, k);
      && st.latest >= 0
      && (st.newest.None? <==> forall n :: 0 <= n < k ==> !present[n])
      && (forall n :: 0 <= n < k ==> (st.groups[n] == Missing <==> !present[n]))
      && (forall n :: 0 <= n < k && present[n] ==> -1 <= st.groups[n] <= st.latest)
      && (st.newest.Some? ==>
            var j := st.newest.value;
            && present[j]
            && st.groups[j] == st.latest
            && (forall n :: 0 <= n < k && present[n] ==> mtimes[n] <= mtimes[j])
            && (forall n :: 0 <= n < j && present[n] ==> mtimes[n] < mtimes[j])
            && (forall n :: 0 <= n < k && present[n] ==> (st.groups[n] == st.latest <==> mtimes[n] == mtimes[j])))
  {
    RankGroups(present, mtimes, k);
    RankNewest(present, mtimes, k);
  }

  /** The group half of RankInvariant: the sentinel, the range of groups, and when newest is set. */
  lemma {:induction false} RankGroups(present: seq<bool>, mtimes: seq<int>, k: nat)
    requires |present| == |mtimes| && k <= |present|
    ensures var st := RankUpTo(present, mtimes, k);
      && st.latest >= 0
      && (st.newest.None? <==> forall n :: 0 <= n < k ==> !present[n])
      && (forall n :: 0 <= n < k ==> (st.groups[n] == Missing <==> !present[n]))
      && (forall n :: 0 <= n < k && present[n] ==> -1 <= st.groups[n] <= st.latest)
  {
    if k > 0 {
      RankGroups(present, mtimes, k - 1);
      var prev := RankUpTo(present, mtimes, k - 1);
      var st := RankUpTo(present, mtimes, k);
      assert st.groups == prev.groups + [st.groups[k - 1]];
      assert prev.latest <= st.latest;
      assert present[k - 1] ==> -1 <= st.groups[k - 1] <= st.latest && st.newest.Some?;
      assert !present[k - 1] ==> st.groups[k - 1] == Missing && st.newest == prev.newest;
    }
  }

  /** The newest half of RankInvariant: newest is the first root with the largest time, in the latest group. */
  lemma {:induction false} RankNewest(present: seq<bool>, mtimes: seq<int>, k: nat)
    requires |present| == |mtimes| && k <= |present|
    ensures var st := RankUpTo(present, mtimes, k);
      st.newest.Some? ==>
        var j := st.newest.value;
        && present[j]
        && st.groups[j] == st.latest
        && (forall n :: 0 <= n < k && present[n] ==> mtimes[n] <= mtimes[j])
        && (forall n :: 0 <= n < j && present[n] ==> mtimes[n] < mtimes[j])
        && (forall n :: 0 <= n < k && present[n] ==> (st.groups[n] == st.latest <==> mtimes[n] == mtimes[j]))
  {
    if k > 0 {
      RankNewest(present, mtimes, k - 1);
      RankGroups(present, mtimes, k - 1);
      var prev := RankUpTo(present, mtimes, k - 1);
      var st := RankUpTo(present, mtimes, k);
      assert st.groups[..k - 1] == prev.groups;
      if present[k - 1] && prev.newest.None? {
        assert forall n :: 0 <= n < k - 1 ==> !present[n];
      }
    }
  }

  /** The ranking when every present root holds the same time never advances. */
  lemma {:induction false} EqualTimesStayInGroupZero(present: seq<bool>, mtimes: seq<int>, k: nat)
    requires |present| == |mtimes| && k <= |present|
    requires forall i, j :: 0 <= i < |present| && 0 <= j < |present| && present[i] && present[j] ==> mtimes[i] == mtimes[j]
    ensures RankUpTo(present, mtimes, k).latest == 0
  {
    if k > 0 {
      EqualTimesStayInGroupZero(present, mtimes, k - 1);
      RankInvariant(present, mtimes, k - 1);
    }
  }

  /** What the second loop of the file branch does for one root. */
  datatype Action = Keep | Copy | Update

  function ActionFor(group: int, latest: int): Action
  {
    if group == Missing then Copy
    else if group < latest then Update
    else Keep
  }

  function Plan(st: RankState): (plan: seq<Action>)
    ensures |plan| == |st.groups|
  {
    seq(|st.groups|, n requires 0 <= n < |st.groups| => ActionFor(st.groups[n], st.latest))
  }

  /**
    * Once some root holds the file: the `latest_index < 0` guard is dead, a
    * root is copied into exactly when it lacks the file, updated exactly when
    * it holds an older file than the newest, and left alone exactly when it
    * holds the newest time; the root chosen as newest is never written.
    */
  lemma PlanClassifiesRoots(present: seq<bool>, mtimes: seq<int>)
    requires |present| == |mtimes|
    requires AnyPresent(present)
    ensures var st := Rank(present, mtimes);
      && st.latest >= 0
      && st.newest.Some?
      && st.newest.value < |present|
      && Plan(st)[st.newest.value] == Keep
      && forall n :: 0 <= n < |present| ==>
          && (Plan(st)[n] == Copy <==> !present[n])
          && (Plan(st)[n] == Update <==> present[n] && mtimes[n] < mtimes[st.newest.value])
          && (Plan(st)[n] == Keep <==> present[n] && mtimes[n] == mtimes[st.newest.value])
  {
    RankInvariant(present, mtimes, |present|);
  }

  /** When every root holding the file holds the same time, nothing is copied or updated into those roots. */
  lemma EqualTimesNeedNoUpdate(present: seq<bool>, mtimes: seq<int>)
    requires |present| == |mtimes|
    requires forall i, j :: 0 <= i < |present| && 0 <= j < |present| && present[i] && present[j] ==> mtimes[i] == mtimes[j]
    ensures var st := Rank(present, mtimes);
      && st.latest == 0
      && forall n :: 0 <= n < |present| && present[n] ==> st.groups[n] == 0 && Plan(st)[n] == Keep
  {
    EqualTimesStayInGroupZero(present, mtimes, |present|);
    RankInvariant(present, mtimes, |present|);
  }
}
