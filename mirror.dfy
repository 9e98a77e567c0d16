/**
  * The directory branch of SyncAction::sync: for each root of the frontier,
  * whether the directory is created there, which FolderCreated event is
  * emitted, and whether the root goes into the child frontier.
  */
module Mirror {
  import opened Options
  import opened FileSystem
  import opened Events

  datatype MirrorResult = MirrorResult(fs: Disk, events: seq<Event>, sub: Frontier)

  /**
    * One root r for the directory `name`; `present` is sf->existsInFolder(r.id).
    * A root that has the directory, or whose own path is not a directory, goes
    * down unchanged with no mkdir and no event; any other root gets one mkdir and
    * one FolderCreated event flagged as an error exactly when mkdir failed, and
    * goes down exactly when mkdir succeeded.
    */
  function MirrorRoot(o: Oracles, fs: Disk, r: Root, name: string, present: bool): (res: MirrorResult)
    ensures var p := r.path + [name];
      && (present || !DirExists(fs, r.path) ==> res == MirrorResult(fs, [], [Root(r.id, p)]))
      && (!present && DirExists(fs, r.path) ==>
            && res.events == [Event(FolderCreated, p, None, !MkdirSucceeds(o, fs, p), None)]
            && (MkdirSucceeds(o, fs, p) ==> res.fs == fs[p := NewDir] && res.sub == [Root(r.id, p)])
            && (!MkdirSucceeds(o, fs, p) ==> res.fs == fs && res.sub == []))
  {
    var p := r.path + [name];
    if !present && DirExists(fs, r.path) then
      if MkdirSucceeds(o, fs, p) then MirrorResult(fs[p := NewDir], [Event(FolderCreated, p, None, false, None)], [Root(r.id, p)])
      else MirrorResult(fs, [Event(FolderCreated, p, None, true, None)], [])
    else MirrorResult(fs, [], [Root(r.id, p)])
  }

  function CountErrors(events: seq<Event>): nat
  {
    if events == [] then 0
    else CountErrors(events[..|events| - 1]) + (if events[|events| - 1].error then 1 else 0)
  }

  lemma {:induction false} CountErrorsAppend(a: seq<Event>, b: seq<Event>)
    ensures CountErrors(a + b) == CountErrors(a) + CountErrors(b)
    decreases |b|
  {
    if b == [] {
      assert a + b == a;
    } else {
      var b' := b[..|b| - 1];
      assert (a + b)[..|a + b| - 1] == a + b';
      CountErrorsAppend(a, b');
    }
  }

  /** The loop of the directory branch over the first k roots of the frontier. */
  function MirrorUpTo(o: Oracles, fs: Disk, frontier: Frontier, name: string, presentIn: set<int>, k: nat): MirrorResult
    requires k <= |frontier|
  {
    if k == 0 then MirrorResult(fs, [], [])
    else
      var prev := MirrorUpTo(o, fs, frontier, name, presentIn, k - 1);
      var one := MirrorRoot(o, prev.fs, frontier[k - 1], name, frontier[k - 1].id in presentIn);
      MirrorResult(one.fs, prev.events + one.events, prev.sub + one.sub)
  }

  /**
    * Over the first k roots: the child frontier holds only roots of the
    * frontier moved down to `name`, and every root that already has the
    * directory; only FolderCreated events are emitted, at most one per root,
    * and a root is missing from the child frontier exactly when its event
    * reports a failed mkdir.
    */
  lemma {:induction false} MirrorUpToFacts(o: Oracles, fs: Disk, frontier: Frontier, name: string, presentIn: set<int>, k: nat)
    requires k <= |frontier|
    ensures var res := MirrorUpTo(o, fs, frontier, name, presentIn, k);
      && (forall s :: s in res.sub ==> exists i :: 0 <= i < k && s == Root(frontier[i].id, frontier[i].path + [name]))
      && (forall i :: 0 <= i < k && frontier[i].id in presentIn ==> Root(frontier[i].id, frontier[i].path + [name]) in res.sub)
      && (forall e :: e in res.events ==> e.kind == FolderCreated && e.path2.None? && e.errorText.None?)
      && |res.events| <= k
      && |res.sub| + CountErrors(res.events) == k
  {
    MirrorSubFacts(o, fs, frontier, name, presentIn, k);
    MirrorEventFacts(o, fs, frontier, name, presentIn, k);
  }

  /** The child frontier half of MirrorUpToFacts. */
  lemma {:induction false} MirrorSubFacts(o: Oracles, fs: Disk, frontier: Frontier, name: string, presentIn: set<int>, k: nat)
    requires k <= |frontier|
    ensures var res := MirrorUpTo(o, fs, frontier, name, presentIn, k);
      && (forall s :: s in res.sub ==> exists i :: 0 <= i < k && s == Root(frontier[i].id, frontier[i].path + [name]))
      && (forall i :: 0 <= i < k && frontier[i].id in presentIn ==> Root(frontier[i].id, frontier[i].path + [name]) in res.sub)
  {
    if k > 0 {
      MirrorSubFacts(o, fs, frontier, name, presentIn, k - 1);
      var prev := MirrorUpTo(o, fs, frontier, name, presentIn, k - 1);
      var r := frontier[k - 1];
      var one := MirrorRoot(o, prev.fs, r, name, r.id in presentIn);
      var down := Root(r.id, r.path + [name]);
      MirrorRootShape(o, prev.fs, r, name, r.id in presentIn);
      var sub := MirrorUpTo(o, fs, frontier, name, presentIn, k).sub;
      assert sub == prev.sub + one.sub;
      forall s | s in sub
        ensures exists i :: 0 <= i < k && s == Root(frontier[i].id, frontier[i].path + [name])
      {
        if s in prev.sub {
          var i :| 0 <= i < k - 1 && s == Root(frontier[i].id, frontier[i].path + [name]);
          assert 0 <= i < k;
        } else {
          assert s == down && s == Root(frontier[k - 1].id, frontier[k - 1].path + [name]);
        }
      }
    }
  }

  /** The event half of MirrorUpToFacts. */
  lemma {:induction false} MirrorEventFacts(o: Oracles, fs: Disk, frontier: Frontier, name: string, presentIn: set<int>, k: nat)
    requires k <= |frontier|
    ensures var res := MirrorUpTo(o, fs, frontier, name, presentIn, k);
      && (forall e :: e in res.events ==> e.kind == FolderCreated && e.path2.None? && e.errorText.None?)
      && |res.events| <= k
      && |res.sub| + CountErrors(res.events) == k
  {
    if k > 0 {
      MirrorEventFacts(o, fs, frontier, name, presentIn, k - 1);
      var prev := MirrorUpTo(o, fs, frontier, name, presentIn, k - 1);
      var r := frontier[k - 1];
      var one := MirrorRoot(o, prev.fs, r, name, r.id in presentIn);
      MirrorRootShape(o, prev.fs, r, name, r.id in presentIn);
      CountErrorsAppend(prev.events, one.events);
      assert MirrorUpTo(o, fs, frontier, name, presentIn, k) == MirrorResult(one.fs, prev.events + one.events, prev.sub + one.sub);
    }
  }

  /** What one root contributes: at most one root down, at most one event, and exactly one of the two unless it fails. */
  lemma MirrorRootShape(o: Oracles, fs: Disk, r: Root, name: string, present: bool)
    ensures var one := MirrorRoot(o, fs, r, name, present);
      var down := Root(r.id, r.path + [name]);
      && (one.sub == [] || one.sub == [down])
      && (present ==> one.sub == [down])
      && |one.events| <= 1
      && CountErrors(one.events) + |one.sub| == 1
      && (forall e :: e in one.events ==> e.kind == FolderCreated && e.path2.None? && e.errorText.None?)
  {
    var one := MirrorRoot(o, fs, r, name, present);
    if one.events != [] {
      assert one.events[..0] == [];
    }
  }

  function MirrorAll(o: Oracles, fs: Disk, frontier: Frontier, name: string, presentIn: set<int>): MirrorResult
  {
    MirrorUpTo(o, fs, frontier, name, presentIn, |frontier|)
  }

  /** Every root of the frontier that holds the directory is in the child frontier. */
  lemma MirrorKeepsHolders(o: Oracles, fs: Disk, frontier: Frontier, name: string, presentIn: set<int>)
    ensures presentIn * Ids(frontier) <= Ids(MirrorAll(o, fs, frontier, name, presentIn).sub)
  {
    var res := MirrorAll(o, fs, frontier, name, presentIn);
    MirrorUpToFacts(o, fs, frontier, name, presentIn, |frontier|);
    forall id | id in presentIn * Ids(frontier) ensures id in Ids(res.sub) {
      var r :| r in frontier && r.id == id;
      var i :| 0 <= i < |frontier| && frontier[i] == r;
      assert Root(r.id, r.path + [name]) in res.sub;
    }
  }

  /** When every root already has the directory, nothing is created or reported and every root goes down. */
  lemma {:induction false} MirrorAllPresent(o: Oracles, fs: Disk, frontier: Frontier, name: string, presentIn: set<int>, k: nat)
    requires k <= |frontier|
    requires Ids(frontier) <= presentIn
    ensures MirrorUpTo(o, fs, frontier, name, presentIn, k) == MirrorResult(fs, [], Moved(frontier[..k], name))
  {
    if k > 0 {
      MirrorAllPresent(o, fs, frontier, name, presentIn, k - 1);
      var r := frontier[k - 1];
      assert r in frontier;
      assert r.id in presentIn;
      var one := MirrorRoot(o, fs, r, name, true);
      assert one == MirrorResult(fs, [], [Root(r.id, r.path + [name])]);
      assert Moved(frontier[..k], name) == Moved(frontier[..k - 1], name) + [Root(frontier[k - 1].id, frontier[k - 1].path + [name])];
    }
  }
}
