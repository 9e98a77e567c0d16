/**
  * SyncAction: builds the SyncFile tree of all roots, then walks it, creating
  * missing directories and copying the newest version of every file into the
  * roots that lack it or hold an older one, reporting each operation as an event.
  */
module SyncActions {
  import opened Options
  import opened FileSystem
  import opened Events
  import opened Ranking
  import opened Transfer
  import opened Mirror
  import opened Tree
  import opened Exclusion

  /** QFileInfo::lastModified as compared by FileCompare; an absent path reads as time 0. */
  function MTime(fs: Disk, p: Path): int
  {
    if p in fs then fs[p].mtime else 0
  }

  /** sf->existsInFolder for every root of the frontier, in order. */
  function Presence(frontier: Frontier, presentIn: set<int>): (present: seq<bool>)
    ensures |present| == |frontier|
  {
    seq(|frontier|, n requires 0 <= n < |frontier| => frontier[n].id in presentIn)
  }

  function MTimes(fs: Disk, frontier: Frontier, name: string): (mtimes: seq<int>)
    ensures |mtimes| == |frontier|
  {
    seq(|frontier|, n requires 0 <= n < |frontier| => MTime(fs, frontier[n].path + [name]))
  }

  function Dests(frontier: Frontier, name: string): (dests: seq<Path>)
    ensures |dests| == |frontier|
  {
    seq(|frontier|, n requires 0 <= n < |frontier| => frontier[n].path + [name])
  }

  /** Some root of the frontier holds a file whose presence set is non-empty and within the frontier. */
  lemma SomeRootHolds(frontier: Frontier, presentIn: set<int>)
    requires presentIn != {} && presentIn <= Ids(frontier)
    ensures AnyPresent(Presence(frontier, presentIn))
  {
    var id :| id in presentIn;
    var r :| r in frontier && r.id == id;
    var n :| 0 <= n < |frontier| && frontier[n] == r;
    assert Presence(frontier, presentIn)[n];
  }

  /**
    * The tree is already in sync with the frontier: every root holds every
    * entry, and every file has the same time in every root.
    */
  ghost predicate InSync(fs: Disk, node: SyncFile, frontier: Frontier)
    decreases node
  {
    forall c :: c in node.children ==>
      && Ids(frontier) <= c.presentIn
      && (c.isDir ==> InSync(fs, c, Moved(frontier, c.name)))
      && (!c.isDir ==> forall i, j :: 0 <= i < |frontier| && 0 <= j < |frontier| ==>
                         MTimes(fs, frontier, c.name)[i] == MTimes(fs, frontier, c.name)[j])
  }

  /** A file every root holds with the same time needs no transfer at all. */
  lemma FileInSyncUnchanged(o: Oracles, fs: Disk, sf: SyncFile, frontier: Frontier)
    requires Ids(frontier) <= sf.presentIn
    requires forall i, j :: 0 <= i < |frontier| && 0 <= j < |frontier| ==>
               MTimes(fs, frontier, sf.name)[i] == MTimes(fs, frontier, sf.name)[j]
    ensures var st := Rank(Presence(frontier, sf.presentIn), MTimes(fs, frontier, sf.name));
      forall src :: TransfersUpTo(o, fs, src, Plan(st), Dests(frontier, sf.name), |frontier|) == Outcome(fs, [])
  {
    var present, mtimes := Presence(frontier, sf.presentIn), MTimes(fs, frontier, sf.name);
    forall n | 0 <= n < |frontier| ensures present[n] {
      assert frontier[n] in frontier;
    }
    EqualTimesNeedNoUpdate(present, mtimes);
    var st := Rank(present, mtimes);
    forall src {
      KeepAllChangesNothing(o, fs, src, Plan(st), Dests(frontier, sf.name), |frontier|);
    }
  }

  class SyncAction {
    /** The filesystem all roots live on. */
    var fs: Disk
    /** The syncOutMessage signals emitted so far. */
    var events: seq<Event>
    var skippedCount: nat
    const bundle: ExceptionBundle
    const oracles: Oracles

    constructor(fs: Disk, bundle: ExceptionBundle, oracles: Oracles)
      ensures this.fs == fs && events == [] && skippedCount == 0
      ensures this.bundle == bundle && this.oracles == oracles
    {
      this.fs := fs;
      events := [];
      skippedCount := 0;
      this.bundle := bundle;
      this.oracles := oracles;
    }

    /**
      * run: build the tree of all roots from a fresh frontier, then sync it
      * against another fresh frontier over the same roots.
      */
    method Run(roots: Frontier)
      modifies this`skippedCount, this`fs, this`events, bundle`stack
      ensures bundle.stack == old(bundle.stack)
      ensures old(events) <= events
    {
      skippedCount := 0;
      ghost var bound := DepthBound(fs.Keys);
      var tree := CreateSyncFileFromFolders(SyncFile("/", false, {}, []), roots, 0, bound);
      BuiltCovered(fs, bundle.filter, bundle.excluded, roots, old(bundle.stack), tree);
      Sync(tree, roots);
    }

    /**
      * createSyncFileFromFolders: give `parent` one child per name listed in
      * some root of the frontier and not blacklisted, recursing depth-first
      * into the roots where the name is a directory. Every blacklisted name is
      * counted once in skipped_count, and the traversal stack is left as found.
      * The ghost depth and bound only bound the recursion by the deepest path.
      */
    method CreateSyncFileFromFolders(parent: SyncFile, frontier: Frontier, ghost depth: nat, ghost bound: nat) returns (node: SyncFile)
      requires parent.children == []
      requires forall p :: p in fs ==> |p| <= bound
      requires forall r :: r in frontier ==> depth <= |r.path|
      requires depth <= bound + 1
      modifies this`skippedCount, bundle`stack
      ensures node == parent.(children := node.children)
      ensures bundle.stack == old(bundle.stack)
      ensures Built(fs, bundle.filter, bundle.excluded, frontier, old(bundle.stack), node)
      ensures skippedCount == old(skippedCount) + Skips(fs, bundle.filter, bundle.excluded, frontier, old(bundle.stack), node)
      decreases bound + 1 - depth, 3
    {
      var entries := UnionOfListings(frontier);
      ghost var skipped;
      var children;
      children, skipped := VisitEntries(parent, entries, frontier, depth, bound);
      node := parent.(children := children);
      BuildingDone(fs, bundle.filter, bundle.excluded, frontier, bundle.stack, node, skipped, skippedCount, old(skippedCount));
    }

    /**
      * The loop over the names of createSyncFileFromFolders, in whatever order
      * the set yields them: each is visited once, and the blacklisted ones are
      * gathered in `skipped`.
      */
    method VisitEntries(parent: SyncFile, entries: set<string>, frontier: Frontier, ghost depth: nat, ghost bound: nat)
      returns (children: seq<SyncFile>, ghost skipped: set<string>)
      requires forall p :: p in fs ==> |p| <= bound
      requires forall r :: r in frontier ==> depth <= |r.path|
      requires depth <= bound + 1
      modifies this`skippedCount, bundle`stack
      ensures bundle.stack == old(bundle.stack)
      ensures Building(fs, bundle.filter, bundle.excluded, frontier, bundle.stack, children, entries, skipped)
      ensures skippedCount == old(skippedCount) + |skipped| + ChildSkips(fs, bundle.filter, bundle.excluded, frontier, bundle.stack, parent.(children := children), |children|)
      decreases bound + 1 - depth, 2
    {
      ghost var stack := bundle.stack;
      ghost var filter, excluded := bundle.filter, bundle.excluded;
      children := [];
      var remaining := entries;
      ghost var done: set<string> := {};
      skipped := {};
      BuildingStart(fs, filter, excluded, frontier, stack);
      while remaining != {}
        invariant done + remaining == entries && done !! remaining
        invariant bundle.stack == stack
        invariant Building(fs, filter, excluded, frontier, stack, children, done, skipped)
        invariant skippedCount == old(skippedCount) + |skipped| + ChildSkips(fs, filter, excluded, frontier, stack, parent.(children := children), |children|)
        decreases remaining
      {
        var entry :| entry in remaining;
        remaining := remaining - {entry};
        ghost var skipped';
        children, skipped' := VisitEntry(parent, entry, frontier, children, done, skipped, depth, bound);
        done, skipped := done + {entry}, skipped';
      }
    }

    /**
      * The body of the loop over the names: enter the name; count it as
      * skipped when blacklisted, otherwise add its child; leave it again.
      */
    method VisitEntry(parent: SyncFile, entry: string, frontier: Frontier, children: seq<SyncFile>,
                      ghost done: set<string>, ghost skipped: set<string>, ghost depth: nat, ghost bound: nat)
      returns (children': seq<SyncFile>, ghost skipped': set<string>)
      requires Building(fs, bundle.filter, bundle.excluded, frontier, bundle.stack, children, done, skipped)
      requires entry !in done
      requires forall p :: p in fs ==> |p| <= bound
      requires forall r :: r in frontier ==> depth <= |r.path|
      requires depth <= bound + 1
      modifies this`skippedCount, bundle`stack
      ensures bundle.stack == old(bundle.stack)
      ensures bundle.excluded(old(bundle.stack) + [entry]) ==> children' == children && skippedCount == old(skippedCount) + 1
      ensures !bundle.excluded(old(bundle.stack) + [entry]) ==>
        && |children'| == |children| + 1 && children'[..|children|] == children
        && children'[|children|].name == entry
        && ChildBuilt(fs, bundle.filter, bundle.excluded, frontier, old(bundle.stack), children'[|children|])
      ensures Building(fs, bundle.filter, bundle.excluded, frontier, bundle.stack, children', done + {entry}, skipped')
      ensures skippedCount + |skipped| + ChildSkips(fs, bundle.filter, bundle.excluded, frontier, bundle.stack, parent.(children := children), |children|)
              == old(skippedCount) + |skipped'| + ChildSkips(fs, bundle.filter, bundle.excluded, frontier, bundle.stack, parent.(children := children'), |children'|)
      decreases bound + 1 - depth, 1
    {
      ghost var stack, filter, excluded := bundle.stack, bundle.filter, bundle.excluded;
      var isExcluded := bundle.CdAndCheck(entry);
      if isExcluded {
        BuildingSkip(fs, filter, excluded, frontier, stack, children, done, skipped, entry);
        skippedCount := skippedCount + 1;
        children', skipped' := children, skipped + {entry};
      } else {
        var child := AddChild(entry, frontier, depth, bound);
        BuildingAdd(fs, filter, excluded, frontier, stack, children, done, skipped, child);
        ChildSkipsAppend(fs, filter, excluded, frontier, stack, parent.(children := children), child);
        children', skipped' := children + [child], skipped;
      }
      bundle.CdUp();
    }

    /** The first loop of createSyncFileFromFolders: unite the listings of the roots that exist. */
    method UnionOfListings(frontier: Frontier) returns (entries: set<string>)
      ensures entries == Entries(fs, frontier, bundle.filter)
    {
      entries := {};
      var i := 0;
      while i < |frontier|
        invariant 0 <= i <= |frontier|
        invariant entries == EntriesUpTo(fs, frontier, bundle.filter, i)
      {
        if DirExists(fs, frontier[i].path) {
          entries := entries + Listing(fs, frontier[i].path, bundle.filter);
        }
        i := i + 1;
      }
    }

    /**
      * One name that is not blacklisted, with the traversal stack already
      * entered into it: record the roots holding it, mark it a directory when
      * some root has it as one, and build its subtree from those roots.
      */
    method AddChild(entry: string, frontier: Frontier, ghost depth: nat, ghost bound: nat) returns (child: SyncFile)
      requires |bundle.stack| > 0 && bundle.stack[|bundle.stack| - 1] == entry
      requires forall p :: p in fs ==> |p| <= bound
      requires forall r :: r in frontier ==> depth <= |r.path|
      requires depth <= bound + 1
      modifies this`skippedCount, bundle`stack
      ensures child.name == entry
      ensures bundle.stack == old(bundle.stack)
      ensures ChildBuilt(fs, bundle.filter, bundle.excluded, frontier, old(bundle.stack)[..|old(bundle.stack)| - 1], child)
      ensures var sub := ChildFrontier(fs, frontier, entry);
        skippedCount == old(skippedCount) + if sub == [] then 0 else Skips(fs, bundle.filter, bundle.excluded, sub, old(bundle.stack), child)
      decreases bound + 1 - depth, 0
    {
      var presentIn: set<int> := {};
      var isDir := false;
      var childFrontier: Frontier := [];
      var n := 0;
      while n < |frontier|
        invariant 0 <= n <= |frontier|
        invariant presentIn == PresentUpTo(fs, frontier, entry, n)
        invariant childFrontier == ChildFrontierUpTo(fs, frontier, entry, n)
        invariant isDir == (childFrontier != [])
      {
        var p := frontier[n].path + [entry];
        if p in fs {
          presentIn := presentIn + {frontier[n].id};
          if fs[p].isDir {
            isDir := true;
            childFrontier := childFrontier + [Root(frontier[n].id, p)];
          }
        }
        n := n + 1;
      }
      child := SyncFile(entry, isDir, presentIn, []);
      assert bundle.stack == bundle.stack[..|bundle.stack| - 1] + [entry];
      if childFrontier != [] {
        forall s | s in childFrontier ensures depth + 1 <= |s.path| {
          var k :| 0 <= k < |frontier| && s == Root(frontier[k].id, frontier[k].path + [entry]) && DirExists(fs, s.path);
          assert frontier[k] in frontier;
        }
        assert depth + 1 <= bound by {
          assert childFrontier[0] in childFrontier;
        }
        child := CreateSyncFileFromFolders(child, childFrontier, depth + 1, bound);
      }
    }

    /**
      * sync: for each child, a directory is mirrored into every root and
      * synced recursively with the roots that can hold it; a file is brought
      * to its newest version in every root. Events are only appended, and a
      * tree already in sync with the frontier leaves everything unchanged.
      */
    method Sync(parent: SyncFile, frontier: Frontier)
      requires Covered(parent, Ids(frontier))
      modifies this`fs, this`events
      ensures old(events) <= events
      ensures InSync(old(fs), parent, frontier) ==> events == old(events) && fs == old(fs)
      decreases parent
    {
      var groups := new int[|frontier|];
      var i := 0;
      while i < |parent.children|
        invariant 0 <= i <= |parent.children|
        invariant groups.Length == |frontier|
        invariant old(events) <= events
        invariant InSync(old(fs), parent, frontier) ==> events == old(events) && fs == old(fs)
      {
        var sf := parent.children[i];
        assert sf in parent.children;
        ghost var fs0, events0 := fs, events;
        ghost var inSync := InSync(old(fs), parent, frontier);
        if sf.isDir {
          var sub := MirrorDirectory(sf, frontier);
          MirrorKeepsHolders(oracles, fs0, frontier, sf.name, sf.presentIn);
          CoveredWiden(sf, sf.presentIn, Ids(sub));
          if inSync {
            MirrorAllPresent(oracles, fs0, frontier, sf.name, sf.presentIn, |frontier|);
            assert frontier[..|frontier|] == frontier;
          }
          Sync(sf, sub);
        } else {
          SomeRootHolds(frontier, sf.presentIn);
          SyncFileEntry(sf, frontier, groups);
          if inSync {
            FileInSyncUnchanged(oracles, fs0, sf, frontier);
          }
        }
        i := i + 1;
      }
    }

    /**
      * The directory branch for one child: mkdir where it is missing and the
      * root's path exists, one FolderCreated event per mkdir, and the child
      * frontier of the roots that can hold the directory.
      */
    method MirrorDirectory(sf: SyncFile, frontier: Frontier) returns (sub: Frontier)
      modifies this`fs, this`events
      ensures var res := MirrorAll(oracles, old(fs), frontier, sf.name, sf.presentIn);
        fs == res.fs && events == old(events) + res.events && sub == res.sub
    {
      sub := [];
      var n := 0;
      while n < |frontier|
        invariant 0 <= n <= |frontier|
        invariant var res := MirrorUpTo(oracles, old(fs), frontier, sf.name, sf.presentIn, n);
          fs == res.fs && events == old(events) + res.events && sub == res.sub
      {
        var dir := frontier[n].path;
        var p := dir + [sf.name];
        ghost var prev := MirrorUpTo(oracles, old(fs), frontier, sf.name, sf.presentIn, n);
        ghost var one := MirrorRoot(oracles, fs, frontier[n], sf.name, frontier[n].id in sf.presentIn);
        assert MirrorUpTo(oracles, old(fs), frontier, sf.name, sf.presentIn, n + 1)
            == MirrorResult(one.fs, prev.events + one.events, prev.sub + one.sub);
        if frontier[n].id !in sf.presentIn {
          if DirExists(fs, dir) {
            if !MkdirSucceeds(oracles, fs, p) {
              events := events + [Event(FolderCreated, p, None, true, None)];
              n := n + 1;
              continue;
            } else {
              fs := fs[p := NewDir];
              events := events + [Event(FolderCreated, p, None, false, None)];
            }
          }
        }
        sub := sub + [Root(frontier[n].id, p)];
        n := n + 1;
      }
    }

    /**
      * The file branch for one child: rank the roots, then copy the newest
      * file into every root without it and update every root with an older one.
      */
    method SyncFileEntry(sf: SyncFile, frontier: Frontier, groups: array<int>)
      requires groups.Length == |frontier|
      requires AnyPresent(Presence(frontier, sf.presentIn))
      modifies this`fs, this`events, groups
      ensures var st := Rank(Presence(frontier, sf.presentIn), MTimes(old(fs), frontier, sf.name));
        && st.newest.Some? && st.newest.value < |frontier|
        && groups[..] == st.groups
        && var out := TransfersUpTo(oracles, old(fs), frontier[st.newest.value].path + [sf.name], Plan(st), Dests(frontier, sf.name), |frontier|);
           fs == out.fs && events == old(events) + out.events
    {
      var latest, newest := RankRoots(sf, frontier, groups);
      if latest >= 0 {
        ghost var st := Rank(Presence(frontier, sf.presentIn), MTimes(fs, frontier, sf.name));
        ApplyPlan(frontier[newest].path + [sf.name], frontier, sf.name, groups, latest, Plan(st));
      }
    }

    /**
      * The second loop of the file branch: copyFile into every root whose group
      * is -2, updateFile into every root whose group is below latest_index.
      */
    method ApplyPlan(src: Path, frontier: Frontier, name: string, groups: array<int>, latest: int, ghost plan: seq<Action>)
      requires groups.Length == |frontier| == |plan|
      requires forall n :: 0 <= n < |plan| ==> plan[n] == ActionFor(groups[n], latest)
      modifies this`fs, this`events
      ensures var out := TransfersUpTo(oracles, old(fs), src, plan, Dests(frontier, name), |frontier|);
        fs == out.fs && events == old(events) + out.events
    {
      ghost var dests := Dests(frontier, name);
      var n := 0;
      while n < |frontier|
        invariant 0 <= n <= |frontier|
        invariant var out := TransfersUpTo(oracles, old(fs), src, plan, dests, n);
          fs == out.fs && events == old(events) + out.events
      {
        var dest := frontier[n].path + [name];
        assert plan[n] == ActionFor(groups[n], latest) && dests[n] == dest;
        if groups[n] == Missing {
          CopyFile(src, dest);
        } else if groups[n] < latest {
          UpdateFile(src, dest);
        }
        n := n + 1;
      }
    }

    /** The first loop of the file branch: fill latest_index_arr and find the newest root. */
    method RankRoots(sf: SyncFile, frontier: Frontier, groups: array<int>) returns (latest: int, newest: nat)
      requires groups.Length == |frontier|
      requires AnyPresent(Presence(frontier, sf.presentIn))
      modifies groups
      ensures var st := Rank(Presence(frontier, sf.presentIn), MTimes(fs, frontier, sf.name));
        groups[..] == st.groups && latest == st.latest && st.newest == Some(newest) && newest < |frontier| && latest >= 0
    {
      ghost var present, mtimes := Presence(frontier, sf.presentIn), MTimes(fs, frontier, sf.name);
      latest := 0;
      var newestFile: Option<nat> := None;
      var n := 0;
      while n < |frontier|
        invariant 0 <= n <= |frontier|
        invariant var st := RankUpTo(present, mtimes, n);
          groups[..n] == st.groups && latest == st.latest && newestFile == st.newest
      {
        var p := frontier[n].path + [sf.name];
        if frontier[n].id in sf.presentIn {
          match newestFile {
            case None =>
              newestFile := Some(n);
              groups[n] := latest;
            case Some(j) =>
              var c := Compare(MTime(fs, p), MTime(fs, frontier[j].path + [sf.name]));
              if c == 0 {
                groups[n] := latest;
              } else if c > 0 {
                newestFile := Some(n);
                latest := latest + 1;
                groups[n] := latest;
              } else {
                groups[n] := latest - 1;
              }
          }
        } else {
          groups[n] := Missing;
        }
        assert groups[..n + 1] == groups[..n] + [groups[n]];
        n := n + 1;
      }
      assert groups[..] == groups[..n];
      RankInvariant(present, mtimes, n);
      newest := newestFile.value;
    }

    /** copyFile: one FileCopied event, an error exactly when the copy failed. */
    method CopyFile(src: Path, dest: Path)
      modifies this`fs, this`events
      ensures var out := CopyOutcome(oracles, old(fs), src, dest);
        fs == out.fs && events == old(events) + out.events
    {
      if CopySucceeds(oracles, fs, src, dest) {
        fs := fs[dest := fs[src]];
        events := events + [Event(FileCopied, src, Some(dest), false, None)];
      } else {
        events := events + [Event(FileCopied, src, Some(dest), true, Some(oracles.errorText(src)))];
      }
    }

    /** updateFile: backup, remove, copy, stopping at the first failure. */
    method UpdateFile(src: Path, dest: Path)
      modifies this`fs, this`events
      ensures var out := UpdateOutcome(oracles, old(fs), Backup(dest), src, dest);
        fs == out.fs && events == old(events) + out.events
    {
      var backedUp := BackupFile(dest);
      if !backedUp {
        return;
      }
      if !RemoveSucceeds(oracles, fs, dest) {
        events := events + [Event(FileUpdated, src, Some(dest), true, Some(oracles.errorText(dest)))];
        return;
      }
      fs := fs - {dest};
      if !CopySucceeds(oracles, fs, src, dest) {
        events := events + [Event(FileUpdated, src, Some(dest), true, Some(oracles.errorText(src)))];
      } else {
        fs := fs[dest := fs[src]];
        events := events + [Event(FileUpdated, src, Some(dest), false, None)];
      }
    }

    /** backupFile: the backup itself is disabled; it always reports success. */
    method BackupFile(dest: Path) returns (ok: bool)
      ensures ok
    {
      ok := true;
    }
  }
}
