/**
  * SyncFile trees and what SyncAction::createSyncFileFromFolders is to build
  * from a frontier: the union of the roots' listings, gated by the exclusion
  * policy, one child per surviving name with the roots holding it.
  */
module Tree {
  import opened FileSystem

  /** SyncFile: a name, whether some root has it as a directory, the ids of the roots holding it, and its children. */
  datatype SyncFile = SyncFile(name: string, isDir: bool, presentIn: set<int>, children: seq<SyncFile>)

  /** The union of the listings of the first k roots whose path is a directory. */
  function EntriesUpTo(fs: Disk, frontier: Frontier, filter: string -> bool, k: nat): set<string>
    requires k <= |frontier|
  {
    if k == 0 then {}
    else
      var prev := EntriesUpTo(fs, frontier, filter, k - 1);
      if DirExists(fs, frontier[k - 1].path) then prev + Listing(fs, frontier[k - 1].path, filter) else prev
  }

  /** A name is in the union exactly when one of the first k roots is a directory listing it. */
  lemma {:induction false} EntriesUpToMembers(fs: Disk, frontier: Frontier, filter: string -> bool, k: nat)
    requires k <= |frontier|
    ensures forall n :: n in EntriesUpTo(fs, frontier, filter, k) <==>
              exists i :: 0 <= i < k && DirExists(fs, frontier[i].path) && n in Listing(fs, frontier[i].path, filter)
  {
    if k > 0 {
      EntriesUpToMembers(fs, frontier, filter, k - 1);
    }
  }

  function Entries(fs: Disk, frontier: Frontier, filter: string -> bool): set<string>
  {
    EntriesUpTo(fs, frontier, filter, |frontier|)
  }

  /** Of `names`, those the exclusion policy rejects under the traversal stack, and those it keeps. */
  function Rejected(names: set<string>, excluded: seq<string> -> bool, stack: seq<string>): set<string>
  {
    set e | e in names && excluded(stack + [e])
  }

  function Kept(names: set<string>, excluded: seq<string> -> bool, stack: seq<string>): set<string>
  {
    set e | e in names && !excluded(stack + [e])
  }

  lemma RejectedKeptAdd(names: set<string>, e: string, excluded: seq<string> -> bool, stack: seq<string>)
    ensures Rejected(names + {e}, excluded, stack) == Rejected(names, excluded, stack) + (if excluded(stack + [e]) then {e} else {})
    ensures Kept(names + {e}, excluded, stack) == Kept(names, excluded, stack) + (if excluded(stack + [e]) then {} else {e})
  {
  }

  function ExcludedNames(fs: Disk, frontier: Frontier, filter: string -> bool, excluded: seq<string> -> bool, stack: seq<string>): set<string>
  {
    Rejected(Entries(fs, frontier, filter), excluded, stack)
  }

  function Survivors(fs: Disk, frontier: Frontier, filter: string -> bool, excluded: seq<string> -> bool, stack: seq<string>): set<string>
  {
    Kept(Entries(fs, frontier, filter), excluded, stack)
  }

  /** sf->addFolder for the first k roots: the ids of the roots where `name` exists. */
  function PresentUpTo(fs: Disk, frontier: Frontier, name: string, k: nat): (ids: set<int>)
    requires k <= |frontier|
    ensures forall id :: id in ids <==> exists i :: 0 <= i < k && frontier[i].id == id && frontier[i].path + [name] in fs
  {
    if k == 0 then {}
    else
      var prev := PresentUpTo(fs, frontier, name, k - 1);
      if frontier[k - 1].path + [name] in fs then prev + {frontier[k - 1].id} else prev
  }

  function PresentIn(fs: Disk, frontier: Frontier, name: string): set<int>
  {
    PresentUpTo(fs, frontier, name, |frontier|)
  }

  /** child_dirs_fag for the first k roots: the roots where `name` is a directory, moved down to it, in frontier order. */
  function ChildFrontierUpTo(fs: Disk, frontier: Frontier, name: string, k: nat): (sub: Frontier)
    requires k <= |frontier|
    ensures forall s :: s in sub ==>
              exists i :: 0 <= i < k && s == Root(frontier[i].id, frontier[i].path + [name]) && DirExists(fs, s.path)
    ensures forall i :: 0 <= i < k && DirExists(fs, frontier[i].path + [name]) ==> Root(frontier[i].id, frontier[i].path + [name]) in sub
  {
    if k == 0 then []
    else
      var prev := ChildFrontierUpTo(fs, frontier, name, k - 1);
      var r := frontier[k - 1];
      if DirExists(fs, r.path + [name]) then prev + [Root(r.id, r.path + [name])] else prev
  }

  function ChildFrontier(fs: Disk, frontier: Frontier, name: string): Frontier
  {
    ChildFrontierUpTo(fs, frontier, name, |frontier|)
  }

  /**
    * node's children are what the builder makes of `frontier` under the
    * traversal `stack`: one child per surviving name and no other, each built
    * as ChildBuilt says.
    */
  ghost predicate Built(fs: Disk, filter: string -> bool, excluded: seq<string> -> bool, frontier: Frontier, stack: seq<string>, node: SyncFile)
    decreases node, 0
  {
    && (forall i, j :: 0 <= i < j < |node.children| ==> node.children[i].name != node.children[j].name)
    && (forall e :: e in Survivors(fs, frontier, filter, excluded, stack) <==> exists c :: c in node.children && c.name == e)
    && forall c :: c in node.children ==> ChildBuilt(fs, filter, excluded, frontier, stack, c)
  }

  /**
    * A child records exactly the roots holding its name, is a directory exactly
    * when some root has it as one, and has the children built from the child
    * frontier when that is non-empty and none otherwise.
    */
  ghost predicate ChildBuilt(fs: Disk, filter: string -> bool, excluded: seq<string> -> bool, frontier: Frontier, stack: seq<string>, c: SyncFile)
    decreases c, 1
  {
    var sub := ChildFrontier(fs, frontier, c.name);
    && c.presentIn == PresentIn(fs, frontier, c.name)
    && c.isDir == (sub != [])
    && (if sub == [] then c.children == [] else Built(fs, filter, excluded, sub, stack + [c.name], c))
  }

  /**
    * skipped_count's growth while building node's children: every excluded
    * name at this level, plus what the recursive calls skipped.
    */
  function Skips(fs: Disk, filter: string -> bool, excluded: seq<string> -> bool, frontier: Frontier, stack: seq<string>, node: SyncFile): nat
    decreases node, |node.children| + 1
  {
    |ExcludedNames(fs, frontier, filter, excluded, stack)| + ChildSkips(fs, filter, excluded, frontier, stack, node, |node.children|)
  }

  /** What the recursive calls for node's first k children skipped. */
  function ChildSkips(fs: Disk, filter: string -> bool, excluded: seq<string> -> bool, frontier: Frontier, stack: seq<string>, node: SyncFile, k: nat): nat
    requires k <= |node.children|
    decreases node, k
  {
    if k == 0 then 0
    else
      var c := node.children[k - 1];
      var sub := ChildFrontier(fs, frontier, c.name);
      ChildSkips(fs, filter, excluded, frontier, stack, node, k - 1)
        + (if sub == [] then 0 else Skips(fs, filter, excluded, sub, stack + [c.name], c))
  }

  /** ChildSkips over the first k children depends on those children only. */
  lemma {:induction false} ChildSkipsPrefix(fs: Disk, filter: string -> bool, excluded: seq<string> -> bool, frontier: Frontier, stack: seq<string>, a: SyncFile, b: SyncFile, k: nat)
    requires k <= |a.children| && k <= |b.children|
    requires a.children[..k] == b.children[..k]
    ensures ChildSkips(fs, filter, excluded, frontier, stack, a, k) == ChildSkips(fs, filter, excluded, frontier, stack, b, k)
  {
    if k > 0 {
      assert a.children[k - 1] == a.children[..k][k - 1];
      assert b.children[k - 1] == b.children[..k][k - 1];
      assert a.children[..k - 1] == a.children[..k][..k - 1];
      assert b.children[..k - 1] == b.children[..k][..k - 1];
      ChildSkipsPrefix(fs, filter, excluded, frontier, stack, a, b, k - 1);
    }
  }

  /** Appending one child adds what the recursive call for it skipped. */
  lemma ChildSkipsAppend(fs: Disk, filter: string -> bool, excluded: seq<string> -> bool, frontier: Frontier, stack: seq<string>, node: SyncFile, child: SyncFile)
    ensures var grown := node.(children := node.children + [child]);
      var sub := ChildFrontier(fs, frontier, child.name);
      ChildSkips(fs, filter, excluded, frontier, stack, grown, |grown.children|)
        == ChildSkips(fs, filter, excluded, frontier, stack, node, |node.children|)
           + (if sub == [] then 0 else Skips(fs, filter, excluded, sub, stack + [child.name], child))
  {
    var grown := node.(children := node.children + [child]);
    assert grown.children[..|node.children|] == node.children[..|node.children|];
    ChildSkipsPrefix(fs, filter, excluded, frontier, stack, node, grown, |node.children|);
  }

  function Names(children: seq<SyncFile>): set<string>
  {
    set c | c in children :: c.name
  }

  lemma NamesAppend(children: seq<SyncFile>, child: SyncFile)
    ensures Names(children + [child]) == Names(children) + {child.name}
  {
    assert forall c :: c in children + [child] <==> c in children || c == child;
  }

  /** The three facts the builder's loop establishes make up Built. */
  lemma BuiltFromChildren(fs: Disk, filter: string -> bool, excluded: seq<string> -> bool, frontier: Frontier, stack: seq<string>, node: SyncFile)
    requires forall i, j :: 0 <= i < j < |node.children| ==> node.children[i].name != node.children[j].name
    requires Names(node.children) == Survivors(fs, frontier, filter, excluded, stack)
    requires forall c :: c in node.children ==> ChildBuilt(fs, filter, excluded, frontier, stack, c)
    ensures Built(fs, filter, excluded, frontier, stack, node)
  {
    forall e ensures e in Survivors(fs, frontier, filter, excluded, stack) <==> exists c :: c in node.children && c.name == e {
      if e in Names(node.children) {
        var c :| c in node.children && c.name == e;
      }
    }
  }

  /**
    * The builder's loop after visiting the names in `done`: the rejected ones
    * are `skipped`, and `children` holds one ChildBuilt child per kept one.
    */
  ghost predicate Building(fs: Disk, filter: string -> bool, excluded: seq<string> -> bool, frontier: Frontier, stack: seq<string>,
                           children: seq<SyncFile>, done: set<string>, skipped: set<string>)
  {
    && skipped == Rejected(done, excluded, stack)
    && Names(children) == Kept(done, excluded, stack)
    && (forall i, j :: 0 <= i < j < |children| ==> children[i].name != children[j].name)
    && (forall c :: c in children ==> ChildBuilt(fs, filter, excluded, frontier, stack, c))
  }

  lemma BuildingStart(fs: Disk, filter: string -> bool, excluded: seq<string> -> bool, frontier: Frontier, stack: seq<string>)
    ensures Building(fs, filter, excluded, frontier, stack, [], {}, {})
  {
  }

  lemma BuildingSkip(fs: Disk, filter: string -> bool, excluded: seq<string> -> bool, frontier: Frontier, stack: seq<string>,
                     children: seq<SyncFile>, done: set<string>, skipped: set<string>, entry: string)
    requires Building(fs, filter, excluded, frontier, stack, children, done, skipped)
    requires entry !in done && excluded(stack + [entry])
    ensures entry !in skipped
    ensures Building(fs, filter, excluded, frontier, stack, children, done + {entry}, skipped + {entry})
  {
    RejectedKeptAdd(done, entry, excluded, stack);
  }

  lemma BuildingAdd(fs: Disk, filter: string -> bool, excluded: seq<string> -> bool, frontier: Frontier, stack: seq<string>,
                    children: seq<SyncFile>, done: set<string>, skipped: set<string>, child: SyncFile)
    requires Building(fs, filter, excluded, frontier, stack, children, done, skipped)
    requires child.name !in done && !excluded(stack + [child.name])
    requires ChildBuilt(fs, filter, excluded, frontier, stack, child)
    ensures Building(fs, filter, excluded, frontier, stack, children + [child], done + {child.name}, skipped)
  {
    RejectedKeptAdd(done, child.name, excluded, stack);
    assert child.name !in Names(children);
    NamesAppend(children, child);
  }

  /** When the loop has visited every name, node is Built and the skip count is complete. */
  lemma BuildingDone(fs: Disk, filter: string -> bool, excluded: seq<string> -> bool, frontier: Frontier, stack: seq<string>,
                     node: SyncFile, skipped: set<string>, count: int, base: int)
    requires Building(fs, filter, excluded, frontier, stack, node.children, Entries(fs, frontier, filter), skipped)
    requires count == base + |skipped| + ChildSkips(fs, filter, excluded, frontier, stack, node, |node.children|)
    ensures count == base + Skips(fs, filter, excluded, frontier, stack, node)
    ensures Built(fs, filter, excluded, frontier, stack, node)
  {
    BuiltFromChildren(fs, filter, excluded, frontier, stack, node);
  }

  /**
    * Every child of node is held by some root in ids, and the same holds one
    * level down with the child's own roots: a file node always has a root
    * that can serve as the newest copy.
    */
  ghost predicate Covered(node: SyncFile, ids: set<int>)
    decreases node
  {
    forall c :: c in node.children ==> c.presentIn != {} && c.presentIn <= ids && Covered(c, c.presentIn)
  }

  lemma CoveredWiden(node: SyncFile, ids: set<int>, ids': set<int>)
    requires Covered(node, ids) && ids <= ids'
    ensures Covered(node, ids')
  {
  }

  /** A built tree is covered by its frontier. */
  lemma {:induction false} BuiltCovered(fs: Disk, filter: string -> bool, excluded: seq<string> -> bool, frontier: Frontier, stack: seq<string>, node: SyncFile)
    requires Built(fs, filter, excluded, frontier, stack, node)
    ensures Covered(node, Ids(frontier))
    decreases node
  {
    forall c | c in node.children
      ensures c.presentIn != {} && c.presentIn <= Ids(frontier) && Covered(c, c.presentIn)
    {
      assert ChildBuilt(fs, filter, excluded, frontier, stack, c);
      assert c.name in Survivors(fs, frontier, filter, excluded, stack);
      EntriesUpToMembers(fs, frontier, filter, |frontier|);
      var i :| 0 <= i < |frontier| && DirExists(fs, frontier[i].path) && c.name in Listing(fs, frontier[i].path, filter);
      ListingMembers(fs, frontier[i].path, filter);
      assert frontier[i].id in c.presentIn;
      forall id | id in c.presentIn ensures id in Ids(frontier) {
        var j :| 0 <= j < |frontier| && frontier[j].id == id && frontier[j].path + [c.name] in fs;
        assert frontier[j] in frontier;
      }
      var sub := ChildFrontier(fs, frontier, c.name);
      if sub != [] {
        BuiltCovered(fs, filter, excluded, sub, stack + [c.name], c);
        forall id | id in Ids(sub) ensures id in c.presentIn {
          var s :| s in sub && s.id == id;
          var j :| 0 <= j < |frontier| && s == Root(frontier[j].id, frontier[j].path + [c.name]) && DirExists(fs, s.path);
        }
        CoveredWiden(c, Ids(sub), c.presentIn);
      }
    }
  }

  /** Every finite set of paths has a bound on their lengths. */
  lemma {:induction false} DepthBound(paths: set<Path>) returns (bound: nat)
    ensures forall p :: p in paths ==> |p| <= bound
    decreases paths
  {
    if paths == {} {
      bound := 0;
    } else {
      var p :| p in paths;
      var rest := DepthBound(paths - {p});
      bound := if |p| > rest then |p| else rest;
    }
  }
}
