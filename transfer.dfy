/**
  * The effect of SyncAction::copyFile and SyncAction::updateFile on the
  * filesystem and on the event stream, as functions of the state before the call.
  */
module Transfer {
  import opened Options
  import opened FileSystem
  import opened Events
  import opened Ranking

  datatype Outcome = Outcome(fs: Disk, events: seq<Event>)

  /**
    * copyFile: exactly one FileCopied event, flagged as an error exactly when
    * the copy primitive failed; the destination receives the source file on
    * success and nothing changes on failure.
    */
  function CopyOutcome(o: Oracles, fs: Disk, src: Path, dest: Path): (r: Outcome)
    ensures |r.events| == 1
    ensures r.events[0].kind == FileCopied && r.events[0].path == src && r.events[0].path2 == Some(dest)
    ensures r.events[0].error <==> !CopySucceeds(o, fs, src, dest)
    ensures CopySucceeds(o, fs, src, dest) ==> r.fs == fs[dest := fs[src]] && r.events[0].errorText.None?
    ensures !CopySucceeds(o, fs, src, dest) ==> r.fs == fs && r.events[0].errorText == Some(o.errorText(src))
  {
    if CopySucceeds(o, fs, src, dest) then
      Outcome(fs[dest := fs[src]], [Event(FileCopied, src, Some(dest), false, None)])
    else
      Outcome(fs, [Event(FileCopied, src, Some(dest), true, Some(o.errorText(src)))])
  }

  /**
    * updateFile after backupFile reported backupOk: backup, then remove, then
    * copy, stopping at the first failure.
    */
  function UpdateOutcome(o: Oracles, fs: Disk, backupOk: bool, src: Path, dest: Path): (r: Outcome)
    // a failed backup stops the update silently and touches nothing
    ensures !backupOk ==> r == Outcome(fs, [])
    // otherwise exactly one FileUpdated event
    ensures backupOk ==> |r.events| == 1 && r.events[0].kind == FileUpdated
                         && r.events[0].path == src && r.events[0].path2 == Some(dest)
    // a failed remove is reported and nothing is copied
    ensures backupOk && !RemoveSucceeds(o, fs, dest) ==>
              r.fs == fs && r.events[0].error && r.events[0].errorText == Some(o.errorText(dest))
    // the filesystem changes only after both backup and remove succeeded
    ensures r.fs != fs ==> backupOk && RemoveSucceeds(o, fs, dest)
    // after a successful remove the event's error flag is the copy's failure
    ensures backupOk && RemoveSucceeds(o, fs, dest) ==>
              && (r.events[0].error <==> !CopySucceeds(o, fs - {dest}, src, dest))
              && r.fs == (if CopySucceeds(o, fs - {dest}, src, dest) then fs[dest := fs[src]] else fs - {dest})
  {
    if !backupOk then Outcome(fs, [])
    else if !RemoveSucceeds(o, fs, dest) then
      Outcome(fs, [Event(FileUpdated, src, Some(dest), true, Some(o.errorText(dest)))])
    else
      var removed := fs - {dest};
      if CopySucceeds(o, removed, src, dest) then
        Outcome(removed[dest := removed[src]], [Event(FileUpdated, src, Some(dest), false, None)])
      else
        Outcome(removed, [Event(FileUpdated, src, Some(dest), true, Some(o.errorText(src)))])
  }

  /** backupFile: the backup body is disabled, so it always reports success. */
  function Backup(dest: Path): bool
  {
    true
  }

  /** The (kind, destination) of the event each root's action emits, in root order; Keep emits none. */
  function ExpectedEvents(plan: seq<Action>, dests: seq<Path>, k: nat): (ev: seq<(EventKind, Path)>)
    requires |plan| == |dests| && k <= |plan|
    ensures |ev| <= k
  {
    if k == 0 then []
    else
      var prev := ExpectedEvents(plan, dests, k - 1);
      match plan[k - 1]
      case Keep => prev
      case Copy => prev + [(FileCopied, dests[k - 1])]
      case Update => prev + [(FileUpdated, dests[k - 1])]
  }

  /**
    * The second loop of the file branch over its first k roots: copyFile into
    * each Copy root and updateFile into each Update root, all from src.
    */
  function TransfersUpTo(o: Oracles, fs: Disk, src: Path, plan: seq<Action>, dests: seq<Path>, k: nat): Outcome
    requires |plan| == |dests| && k <= |plan|
  {
    if k == 0 then Outcome(fs, [])
    else
      var prev := TransfersUpTo(o, fs, src, plan, dests, k - 1);
      match plan[k - 1]
      case Keep => prev
      case Copy =>
        var c := CopyOutcome(o, prev.fs, src, dests[k - 1]);
        Outcome(c.fs, prev.events + c.events)
      case Update =>
        var u := UpdateOutcome(o, prev.fs, Backup(dests[k - 1]), src, dests[k - 1]);
        Outcome(u.fs, prev.events + u.events)
  }

  /**
    * Every affected root yields exactly one event of the matching kind, in
    * root order, and only the destinations of affected roots are written: a
    * root the plan keeps, such as the newest one, is never touched.
    */
  lemma {:induction false} TransfersFacts(o: Oracles, fs: Disk, src: Path, plan: seq<Action>, dests: seq<Path>, k: nat)
    requires |plan| == |dests| && k <= |plan|
    ensures var r := TransfersUpTo(o, fs, src, plan, dests, k);
      var ev := ExpectedEvents(plan, dests, k);
      && |r.events| == |ev|
      && (forall i :: 0 <= i < |ev| ==>
            r.events[i].kind == ev[i].0 && r.events[i].path == src && r.events[i].path2 == Some(ev[i].1))
      && forall p :: (forall n :: 0 <= n < k && plan[n] != Keep ==> dests[n] != p) ==>
            (p in r.fs <==> p in fs) && (p in fs ==> r.fs[p] == fs[p])
  {
    if k > 0 {
      TransfersFacts(o, fs, src, plan, dests, k - 1);
    }
  }

  /** A plan that keeps every root emits nothing and leaves the filesystem alone. */
  lemma {:induction false} KeepAllChangesNothing(o: Oracles, fs: Disk, src: Path, plan: seq<Action>, dests: seq<Path>, k: nat)
    requires |plan| == |dests| && k <= |plan|
    requires forall n :: 0 <= n < k ==> plan[n] == Keep
    ensures TransfersUpTo(o, fs, src, plan, dests, k) == Outcome(fs, [])
  {
    if k > 0 {
      KeepAllChangesNothing(o, fs, src, plan, dests, k - 1);
    }
  }
}
