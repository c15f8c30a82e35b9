/**
 Blessing: all selected baseline replacements are committed as one directory
 transaction. The file system is three sibling places; every operation on it may
 fail, and a failed recursive removal may leave anything behind, so a contract
 here speaks of every pattern of failures.
 */
module BaselineTransaction {
  import opened Outcomes
  import opened FileTree
  import opened Baselines

  type Tree = Node<Content>

  datatype Place = Root | Staging | Backup

  type Layout = map<Place, Tree>

  datatype BlessError =
    | NothingToBless | UnusableRoot | PrepareFailed | DuplicateUpdate | StageFailed | RejectedUpdate
    | MoveFailed | InstallFailed | BackupNotRemoved

  /** The old tree overlaid with every update in turn; `None` when a path is blocked. */
  function Overlay(base: Tree, updates: seq<Update>): Option<Tree> {
    if updates == [] then Some(base)
    else
      var last := updates[|updates| - 1];
      match Overlay(base, updates[..|updates| - 1])
      case None => None
      case Some(staged) => Write(staged, last.path, Yaml(last.document))
  }

  predicate DistinctPaths(updates: seq<Update>) {
    forall i, j :: 0 <= i < j < |updates| ==> updates[i].path != updates[j].path
  }

  lemma OverlayAppend(base: Tree, updates: seq<Update>, k: nat)
    requires k < |updates|
    ensures Overlay(base, updates[..k + 1]) ==
            match Overlay(base, updates[..k])
            case None => None
            case Some(staged) => Write(staged, updates[k].path, Yaml(updates[k].document))
  {
    assert updates[..k + 1][..k] == updates[..k];
  }

  /** An overlaid tree has every update at its path and every other file as before. */
  lemma {:induction false} OverlayFiles(base: Tree, updates: seq<Update>, path: Path)
    requires Overlay(base, updates).Some? && DistinctPaths(updates)
    ensures forall u :: u in updates && u.path == path ==>
              FileAt(Overlay(base, updates).value, path) == Some(Yaml(u.document))
    ensures (forall u :: u in updates ==> u.path != path) ==>
              FileAt(Overlay(base, updates).value, path) == FileAt(base, path)
    decreases |updates|
  {
    if updates != [] {
      var last, rest := updates[|updates| - 1], updates[..|updates| - 1];
      OverlayFiles(base, rest, path);
      WriteChangesOneFile(Overlay(base, rest).value, last.path, Yaml(last.document), path);
      assert updates == rest + [last];
    }
  }

  lemma OverlayIsNotEmpty(base: Tree, updates: seq<Update>)
    requires updates != [] && Overlay(base, updates).Some?
    ensures Overlay(base, updates).value.Dir? && Overlay(base, updates).value.entries != map[]
  {
    var last := updates[|updates| - 1];
    WrittenIsNotEmpty(Overlay(base, updates[..|updates| - 1]).value, last.path, Yaml(last.document));
  }

  ghost predicate At(layout: Layout, place: Place, tree: Tree) {
    place in layout && layout[place] == tree
  }

  /** The two layouts agree on every place but one. */
  ghost predicate SameBut(place: Place, a: Layout, b: Layout) {
    forall p :: p != place ==> (p in a <==> p in b) && (p in a && p in b ==> a[p] == b[p])
  }

  /** A layout, and what failed removals had left by then. */
  datatype Seen = Seen(layout: Layout, leftovers: map<Place, Tree>)

  class Disk {
    var layout: Layout
    /** Everything an observer could have seen, oldest first. */
    ghost var history: seq<Seen>
    ghost var failedRenames: nat
    /** What the last failed removal of a place left there. */
    ghost var leftovers: map<Place, Tree>

    method CreateDirectory(place: Place) returns (ok: bool)
      modifies this
      ensures failedRenames == old(failedRenames) && leftovers == old(leftovers)
      ensures history == old(history) + [Seen(layout, leftovers)]
      ensures layout == if ok then old(layout)[place := Dir(map[])] else old(layout)
      ensures ok ==> place !in old(layout)
    {
      ok := *;
      ok := ok && place !in layout;
      if ok { layout := layout[place := Dir(map[])]; }
      history := history + [Seen(layout, leftovers)];
    }

    /** Replaces what is under construction at a place, which observers do not count on. */
    method Replace(place: Place, tree: Tree)
      modifies this
      ensures failedRenames == old(failedRenames) && leftovers == old(leftovers)
      ensures layout == old(layout)[place := tree] && history == old(history) + [Seen(layout, leftovers)]
    {
      layout := layout[place := tree];
      history := history + [Seen(layout, leftovers)];
    }

    /** Renames a directory; never onto anything but an empty directory. */
    method Rename(source: Place, target: Place) returns (ok: bool)
      requires source != target
      modifies this
      ensures leftovers == old(leftovers) && history == old(history) + [Seen(layout, leftovers)]
      ensures failedRenames == old(failedRenames) + if ok then 0 else 1
      ensures ok ==> source in old(layout) && layout == old(layout)[target := old(layout)[source]] - {source}
      ensures ok ==> target !in old(layout) || old(layout)[target] == Dir(map[])
      ensures !ok ==> layout == old(layout)
    {
      ok := *;
      ok := ok && source in layout && (target !in layout || layout[target] == Dir(map[]));
      if ok {
        layout := layout[target := layout[source]] - {source};
      } else {
        failedRenames := failedRenames + 1;
      }
      history := history + [Seen(layout, leftovers)];
    }

    /** Removes a tree; on failure some of it, or none of it, may be gone. */
    method RemoveAll(place: Place) returns (ok: bool)
      modifies this
      ensures failedRenames == old(failedRenames) && history == old(history) + [Seen(layout, leftovers)]
      ensures ok ==> leftovers == old(leftovers) && layout == old(layout) - {place}
      ensures !ok && place !in old(layout) ==> layout == old(layout) && leftovers == old(leftovers)
      ensures !ok && place in old(layout) ==>
                && place in layout && layout == old(layout)[place := layout[place]]
                && leftovers == old(leftovers)[place := layout[place]]
    {
      ok := *;
      ok := ok && place in layout;
      if ok {
        layout := layout - {place};
      } else if place in layout {
        var left: Tree := *;
        layout := layout[place := left];
        leftovers := leftovers[place := left];
      }
      history := history + [Seen(layout, leftovers)];
    }
  }

  /** Removes a directory when its scope ends, unless disarmed. */
  class DirectoryGuard {
    const place: Place
    var armed: bool

    constructor (place: Place)
      ensures this.place == place && armed
    {
      this.place := place;
      armed := true;
    }

    method Disarm()
      modifies this
      ensures !armed
    {
      armed := false;
    }

    method Drop(disk: Disk)
      modifies disk
      ensures disk.failedRenames == old(disk.failedRenames)
      ensures !armed ==> disk.layout == old(disk.layout) && disk.history == old(disk.history)
                         && disk.leftovers == old(disk.leftovers)
      ensures armed ==> disk.history == old(disk.history) + [Seen(disk.layout, disk.leftovers)]
      ensures SameBut(place, disk.layout, old(disk.layout)) && SameBut(place, disk.leftovers, old(disk.leftovers))
      ensures armed && disk.leftovers == old(disk.leftovers) && place !in old(disk.leftovers) ==>
                disk.layout == old(disk.layout) - {place}
      ensures place !in old(disk.layout) ==>
                disk.layout == old(disk.layout) && disk.leftovers == old(disk.leftovers)
      ensures place in disk.layout ==> place in old(disk.layout)
    {
      if armed { var _ := disk.RemoveAll(place); }
    }
  }

  // ---------------------------------------------------------- the transaction

  function BaseOf(layout: Layout): Tree {
    if Root in layout then layout[Root] else Dir(map[])
  }

  /** The tree a commit installs. */
  function Installed(before: Layout, updates: seq<Update>): Option<Tree> {
    Overlay(BaseOf(before), updates)
  }

  /** What the commit's removal of the backup left, if it failed. */
  function Remains(leftovers: map<Place, Tree>): Option<Tree> {
    if Backup in leftovers then Some(leftovers[Backup]) else None
  }

  /**
   A layout in which nothing is lost: the old tree is whole at the root or in the
   backup, or the new one is installed, or the removal of the backup has failed by
   then and what it left is at one of the two.
   */
  ghost predicate Accounted(h: Layout, before: Layout, updates: seq<Update>, remains: Option<Tree>) {
    var next := Installed(before, updates);
    || (next.Some? && At(h, Root, next.value))
    || (if Root in before then
          || At(h, Root, before[Root]) || At(h, Backup, before[Root])
          || (remains.Some? && (At(h, Root, remains.value) || At(h, Backup, remains.value)))
        else Root !in h)
  }

  /** The disk before a transaction whose staging and backup names are fresh. */
  ghost predicate Untouched(disk: Disk)
    reads disk
  {
    disk.layout.Keys <= {Root} && disk.history == [] && disk.failedRenames == 0 && disk.leftovers == map[]
  }

  ghost predicate AllAccounted(disk: Disk, before: Layout, updates: seq<Update>)
    reads disk
  {
    EachAccounted(disk.history, before, updates)
  }

  ghost predicate EachAccounted(history: seq<Seen>, before: Layout, updates: seq<Update>) {
    forall h :: h in history ==> Accounted(h.layout, before, updates, Remains(h.leftovers))
  }

  /** Nothing but the staging directory differs from the starting layout. */
  ghost predicate OnlyStaged(disk: Disk, before: Layout)
    reads disk
  {
    SameBut(Staging, disk.layout, before) && disk.failedRenames == 0 && disk.leftovers == map[]
  }

  /** Every update is acceptable and has a path of its own. */
  ghost predicate Committable(updates: seq<Update>, size: Content -> nat) {
    DistinctPaths(updates) && forall u :: u in updates ==> Acceptable(Yaml(u.document), size)
  }

  /** Creates the staging directory and fills it with a copy of the old tree. */
  method Prepare(disk: Disk, updates: seq<Update>) returns (r: Result<bool, BlessError>)
    requires Untouched(disk)
    modifies disk
    ensures OnlyStaged(disk, old(disk.layout)) && AllAccounted(disk, old(disk.layout), updates)
    ensures r.Ok? ==> At(disk.layout, Staging, BaseOf(old(disk.layout))) && r.value == (Root in old(disk.layout))
    ensures r.Err? ==> r.error in {PrepareFailed, UnusableRoot}
  {
    var ok := disk.CreateDirectory(Staging);
    if !ok { return Err(PrepareFailed); }
    ok := *;
    if !ok { return Err(UnusableRoot); }
    if Root !in disk.layout { return Ok(false); }
    if !disk.layout[Root].Dir? { return Err(UnusableRoot); }
    var copy: map<string, Tree>;
    ok, copy := CopyDirectory(disk.layout[Root]);
    disk.Replace(Staging, Dir(copy));
    return if ok then Ok(true) else Err(PrepareFailed);
  }

  ghost function PathsOf(updates: seq<Update>): set<Path> {
    set u | u in updates :: u.path
  }

  lemma NothingIsCommittable(size: Content -> nat)
    ensures Committable([], size) && PathsOf([]) == {}
  {
  }

  lemma CommittableAppend(updates: seq<Update>, u: Update, size: Content -> nat)
    requires Committable(updates, size) && u.path !in PathsOf(updates) && Acceptable(Yaml(u.document), size)
    ensures Committable(updates + [u], size) && PathsOf(updates + [u]) == PathsOf(updates) + {u.path}
  {
    var all := updates + [u];
    forall i, j | 0 <= i < j < |all| ensures all[i].path != all[j].path {
      if j == |updates| { assert updates[i] in updates; }
    }
    assert forall v :: v in all <==> v in updates || v == u;
  }

  /** The two errors that lie in the updates themselves, and what is wrong with them then. */
  ghost predicate Refused(error: BlessError, updates: seq<Update>, size: Content -> nat) {
    || (error == DuplicateUpdate && !DistinctPaths(updates))
    || (error == RejectedUpdate && exists u :: u in updates && !Acceptable(Yaml(u.document), size))
  }

  lemma DuplicateIsRefused(updates: seq<Update>, k: nat, size: Content -> nat)
    requires k < |updates| && updates[k].path in PathsOf(updates[..k])
    ensures Refused(DuplicateUpdate, updates, size)
  {
    var u :| u in updates[..k] && u.path == updates[k].path;
    var i :| 0 <= i < k && updates[..k][i] == u;
    assert updates[i].path == updates[k].path;
  }

  /** Writes one update into the staging directory and reads it back. */
  method StageOne(disk: Disk, update: Update, size: Content -> nat, ghost before: Layout, ghost updates: seq<Update>)
    returns (r: Result<(), BlessError>)
    requires OnlyStaged(disk, before) && Staging in disk.layout && AllAccounted(disk, before, updates)
    modifies disk
    ensures OnlyStaged(disk, before) && AllAccounted(disk, before, updates)
    ensures r.Ok? ==>
              && Acceptable(Yaml(update.document), size)
              && Staging in disk.layout
              && Write(old(disk.layout)[Staging], update.path, Yaml(update.document)) == Some(disk.layout[Staging])
    ensures r.Err? ==> r.error == StageFailed || (r.error == RejectedUpdate && !Acceptable(Yaml(update.document), size))
  {
    hide Overlay, Write, Acceptable;
    var written := Write(disk.layout[Staging], update.path, Yaml(update.document));
    var ok: bool := *;
    if !ok || written.None? {
      var partial: Tree := *;
      disk.Replace(Staging, partial);
      return Err(StageFailed);
    }
    disk.Replace(Staging, written.value);
    return if Acceptable(Yaml(update.document), size) then Ok(()) else Err(RejectedUpdate);
  }

  method Stage(disk: Disk, updates: seq<Update>, size: Content -> nat, ghost before: Layout)
    returns (r: Result<(), BlessError>)
    requires OnlyStaged(disk, before) && At(disk.layout, Staging, BaseOf(before))
    requires AllAccounted(disk, before, updates)
    modifies disk
    ensures OnlyStaged(disk, before) && AllAccounted(disk, before, updates)
    ensures r.Ok? ==>
              && Committable(updates, size) && Installed(before, updates).Some?
              && At(disk.layout, Staging, Installed(before, updates).value)
    ensures r.Err? ==> Refused(r.error, updates, size) || r.error == StageFailed
  {
    assert Installed(before, updates[..0]) == Some(BaseOf(before));
    NothingIsCommittable(size);
    hide Overlay, Write, Acceptable, Committable, PathsOf, OnlyStaged, AllAccounted, DistinctPaths;
    var paths: set<Path> := {};
    for k := 0 to |updates|
      invariant OnlyStaged(disk, before) && AllAccounted(disk, before, updates)
      invariant Committable(updates[..k], size) && paths == PathsOf(updates[..k])
      invariant Staging in disk.layout && Installed(before, updates[..k]) == Some(disk.layout[Staging])
    {
      assert updates[..k + 1] == updates[..k] + [updates[k]];
      if updates[k].path in paths {
        DuplicateIsRefused(updates, k, size);
        return Err(DuplicateUpdate);
      }
      OverlayAppend(BaseOf(before), updates, k);
      var staged := StageOne(disk, updates[k], size, before, updates);
      if staged.Err? { return staged; }
      CommittableAppend(updates[..k], updates[k], size);
      paths := paths + {updates[k].path};
    }
    assert updates[..|updates|] == updates;
    return Ok(());
  }

  /** What is kept of the old tree: all of it, or what a failed removal of the backup left. */
  function Kept(before: Layout, leftovers: map<Place, Tree>): Tree
    requires Root in before
  {
    if Backup in leftovers then leftovers[Backup] else before[Root]
  }

  /** Where a failed transaction leaves what is kept: at the root, or in the backup when a rename failed. */
  ghost predicate Recovered(
    after: Layout, before: Layout, updates: seq<Update>, leftovers: map<Place, Tree>, failedRenames: nat)
    requires Root in before
  {
    || (At(after, Root, Kept(before, leftovers)) && Backup !in after)
    || (At(after, Backup, Kept(before, leftovers)) && failedRenames > 0
        && (Root !in after || Some(after[Root]) == Installed(before, updates)))
  }

  /** The layout after the backup could not be removed and the two rollback renames were tried. */
  function RolledBack(next: Tree, left: Tree, movedNew: bool, restoredOld: bool): Layout {
    if movedNew && restoredOld then map[Root := left, Staging := next]
    else if movedNew then map[Staging := next, Backup := left]
    else map[Root := next, Backup := left]
  }

  /**
   A rollback that works puts back whatever is left: when the removal has taken one
   entry from the old tree, the rollback installs a tree without it, and nothing
   holds the old tree any more.
   */
  lemma RollbackReinstallsRemains(previous: Tree, next: Tree, name: string)
    requires previous.Dir? && name in previous.entries && next != previous
    ensures var left := Dir(previous.entries - {name});
            var after := RolledBack(next, left, true, true);
            && At(after, Root, left) && FileAt(left, [name]) == None
            && forall place :: place in after ==> after[place] != previous
  {
    var left := Dir(previous.entries - {name});
    assert name in previous.entries && name !in left.entries;
    assert [name][0] == name;
  }

  /**
   The promise that a failed blessing keeps the old tree holds exactly when the
   removal of the backup, if it failed, had not yet taken anything.
   */
  lemma OldTreeSurvivesExactlyWhen(
    after: Layout, before: Layout, updates: seq<Update>, leftovers: map<Place, Tree>, failedRenames: nat)
    requires Root in before && Recovered(after, before, updates, leftovers, failedRenames)
    requires Installed(before, updates) != Some(before[Root])
    ensures At(after, Root, before[Root]) || At(after, Backup, before[Root]) <==>
            (Backup in leftovers ==> leftovers[Backup] == before[Root])
  {
  }

  /** The disk after a failed transaction, before the guards go out of scope. */
  ghost predicate Settled(disk: Disk, before: Layout, updates: seq<Update>, stagingArmed: bool, backupArmed: bool)
    reads disk
  {
    && disk.leftovers.Keys <= {Backup}
    && (backupArmed ==> Backup !in disk.layout)
    && (Root !in before ==> Root !in disk.layout && Backup !in disk.layout)
    && (Root in before ==> Recovered(disk.layout, before, updates, disk.leftovers, disk.failedRenames))
    && (disk.failedRenames <= 1 && disk.leftovers == map[] ==> stagingArmed && SameBut(Staging, disk.layout, before))
    && (disk.failedRenames == 0 && Root in before && Backup in disk.leftovers ==>
          At(disk.layout, Root, disk.leftovers[Backup]) && stagingArmed)
  }

  /** The staged tree is complete and nothing outside the staging directory has changed. */
  ghost predicate ReadyToInstall(disk: Disk, before: Layout, updates: seq<Update>)
    reads disk
  {
    && updates != [] && before.Keys <= {Root}
    && Installed(before, updates).Some? && At(disk.layout, Staging, Installed(before, updates).value)
    && OnlyStaged(disk, before) && AllAccounted(disk, before, updates)
  }

  /** Moves the old tree to the backup and the staged tree to the root. */
  method Swap(disk: Disk, updates: seq<Update>, backupGuard: DirectoryGuard, ghost before: Layout)
    returns (r: Result<(), BlessError>)
    requires ReadyToInstall(disk, before, updates) && Root in before && backupGuard.armed
    modifies disk, backupGuard
    ensures AllAccounted(disk, before, updates) && disk.leftovers == map[]
    ensures r.Ok? ==>
              && disk.layout == map[Root := Installed(before, updates).value, Backup := before[Root]]
              && disk.failedRenames == 0 && backupGuard.armed
    ensures r.Err? ==> Settled(disk, before, updates, true, backupGuard.armed)
    ensures r.Err? ==> r.error in {MoveFailed, InstallFailed}
  {
    hide Overlay;
    OverlayIsNotEmpty(BaseOf(before), updates);
    var ok := disk.Rename(Root, Backup);
    if !ok { return Err(MoveFailed); }
    ok := disk.Rename(Staging, Root);
    if ok { return Ok(()); }
    var restored := disk.Rename(Backup, Root);
    if !restored { backupGuard.Disarm(); }
    return Err(InstallFailed);
  }

  /** Removes the backup of a swapped tree; when that fails, swaps the trees back. */
  method RemoveBackup(disk: Disk, updates: seq<Update>, stagingGuard: DirectoryGuard, backupGuard: DirectoryGuard,
                      ghost before: Layout)
    returns (r: Result<(), BlessError>)
    requires updates != [] && Root in before && Installed(before, updates).Some?
    requires disk.layout == map[Root := Installed(before, updates).value, Backup := before[Root]]
    requires AllAccounted(disk, before, updates) && disk.leftovers == map[] && disk.failedRenames == 0
    requires stagingGuard != backupGuard && stagingGuard.armed && backupGuard.armed
    modifies disk, stagingGuard, backupGuard
    ensures AllAccounted(disk, before, updates)
    ensures r.Ok? ==> disk.layout == map[Root := Installed(before, updates).value] && disk.leftovers == map[]
                      && stagingGuard.armed
    ensures r.Err? ==> Settled(disk, before, updates, stagingGuard.armed, backupGuard.armed)
    ensures r.Err? ==>
              && r.error == BackupNotRemoved && Backup in disk.leftovers
              && exists movedNew, restoredOld ::
                   disk.layout ==
                   RolledBack(Installed(before, updates).value, disk.leftovers[Backup], movedNew, restoredOld)
  {
    hide Overlay, BaseOf;
    OverlayIsNotEmpty(BaseOf(before), updates);
    var ok := disk.RemoveAll(Backup);
    if ok {
      backupGuard.Disarm();
      return Ok(());
    }
    var movedNew := disk.Rename(Root, Staging);
    var restoredOld := disk.Rename(Backup, Root);
    if !movedNew || !restoredOld { stagingGuard.Disarm(); }
    if !restoredOld { backupGuard.Disarm(); }
    assert disk.layout == RolledBack(Installed(before, updates).value, disk.leftovers[Backup], movedNew, restoredOld);
    return Err(BackupNotRemoved);
  }

  method Install(disk: Disk, updates: seq<Update>, rootExists: bool, stagingGuard: DirectoryGuard,
                 backupGuard: DirectoryGuard, ghost before: Layout)
    returns (r: Result<(), BlessError>)
    requires ReadyToInstall(disk, before, updates) && rootExists == (Root in before)
    requires stagingGuard != backupGuard && stagingGuard.armed && backupGuard.armed
    modifies disk, stagingGuard, backupGuard
    ensures AllAccounted(disk, before, updates)
    ensures r.Ok? ==> disk.layout == map[Root := Installed(before, updates).value] && disk.leftovers == map[]
    ensures r.Ok? ==> !stagingGuard.armed
    ensures r.Err? ==> Settled(disk, before, updates, stagingGuard.armed, backupGuard.armed)
    ensures r.Err? ==> r.error in {MoveFailed, InstallFailed, BackupNotRemoved}
  {
    if rootExists {
      r := Swap(disk, updates, backupGuard, before);
      if r.Err? { return; }
      r := RemoveBackup(disk, updates, stagingGuard, backupGuard, before);
      if r.Err? { return; }
    } else {
      var ok := disk.Rename(Staging, Root);
      if !ok { return Err(InstallFailed); }
    }
    stagingGuard.Disarm();
    return Ok(());
  }

  /**
   Commits all updates or none. On failure the old tree is whole at the root, or
   whole in a backup that a failed rollback rename preserves, except for what a
   failed removal of the backup has already taken from it: then exactly the
   remains are put back.
   */
  method Bless(disk: Disk, updates: seq<Update>, size: Content -> nat) returns (r: Result<(), BlessError>)
    requires Untouched(disk)
    modifies disk
    ensures AllAccounted(disk, old(disk.layout), updates)
    ensures r.Ok? ==>
              && updates != [] && Committable(updates, size) && Installed(old(disk.layout), updates).Some?
              && disk.layout == map[Root := Installed(old(disk.layout), updates).value]
    ensures r.Err? && Root !in old(disk.layout) ==> Root !in disk.layout && Backup !in disk.layout
    ensures r.Err? && Root in old(disk.layout) ==>
              Recovered(disk.layout, old(disk.layout), updates, disk.leftovers, disk.failedRenames)
    ensures r.Err? && disk.failedRenames <= 1 && disk.leftovers == map[] ==> disk.layout == old(disk.layout)
    ensures r.Err? && disk.failedRenames == 0 && Root in old(disk.layout) && Backup in disk.leftovers ==>
              At(disk.layout, Root, disk.leftovers[Backup])
    ensures r == Err(NothingToBless) <==> updates == []
    ensures r.Err? && r.error in {DuplicateUpdate, RejectedUpdate} ==> Refused(r.error, updates, size)
  {
    hide Overlay, Committable, Refused, BaseOf;
    ghost var before := disk.layout;
    if updates == [] { return Err(NothingToBless); }
    var ok: bool := *;
    if !ok { return Err(UnusableRoot); }
    var stagingGuard := new DirectoryGuard(Staging);
    var backupGuard := new DirectoryGuard(Backup);
    r := Attempt(disk, updates, size, stagingGuard, backupGuard);
    backupGuard.Drop(disk);
    stagingGuard.Drop(disk);
  }

  method Attempt(disk: Disk, updates: seq<Update>, size: Content -> nat, stagingGuard: DirectoryGuard,
                 backupGuard: DirectoryGuard)
    returns (r: Result<(), BlessError>)
    requires Untouched(disk) && updates != []
    requires stagingGuard != backupGuard && stagingGuard.armed && backupGuard.armed
    modifies disk, stagingGuard, backupGuard
    ensures AllAccounted(disk, old(disk.layout), updates)
    ensures r.Ok? ==>
              && Committable(updates, size) && Installed(old(disk.layout), updates).Some?
              && disk.layout == map[Root := Installed(old(disk.layout), updates).value]
              && !stagingGuard.armed && disk.leftovers == map[]
    ensures r.Err? ==> Settled(disk, old(disk.layout), updates, stagingGuard.armed, backupGuard.armed)
    ensures r.Err? ==> r.error != NothingToBless
    ensures r.Err? && r.error in {DuplicateUpdate, RejectedUpdate} ==> Refused(r.error, updates, size)
  {
    ghost var before := disk.layout;
    var prepared := Prepare(disk, updates);
    if prepared.Err? { return Err(prepared.error); }
    var staged := Stage(disk, updates, size, before);
    if staged.Err? { return Err(staged.error); }
    r := Install(disk, updates, prepared.value, stagingGuard, backupGuard, before);
  }
}
