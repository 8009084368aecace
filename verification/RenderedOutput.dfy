/** Replacing the rendered manifests on disk (`internal/generator/write.go`).

    The output directory is a map of entries. Which file operations fail is a set of points of
    the code, and any set is possible. A failed removal of a tree may leave part of it.
    `history` holds the directory after every operation that may change it. */
module RenderedOutput {

  type Tree = map<string, string>

  datatype Entry = File(content: string) | Dir(tree: Tree) | Other

  datatype Target = Missing | Directory | NotDirectory

  datatype Manifest = Manifest(name: string, content: string)

  /** Names in the output directory: the two fixed ones, the temporary names `.rendered-new-*`
      and `.rendered-previous-*`, and everything else. */
  datatype Name = Rendered | LegacyLock | Scratch(suffix: nat) | Backup(suffix: nat) | Sibling(name: string)

  type Entries = map<Name, Entry>

  /** The operations of one call, each of which may fail. */
  datatype Step =
    | InspectOutput | CreateOutput | MakeScratch | WriteManifest(index: nat) | ReserveBackup | ReleaseBackup
    | InspectRendered | SetAside | Install | RollBack | DropOld | InspectLock | ReadLock | RemoveLock
    | DeferredBackup | DeferredScratch | DropRendered | ListOutput | DropOutput

  const LEGACY_MARKER := "# Generated by tripgoctl. Do not edit manually.\n"

  /** The tree a bundle describes; of two files with one name the later is kept. */
  ghost function BundleTree(bundle: seq<Manifest>): Tree {
    if bundle == [] then map[]
    else BundleTree(bundle[..|bundle| - 1])[bundle[|bundle| - 1].name := bundle[|bundle| - 1].content]
  }

  /** The path without its trailing slashes. */
  function Trimmed(path: string): string
    decreases |path|
  {
    if path != [] && path[|path| - 1] == '/' then Trimmed(path[..|path| - 1]) else path
  }

  /** What follows the last slash. */
  function AfterSlash(path: string): string
    decreases |path|
  {
    if path == [] || path[|path| - 1] == '/' then [] else AfterSlash(path[..|path| - 1]) + [path[|path| - 1]]
  }

  /** `filepath.Base`. */
  function Base(path: string): string {
    if path == "" then "." else if Trimmed(path) == "" then "/" else AfterSlash(Trimmed(path))
  }

  lemma {:induction false} AfterSlashHasNone(path: string)
    ensures '/' !in AfterSlash(path) && ('/' !in path ==> AfterSlash(path) == path)
    decreases |path|
  {
    if path != [] && path[|path| - 1] != '/' {
      AfterSlashHasNone(path[..|path| - 1]);
    }
  }

  /** The test `filepath.Base(name) == name && name != "."` lets through single elements, and the
      root. */
  lemma BaseIff(name: string)
    ensures Base(name) == name && name != "." <==> AcceptedName(name)
  {
    AfterSlashHasNone(name);
    AfterSlashHasNone(Trimmed(name));
    if name != "" && '/' !in name {
      assert name[|name| - 1] in name;
    }
    assert Trimmed("/") == "" by {
      assert "/"[..0] == "";
    }
  }

  ghost predicate AcceptedName(name: string) { name == "/" || (name != "" && name != "." && '/' !in name) }

  /** Accepted names that denote a directory, so that writing them cannot succeed. */
  predicate DirectoryName(name: string) { name == "/" || name == ".." }

  ghost predicate RenderedIs(es: Entries, tree: Tree) { Rendered in es && es[Rendered] == Dir(tree) }

  ghost predicate BackedUp(es: Entries, tree: Tree) {
    exists name :: name in es && name.Backup? && es[name] == Dir(tree)
  }

  /** The old tree is complete in place or in the backup, or the new one is complete in place. */
  ghost predicate Safe(es: Entries, before: Tree, after: Tree) {
    RenderedIs(es, before) || BackedUp(es, before) || RenderedIs(es, after)
  }

  ghost predicate AllSafe(history: seq<Entries>, from: nat, until: int, before: Tree, after: Tree) {
    until <= |history| && forall i :: from <= i < until ==> Safe(history[i], before, after)
  }

  ghost predicate RecognisedLock(es: Entries, name: Name) {
    name == LegacyLock && name in es && es[name].File? && LEGACY_MARKER <= es[name].content
  }

  ghost predicate SameAt(a: Entries, b: Entries, name: Name) {
    (name in a <==> name in b) && (name in a ==> a[name] == b[name])
  }

  ghost predicate AgreeExcept(a: Entries, b: Entries, name: Name) {
    forall other :: other != name ==> (other in a <==> other in b) && (other in a ==> a[other] == b[other])
  }

  /** Nothing changes but the rendered tree, the scratch directory, new backups and a recognised lock. */
  ghost predicate Kept(before: Entries, after: Entries, temporary: Name) {
    && (forall name :: name in before && name != Rendered && name != temporary && !RecognisedLock(before, name) ==>
          name in after && after[name] == before[name])
    && (forall name :: name in after && name != Rendered && name != temporary && !name.Backup? ==> name in before)
  }

  ghost predicate NoNewBackup(before: Entries, after: Entries) {
    forall name :: name in after && name.Backup? ==> name in before
  }

  /** Entries present before, other than the rendered tree and a recognised legacy lock, stay. */
  ghost predicate SiblingsKept(before: Entries, after: Entries) {
    forall name :: name in before && name != Rendered && !RecognisedLock(before, name) ==>
        name in after && after[name] == before[name]
  }

  ghost predicate NothingNew(before: Entries, after: Entries) {
    forall name :: name in after && name != Rendered ==> name in before
  }

  /** The rendered tree is replaced, a recognised legacy lock is gone, all else is as before. */
  ghost predicate Replaced(before: Entries, after: Entries, tree: Tree) {
    RenderedIs(after, tree) && SiblingsKept(before, after) && NothingNew(before, after)
    && forall name :: RecognisedLock(before, name) ==> name !in after
  }

  // ---------------------------------------------------------------- what a set of faults leads to

  ghost predicate OutputReady(target: Target, faults: set<Step>) {
    InspectOutput !in faults && !target.NotDirectory? && (target.Missing? ==> CreateOutput !in faults)
  }

  ghost predicate Fills(bundle: seq<Manifest>, faults: set<Step>) {
    forall i :: 0 <= i < |bundle| ==>
        AcceptedName(bundle[i].name) && !DirectoryName(bundle[i].name) && WriteManifest(i) !in faults
  }

  ghost predicate BackupReserved(faults: set<Step>) { ReserveBackup !in faults && ReleaseBackup !in faults }

  /** There is an old tree and it can be set aside. */
  ghost predicate SetsAside(es: Entries, faults: set<Step>) {
    InspectRendered !in faults && Rendered in es && es[Rendered].Dir? && SetAside !in faults
  }

  /** The new tree comes into place. */
  ghost predicate Installs(es: Entries, faults: set<Step>) {
    InspectRendered !in faults && (Rendered in es ==> SetsAside(es, faults)) && Install !in faults
  }

  /** Installing the new tree and putting the old one back both fail. */
  ghost predicate Loses(es: Entries, faults: set<Step>) {
    SetsAside(es, faults) && Install in faults && RollBack in faults
  }

  ghost predicate LockClears(es: Entries, faults: set<Step>) {
    InspectLock !in faults
    && (LegacyLock in es && es[LegacyLock].File? ==>
        ReadLock !in faults && (RecognisedLock(es, LegacyLock) ==> RemoveLock !in faults))
  }

  ghost predicate Swaps(es: Entries, faults: set<Step>) {
    Installs(es, faults) && (Rendered in es ==> DropOld !in faults) && LockClears(es, faults)
  }

  /** Everything up to the swap goes well. */
  ghost predicate Prepared(target: Target, bundle: seq<Manifest>, faults: set<Step>) {
    OutputReady(target, faults) && MakeScratch !in faults && Fills(bundle, faults) && BackupReserved(faults)
  }

  /** How the rendered entry ends: as the new tree, gone, or as it was. */
  ghost predicate RenderedEnds(before: Entries, after: Entries, tree: Tree, installs: bool, loses: bool) {
    if installs then RenderedIs(after, tree) else if loses then Rendered !in after else SameAt(before, after, Rendered)
  }

  ghost predicate TreeInPlace(es: Entries, before: Tree, after: Tree) {
    RenderedIs(es, before) || RenderedIs(es, after)
  }

  /** It takes two failures of one call to leave no tree in place. */
  lemma OneFaultLeavesTree(es: Entries, faults: set<Step>)
    requires |faults| <= 1
    ensures !Loses(es, faults)
  {
    var both := {Install, RollBack};
    assert |both| == 2;
    if both <= faults {
      Cardinality(both, faults);
    }
  }

  lemma {:induction false} Cardinality(small: set<Step>, large: set<Step>)
    requires small <= large
    ensures |small| <= |large|
  {
    if small != {} {
      var x :| x in small;
      Cardinality(small - {x}, large - {x});
    }
  }

  lemma {:induction false} Above(used: set<nat>) returns (n: nat)
    ensures forall x :: x in used ==> x < n
  {
    if used == {} {
      n := 0;
    } else {
      var x :| x in used;
      var rest := used - {x};
      n := Above(rest);
      if n <= x { n := x + 1; }
      assert forall y :: y in used ==> y == x || y in rest;
    }
  }

  function Temporary(backup: bool, suffix: nat): Name { if backup then Backup(suffix) else Scratch(suffix) }

  /** There is always a temporary name nobody uses. */
  lemma FreshName(es: Entries, backup: bool)
    ensures exists n: nat :: Temporary(backup, n) !in es
  {
    var used := set name | name in es && (name.Scratch? || name.Backup?) :: name.suffix;
    var n := Above(used);
    assert n !in used;
    assert Temporary(backup, n) !in es;
  }

  /** Filling the scratch directory leaves the old tree in place. */
  lemma AgreementIsSafe(before: Entries, history: seq<Entries>, from: nat, temporary: Name, after: Tree)
    requires temporary != Rendered && Rendered in before && before[Rendered].Dir?
    requires forall i :: from <= i < |history| ==> AgreeExcept(before, history[i], temporary)
    ensures AllSafe(history, from, |history|, before[Rendered].tree, after)
  {
    forall i | from <= i < |history| ensures Safe(history[i], before[Rendered].tree, after) {
      assert Rendered in history[i] && history[i][Rendered] == before[Rendered];
    }
  }

  method AcceptName(name: string) returns (ok: bool)
    ensures ok <==> AcceptedName(name)
  {
    BaseIff(name);
    ok := Base(name) == name && name != ".";
  }

  class OutputDirectory {
    var target: Target
    var entries: Entries
    ghost var history: seq<Entries>

    constructor (target: Target, entries: Entries)
      ensures this.target == target && this.entries == entries && history == []
    {
      this.target, this.entries, history := target, entries, [];
    }

    /** `os.MkdirTemp` with a suffix nobody uses. */
    method MkdirTemp(backup: bool, fails: bool) returns (name: Name)
      modifies this`entries, this`history
      ensures history == old(history) + [entries]
      ensures name !in old(entries) && if backup then name.Backup? else name.Scratch?
      ensures entries == if fails then old(entries) else old(entries)[name := Dir(map[])]
    {
      FreshName(entries, backup);
      var suffix: nat :| Temporary(backup, suffix) !in entries;
      name := Temporary(backup, suffix);
      if !fails { entries := entries[name := Dir(map[])]; }
      history := history + [entries];
    }

    method WriteFile(directory: Name, file: Manifest, fails: bool) returns (ok: bool)
      requires directory in entries && entries[directory].Dir?
      modifies this`entries, this`history
      ensures history == old(history) + [entries]
      ensures ok <==> !fails && !DirectoryName(file.name)
      ensures entries == if ok
              then old(entries)[directory := Dir(old(entries)[directory].tree[file.name := file.content])]
                  else old(entries)
    {
      ok := !fails && !DirectoryName(file.name);
      if ok { entries := entries[directory := Dir(entries[directory].tree[file.name := file.content])]; }
      history := history + [entries];
    }

    /** `os.Remove` of a file or an empty directory. */
    method Remove(name: Name, fails: bool)
      requires name in entries && (entries[name].Dir? ==> entries[name].tree == map[])
      modifies this`entries, this`history
      ensures history == old(history) + [entries]
      ensures entries == if fails then old(entries) else old(entries) - {name}
    {
      if !fails { entries := entries - {name}; }
      history := history + [entries];
    }

    /** `os.Rename` of a directory to a free name. */
    method Rename(source: Name, destination: Name, fails: bool)
      requires source in entries && entries[source].Dir? && destination !in entries
      modifies this`entries, this`history
      ensures history == old(history) + [entries]
      ensures entries == if fails then old(entries) else (old(entries) - {source})[destination := old(entries)[source]]
    {
      if !fails { entries := (entries - {source})[destination := entries[source]]; }
      history := history + [entries];
    }

    /** `os.RemoveAll`: an absent name is no error; a failure may have removed part of a tree. */
    method RemoveAll(name: Name, fails: bool) returns (ok: bool)
      modifies this`entries, this`history
      ensures history == old(history) + [entries]
      ensures ok <==> !fails || name !in old(entries)
      ensures ok ==> name !in entries
      ensures AgreeExcept(old(entries), entries, name) && (name in entries ==> name in old(entries))
    {
      ok := !fails || name !in entries;
      if ok {
        entries := entries - {name};
      } else if entries[name].Dir? {
        var partial: Tree := *;
        entries := entries[name := Dir(partial)];
      }
      history := history + [entries];
    }

    /** `removeLegacyLock`: only a regular file that starts with the marker goes. */
    method RemoveLegacyLock(faults: set<Step>) returns (ok: bool)
      modifies this`entries, this`history
      ensures old(history) <= history
      ensures forall i :: |old(history)| <= i < |history| ==> history[i] == entries
      ensures ok <==> LockClears(old(entries), faults)
      ensures entries == if ok && RecognisedLock(old(entries), LegacyLock) then old(entries) - {LegacyLock}
              else old(entries)
    {
      if InspectLock in faults {
        return false;
      }
      if LegacyLock !in entries || !entries[LegacyLock].File? {
        return true;
      }
      if ReadLock in faults {
        return false;
      }
      if !(LEGACY_MARKER <= entries[LegacyLock].content) {
        return true;
      }
      Remove(LegacyLock, RemoveLock in faults);
      ok := RemoveLock !in faults;
    }

    /** After the new tree is in place: drop the old one and a recognised legacy lock. */
    method Settle(renderedExists: bool, backup: Name, ghost after: Tree, faults: set<Step>) returns (ok: bool)
      requires RenderedIs(entries, after) && backup.Backup? && (backup in entries <==> renderedExists)
      modifies this`entries, this`history
      ensures old(history) <= history
      ensures forall i :: |old(history)| <= i < |history| ==> RenderedIs(history[i], after)
      ensures RenderedIs(entries, after)
      ensures ok <==> (renderedExists ==> DropOld !in faults) && LockClears(old(entries), faults)
      ensures forall name :: name in old(entries) && name != backup && !RecognisedLock(old(entries), name) ==>
                name in entries && entries[name] == old(entries)[name]
      ensures forall name :: name in entries ==> name in old(entries)
      ensures ok ==> backup !in entries && forall name :: RecognisedLock(old(entries), name) ==> name !in entries
    {
      if renderedExists {
        ok := RemoveAll(backup, DropOld in faults);
        if !ok {
          return;
        }
        assert LockClears(entries, faults) <==> LockClears(old(entries), faults);
      }
      ok := RemoveLegacyLock(faults);
    }

    /** The swap itself: set the old tree aside, install the new one, roll back if that fails. A
        failed rollback leaves the old tree in the backup alone. */
    method Replace(temporary: Name, backup: Name, faults: set<Step>) returns (ok: bool)
      requires temporary in entries && entries[temporary].Dir? && temporary.Scratch?
      requires backup !in entries && backup.Backup?
      modifies this`entries, this`history
      ensures old(history) <= history
      ensures Kept(old(entries), entries, temporary)
      ensures RenderedEnds(old(entries), entries, old(entries)[temporary].tree, Installs(old(entries), faults),
              Loses(old(entries), faults))
      ensures Rendered in old(entries) && old(entries)[Rendered].Dir? ==>
                AllSafe(history, |old(history)|, |history|, old(entries)[Rendered].tree, old(entries)[temporary].tree)
      ensures ok <==> Swaps(old(entries), faults)
      ensures ok ==>
              temporary !in entries && backup !in entries
              && forall name :: RecognisedLock(old(entries), name) ==> name !in entries
      ensures Loses(old(entries), faults) ==> backup in entries && entries[backup] == old(entries)[Rendered]
      ensures forall name :: name in entries && name.Backup? ==> name in old(entries) || name == backup
    {
      if InspectRendered in faults {
        return false;
      }
      var renderedExists := Rendered in entries;
      if renderedExists {
        if !entries[Rendered].Dir? {
          return false;
        }
        Rename(Rendered, backup, SetAside in faults);
        if SetAside in faults {
          return false;
        }
        assert entries[backup] == Dir(old(entries)[Rendered].tree);
      }
      ok := InstallOrRollBack(temporary, backup, renderedExists, faults);
      assert Rendered in old(entries) && old(entries)[Rendered].Dir? ==>
               AllSafe(history, |old(history)|, |history|, old(entries)[Rendered].tree, old(entries)[temporary].tree);
    }

    /** The second half of the swap, with the old tree, if any, in the backup. */
    method InstallOrRollBack(temporary: Name, backup: Name, renderedExists: bool, faults: set<Step>) returns (ok: bool)
      requires temporary in entries && entries[temporary].Dir? && temporary.Scratch? && backup.Backup?
               && Rendered !in entries
      requires renderedExists <==> backup in entries
      requires renderedExists ==> entries[backup].Dir?
      modifies this`entries, this`history
      ensures old(history) <= history
      ensures renderedExists ==>
              AllSafe(history, |old(history)|, |history|, old(entries)[backup].tree, old(entries)[temporary].tree)
      ensures if Install !in faults then RenderedIs(entries, old(entries)[temporary].tree)
              else if renderedExists && RollBack !in faults
              then entries == (old(entries) - {backup})[Rendered := old(entries)[backup]]
              else entries == old(entries)
      ensures Install !in faults ==>
                forall name | name in old(entries) && name != temporary && name != backup
                              && !RecognisedLock(old(entries), name) ::
                  name in entries && entries[name] == old(entries)[name]
      ensures ok <==> Install !in faults && (renderedExists ==> DropOld !in faults) && LockClears(old(entries), faults)
      ensures forall name :: name in entries && name != Rendered ==> name in old(entries)
      ensures ok ==>
              temporary !in entries && backup !in entries
              && forall name :: RecognisedLock(old(entries), name) ==> name !in entries
    {
      Rename(temporary, Rendered, Install in faults);
      if Install in faults {
        if renderedExists {
          assert BackedUp(entries, old(entries)[backup].tree);
          Rename(backup, Rendered, RollBack in faults);
          assert Safe(entries, old(entries)[backup].tree, old(entries)[temporary].tree);
        }
        return false;
      }
      assert LockClears(entries, faults) <==> LockClears(old(entries), faults);
      ok := Settle(renderedExists, backup, old(entries)[temporary].tree, faults);
    }

    /** `Write` after the new tree is filled: reserve a backup name, swap, and drop the backup,
        whatever came of the swap. */
    method Swap(temporary: Name, faults: set<Step>) returns (ok: bool)
      requires temporary in entries && entries[temporary].Dir? && temporary.Scratch?
      modifies this`entries, this`history
      ensures old(history) <= history
      ensures Kept(old(entries), entries, temporary)
      ensures RenderedEnds(old(entries), entries, old(entries)[temporary].tree,
                           BackupReserved(faults) && Installs(old(entries), faults), BackupReserved(faults)
                           && Loses(old(entries), faults))
      ensures Rendered in old(entries) && old(entries)[Rendered].Dir? ==>
                AllSafe(history, |old(history)|,
                    |history| - (if BackupReserved(faults) && Loses(old(entries), faults) then 1 else 0),
                        old(entries)[Rendered].tree, old(entries)[temporary].tree)
      ensures ok <==> BackupReserved(faults) && Swaps(old(entries), faults)
      ensures ok ==> temporary !in entries && forall name :: RecognisedLock(old(entries), name) ==> name !in entries
      ensures ok || (ReleaseBackup !in faults && DeferredBackup !in faults) ==> NoNewBackup(old(entries), entries)
    {
      var backup := MkdirTemp(true, ReserveBackup in faults);
      if ReserveBackup in faults {
        return false;
      }
      Remove(backup, ReleaseBackup in faults);
      if ReleaseBackup in faults {
        return false;
      }
      assert entries == old(entries);
      ok := Replace(temporary, backup, faults);
      ghost var swapped, until := entries, |history|;
      var dropped := RemoveAll(backup, DeferredBackup in faults);
      DroppingBackup(old(entries), swapped, entries, temporary, backup);
      if Rendered in old(entries) && old(entries)[Rendered].Dir? && !Loses(old(entries), faults) {
        SafeWithoutBackup(old(entries), swapped, entries, backup, old(entries)[temporary].tree, faults);
        assert history[..until] + [entries] == history;
      }
    }

    /** `Write`. The rendered tree ends as the bundle says, or as it was, except that it is gone
        exactly when the old tree was set aside and both installing the new one and putting the
        old one back failed; the deferred removal then drops the backup, the last copy. At every
        moment before that one complete tree exists. A failure after the installation leaves the
        new tree. */
    method Write(bundle: seq<Manifest>, faults: set<Step>) returns (ok: bool)
      requires target.Missing? ==> entries == map[]
      modifies this
      ensures target == (if old(target).Missing? && OutputReady(old(target), faults) then Directory else old(target))
      ensures target.Missing? ==> entries == map[]
      ensures old(history) <= history && SiblingsKept(old(entries), entries)
      ensures RenderedEnds(old(entries), entries, BundleTree(bundle),
                           Prepared(old(target), bundle, faults) && Installs(old(entries), faults),
                           Prepared(old(target), bundle, faults) && Loses(old(entries), faults))
      ensures Rendered in old(entries) && old(entries)[Rendered].Dir? ==>
                AllSafe(history, |old(history)|,
                        |history| - (if Prepared(old(target), bundle, faults) && Loses(old(entries), faults) then 2
                            else 0),
                        old(entries)[Rendered].tree, BundleTree(bundle))
      ensures Rendered in old(entries) && old(entries)[Rendered].Dir? ==>
                (TreeInPlace(entries, old(entries)[Rendered].tree, BundleTree(bundle)) <==>
                   !(Prepared(old(target), bundle, faults) && Loses(old(entries), faults)))
      ensures !RenderedIs(old(entries), BundleTree(bundle)) ==>
                (SameAt(old(entries), entries, Rendered) <==>
                   !(Prepared(old(target), bundle, faults)
                   && (Installs(old(entries), faults) || Loses(old(entries), faults))))
      ensures ok <==> Prepared(old(target), bundle, faults) && Swaps(old(entries), faults)
      ensures ok ==> Replaced(old(entries), entries, BundleTree(bundle))
      ensures faults !! {ReleaseBackup, DeferredBackup, DeferredScratch} ==> NothingNew(old(entries), entries)
    {
      if InspectOutput in faults || target.NotDirectory? {
        return false;
      }
      if target.Missing? {
        if CreateOutput in faults {
          return false;
        }
        target := Directory;
      }
      ok := WriteInside(bundle, faults);
    }

    /** `Write` once the output directory exists. */
    method WriteInside(bundle: seq<Manifest>, faults: set<Step>) returns (ok: bool)
      modifies this`entries, this`history
      ensures var ready := MakeScratch !in faults && Fills(bundle, faults) && BackupReserved(faults);
              && RenderedEnds(old(entries), entries, BundleTree(bundle), ready && Installs(old(entries), faults),
                  ready && Loses(old(entries), faults))
              && (ok <==> ready && Swaps(old(entries), faults))
              && (Rendered in old(entries) && old(entries)[Rendered].Dir? ==>
                    AllSafe(history, |old(history)|,
                        |history| - (if ready && Loses(old(entries), faults) then 2 else 0),
                            old(entries)[Rendered].tree, BundleTree(bundle)))
      ensures old(history) <= history && SiblingsKept(old(entries), entries)
      ensures ok ==> Replaced(old(entries), entries, BundleTree(bundle))
      ensures faults !! {ReleaseBackup, DeferredBackup, DeferredScratch} ==> NothingNew(old(entries), entries)
    {
      var temporary := MkdirTemp(false, MakeScratch in faults);
      if MakeScratch in faults {
        return false;
      }
      ghost var made := entries;
      ok := FillAndSwap(temporary, bundle, faults);
      ghost var swapped, until := entries, |history|;
      var dropped := RemoveAll(temporary, DeferredScratch in faults);
      ScratchIsInvisible(old(entries), made, swapped, entries, temporary);
      if Rendered in old(entries) && old(entries)[Rendered].Dir?
          && !(Fills(bundle, faults) && BackupReserved(faults) && Loses(old(entries), faults)) {
        assert Safe(entries, old(entries)[Rendered].tree, BundleTree(bundle));
        assert history[..until] + [entries] == history;
      }
    }

    /** `Write` between making the scratch directory and dropping it. */
    method FillAndSwap(temporary: Name, bundle: seq<Manifest>, faults: set<Step>) returns (ok: bool)
      requires temporary in entries && entries[temporary] == Dir(map[]) && temporary.Scratch?
      modifies this`entries, this`history
      ensures var ready := Fills(bundle, faults) && BackupReserved(faults);
              && RenderedEnds(old(entries), entries, BundleTree(bundle), ready && Installs(old(entries), faults),
                  ready && Loses(old(entries), faults))
              && (ok <==> ready && Swaps(old(entries), faults))
              && (Rendered in old(entries) && old(entries)[Rendered].Dir? ==>
                    AllSafe(history, |old(history)|,
                        |history| - (if ready && Loses(old(entries), faults) then 1 else 0),
                            old(entries)[Rendered].tree, BundleTree(bundle)))
      ensures old(history) <= history && Kept(old(entries), entries, temporary)
      ensures ok ==> temporary !in entries && forall name :: RecognisedLock(old(entries), name) ==> name !in entries
      ensures ok || (ReleaseBackup !in faults && DeferredBackup !in faults) ==> NoNewBackup(old(entries), entries)
    {
      ok := Fill(temporary, bundle, faults);
      if Rendered in old(entries) && old(entries)[Rendered].Dir? {
        AgreementIsSafe(old(entries), history, |old(history)|, temporary, BundleTree(bundle));
      }
      if ok {
        ok := Swap(temporary, faults);
      }
    }

    /** Write the bundle's files into the scratch directory. */
    method Fill(temporary: Name, bundle: seq<Manifest>, faults: set<Step>) returns (ok: bool)
      requires temporary in entries && entries[temporary] == Dir(map[])
      modifies this`entries, this`history
      ensures old(history) <= history
      ensures forall i :: |old(history)| <= i < |history| ==> AgreeExcept(old(entries), history[i], temporary)
      ensures AgreeExcept(old(entries), entries, temporary)
      ensures temporary in entries && entries[temporary].Dir?
      ensures ok <==> Fills(bundle, faults)
      ensures ok ==> entries[temporary] == Dir(BundleTree(bundle))
    {
      for i := 0 to |bundle|
        invariant old(history) <= history
        invariant forall j :: |old(history)| <= j < |history| ==> AgreeExcept(old(entries), history[j], temporary)
        invariant AgreeExcept(old(entries), entries, temporary)
        invariant temporary in entries && entries[temporary] == Dir(BundleTree(bundle[..i]))
        invariant forall j :: 0 <= j < i ==>
                  AcceptedName(bundle[j].name) && !DirectoryName(bundle[j].name) && WriteManifest(j) !in faults
      {
        var accepted := AcceptName(bundle[i].name);
        if !accepted {
          return false;
        }
        assert bundle[..i + 1][..i] == bundle[..i];
        ok := WriteFile(temporary, bundle[i], WriteManifest(i) in faults);
        if !ok {
          return false;
        }
      }
      assert bundle[..|bundle|] == bundle;
      ok := true;
    }

    /** `removeGenerated` for the output directory: the rendered tree and a recognised lock go,
        and the directory itself if nothing else is in it. */
    method RemoveGenerated(faults: set<Step>) returns (ok: bool)
      requires target.Missing? ==> entries == map[]
      modifies this
      ensures SiblingsKept(old(entries), entries) && NothingNew(old(entries), entries)
              && (target.Missing? ==> entries == map[])
      ensures !old(target).Directory? ==> entries == old(entries) && target == old(target)
      ensures ok && old(target).Directory? ==> entries == Cleaned(old(entries))
      ensures ok ==> target == if old(target).Directory? && Cleaned(old(entries)) == map[] then Missing else old(target)
      ensures faults == {} ==> ok
    {
      if InspectOutput in faults {
        return false;
      }
      if !target.Directory? {
        return true;
      }
      if InspectRendered in faults {
        return false;
      }
      if Rendered in entries && entries[Rendered].Dir? {
        ok := RemoveAll(Rendered, DropRendered in faults);
        if !ok {
          return;
        }
      }
      ok := RemoveLegacyLock(faults);
      if !ok {
        return;
      }
      assert entries == Cleaned(old(entries));
      if ListOutput in faults {
        return false;
      }
      if entries == map[] {
        if DropOutput in faults {
          return false;
        }
        target := Missing;
      }
    }
  }

  /** The entries tripgoctl does not recognise as its own. */
  ghost function Cleaned(es: Entries): Entries {
    map name | name in es && !(name == Rendered && es[name].Dir?) && !RecognisedLock(es, name) :: es[name]
  }

  /** What the swap did, seen from before the scratch directory was made to after it was dropped. */
  lemma ScratchIsInvisible(before: Entries, made: Entries, swapped: Entries, after: Entries, temporary: Name)
    requires temporary !in before && temporary.Scratch?
    requires AgreeExcept(before, made, temporary) && AgreeExcept(swapped, after, temporary)
             && Kept(made, swapped, temporary)
    ensures SiblingsKept(before, after)
    ensures NoNewBackup(made, swapped) && temporary !in after ==> NothingNew(before, after)
  {
    forall name | name in before && name != Rendered && !RecognisedLock(before, name)
      ensures name in after && after[name] == before[name]
    {
      assert name in made && made[name] == before[name] && !RecognisedLock(made, name);
      assert name in swapped && swapped[name] == made[name];
    }
  }

  /** What a losing call leaves: for every tree there is a run, with two failing renames, that
      ends with an empty output directory. */
  method LosingRun(tree: Tree) returns (left: Entries)
    ensures left == map[]
  {
    var directory := new OutputDirectory(Directory, map[Rendered := Dir(tree)]);
    var ok := directory.Write([], {Install, RollBack});
    left := directory.entries;
  }

  /** For every old tree and every bundle there is a call, with one failing operation, that
      reports an error and has replaced the tree all the same. */
  method LateFailureRun(tree: Tree, bundle: seq<Manifest>) returns (ok: bool, left: Entries)
    requires Fills(bundle, {})
    ensures !ok && left == map[Rendered := Dir(BundleTree(bundle))]
  {
    var directory := new OutputDirectory(Directory, map[Rendered := Dir(tree)]);
    ok := directory.Write(bundle, {InspectLock});
    left := directory.entries;
  }

  /** Dropping the backup undoes nothing else. */
  lemma DroppingBackup(before: Entries, swapped: Entries, after: Entries, temporary: Name, backup: Name)
    requires backup.Backup? && backup !in before && AgreeExcept(swapped, after, backup)
             && Kept(before, swapped, temporary)
    ensures Kept(before, after, temporary)
  {
    forall name | name in before && name != Rendered && name != temporary && !RecognisedLock(before, name)
      ensures name in after && after[name] == before[name]
    {
      assert name in swapped && swapped[name] == before[name];
    }
  }

  lemma SafeWithoutBackup(before: Entries, swapped: Entries, after: Entries, backup: Name, tree: Tree,
      faults: set<Step>)
    requires backup.Backup? && AgreeExcept(swapped, after, backup)
    requires Rendered in before && before[Rendered].Dir? && !Loses(before, faults)
    requires RenderedEnds(before, swapped, tree, Installs(before, faults), Loses(before, faults))
    ensures Safe(after, before[Rendered].tree, tree)
  {
    assert Rendered in swapped <==> Rendered in after;
  }
}
