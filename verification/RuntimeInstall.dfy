/** The staged runtime swap (`packages/cli/src/runtime-install.ts`).

    The file system is three places: where the runtime lives, where an update is staged, and
    where the old runtime is kept meanwhile.  Copying and removing a tree go through partial
    states and may throw in any of them; a move happens whole or not at all.  The history keeps
    every state the disk goes through, so what holds of the history holds wherever the process
    dies. */
module RuntimeInstall {
  import opened Basics

  datatype Place = Location | Staging | Backup

  /** A module tree: what it is, the version its wrapper names, and the two files that are
      looked for before it is swapped in. */
  datatype Tree = Tree(content: string, version: Option<string>, hasEntry: bool, hasWeb: bool)

  type Disk = map<Place, Tree>

  /** How the next copy, removal or move goes: the partial states it passes through, and whether
      it then throws. */
  datatype Fault = Fault(middle: seq<Option<Tree>>, throws: bool)

  datatype World = World(disk: Disk, faults: seq<Fault>, history: seq<Disk>)

  // ---------------------------------------------------------------- the file system

  function SetPlace(disk: Disk, place: Place, tree: Option<Tree>): Disk {
    if tree.Some? then disk[place := tree.value] else disk - {place}
  }

  function Passing(disk: Disk, place: Place, middle: seq<Option<Tree>>): (r: seq<Disk>)
    ensures |r| == |middle| && forall i | 0 <= i < |r| :: r[i] == SetPlace(disk, place, middle[i])
  {
    seq(|middle|, i requires 0 <= i < |middle| => SetPlace(disk, place, middle[i]))
  }

  function NextFault(w: World): Fault {
    if w.faults == [] then Fault([], false) else w.faults[0]
  }

  function LaterFaults(w: World): seq<Fault> {
    if w.faults == [] then [] else w.faults[1..]
  }

  /** `copyTree` with a tree, `remove` with none; false if it throws. */
  function Write(w: World, place: Place, tree: Option<Tree>): (World, bool) {
    var f := NextFault(w);
    var passing := Passing(w.disk, place, f.middle);
    if f.throws then
      var left := if passing == [] then w.disk else passing[|passing| - 1];
      (World(left, LaterFaults(w), w.history + passing), false)
    else
      var done := SetPlace(w.disk, place, tree);
      (World(done, LaterFaults(w), w.history + passing + [done]), true)
  }

  function Remove(w: World, place: Place): (World, bool) {
    Write(w, place, None)
  }

  function RemoveIfThere(w: World, place: Place): (World, bool) {
    if place in w.disk then Remove(w, place) else (w, true)
  }

  /** `move`: a rename, onto a place that is free. */
  function Move(w: World, from: Place, to: Place): (World, bool) {
    if NextFault(w).throws || from !in w.disk || to in w.disk then
      (World(w.disk, LaterFaults(w), w.history), false)
    else
      var moved := (w.disk - {from})[to := w.disk[from]];
      (World(moved, LaterFaults(w), w.history + [moved]), true)
  }

  function MoveIfThere(w: World, from: Place, to: Place): (World, bool) {
    if from in w.disk then Move(w, from, to) else (w, true)
  }

  // ---------------------------------------------------------------- installing

  datatype Intent = Ensure | Update | Keep

  datatype Action = Installed | Updated | Reused | InPlace

  datatype Transaction = Transaction(previousVersion: Option<string>)

  datatype Outcome = Returned(action: Action, version: string, transaction: Option<Transaction>) | Threw

  predicate IsValidated(t: Tree) {
    t.hasEntry && t.hasWeb
  }

  function ExistingVersion(disk: Disk): Option<string> {
    if Location in disk then disk[Location].version else None
  }

  /** Copy the source into the staging place and look at it. */
  function Stage(w: World, source: Tree): (World, bool) {
    var (cleared, ok) := RemoveIfThere(w, Staging);
    if !ok then (cleared, false)
    else
      var (copied, copyOk) := Write(cleared, Staging, Some(source));
      if !copyOk then (copied, false)
      else if !IsValidated(source) then (Remove(copied, Staging).0, false)
      else (copied, true)
  }

  /** Move the old runtime aside and the staged one in; move the old one back if that throws. */
  function Swap(w: World): (World, bool) {
    var (cleared, ok) := RemoveIfThere(w, Backup);
    if !ok then (cleared, false)
    else
      var (aside, asideOk) := MoveIfThere(cleared, Location, Backup);
      if !asideOk then (aside, false)
      else
        var (swapped, swapOk) := Move(aside, Staging, Location);
        if swapOk then (swapped, true) else (MoveIfThere(swapped, Backup, Location).0, false)
  }

  /** The part of `installDurableRuntime` that changes the disk. */
  function StageAndSwap(w: World, source: Tree, version: string, retain: bool): (World, Outcome) {
    var existing := ExistingVersion(w.disk);
    var (staged, stageOk) := Stage(w, source);
    if !stageOk then (staged, Threw)
    else
      var (swapped, swapOk) := Swap(staged);
      if !swapOk then (swapped, Threw)
      else
        var (done, doneOk) := if retain then (swapped, true) else RemoveIfThere(swapped, Backup);
        if !doneOk then (done, Threw)
        else
          (done, Returned(
             if existing.None? then Installed else Updated, version,
             if retain then Some(Transaction(existing)) else None))
  }

  /** `installDurableRuntime`. */
  function Install(w: World, durable: bool, intent: Intent, source: Tree, version: string, retain: bool): (World, Outcome) {
    var existing := ExistingVersion(w.disk);
    if durable then (w, Returned(InPlace, version, None))
    else if intent.Keep? && existing.Some? then (w, Returned(Reused, existing.value, None))
    else if !intent.Update? && existing == Some(version) then (w, Returned(Reused, version, None))
    else StageAndSwap(w, source, version, retain)
  }

  /** `finalizeDurableRuntimeInstall`. */
  function Finalize(w: World, result: Outcome): (World, bool) {
    if result.Returned? && result.transaction.Some? then RemoveIfThere(w, Backup) else (w, true)
  }

  /** `rollbackDurableRuntimeInstall`. */
  function Rollback(w: World, result: Outcome): (World, bool) {
    if !(result.Returned? && result.transaction.Some?) then (w, true)
    else
      var (removed, ok) := RemoveIfThere(w, Location);
      if !ok then (removed, false) else MoveIfThere(removed, Backup, Location)
  }

  // ---------------------------------------------------------------- what an operation touches

  function At(disk: Disk, place: Place): Option<Tree> {
    if place in disk then Some(disk[place]) else None
  }

  /** From `w` to `v` every state the disk went through has property `good`. */
  predicate Through(w: World, v: World, good: Disk -> bool) {
    && |w.history| <= |v.history|
    && v.history[..|w.history|] == w.history
    && (good(w.disk) ==> good(v.disk))
    && (good(w.disk) ==> forall i | |w.history| <= i < |v.history| :: good(v.history[i]))
  }

  lemma ThroughJoins(a: World, b: World, c: World, good: Disk -> bool)
    requires Through(a, b, good) && Through(b, c, good)
    ensures Through(a, c, good)
  {
    assert c.history[..|a.history|] == c.history[..|b.history|][..|a.history|];
    if good(a.disk) {
      forall i | |a.history| <= i < |c.history| ensures good(c.history[i]) {
        if i < |b.history| { assert c.history[i] == c.history[..|b.history|][i]; }
      }
    }
  }

  /** The property does not look at one place. */
  ghost predicate Ignores(good: Disk -> bool, place: Place) {
    forall disk: Disk, tree: Option<Tree> :: good(disk) ==> good(SetPlace(disk, place, tree))
  }

  /** Every state a write adds to the history differs from the disk before it in one place. */
  lemma WriteState(w: World, place: Place, tree: Option<Tree>, i: nat) returns (left: Option<Tree>)
    requires |w.history| <= i < |Write(w, place, tree).0.history|
    ensures Write(w, place, tree).0.history[i] == SetPlace(w.disk, place, left)
  {
    var middle := NextFault(w).middle;
    left := if i - |w.history| < |middle| then middle[i - |w.history|] else tree;
  }

  lemma WriteEnds(w: World, place: Place, tree: Option<Tree>)
    ensures var v := Write(w, place, tree).0;
            v.disk == w.disk || exists left :: v.disk == SetPlace(w.disk, place, left)
    ensures forall other | other != place :: At(Write(w, place, tree).0.disk, other) == At(w.disk, other)
    ensures Write(w, place, tree).1 ==> At(Write(w, place, tree).0.disk, place) == tree
  {
  }

  /** Writing one place touches no other, whatever goes wrong. */
  lemma WriteTouchesOnePlace(w: World, place: Place, tree: Option<Tree>, good: Disk -> bool)
    requires Ignores(good, place)
    ensures Through(w, Write(w, place, tree).0, good)
    ensures forall other | other != place :: At(Write(w, place, tree).0.disk, other) == At(w.disk, other)
    ensures Write(w, place, tree).1 ==> At(Write(w, place, tree).0.disk, place) == tree
  {
    WriteEnds(w, place, tree);
    var v := Write(w, place, tree).0;
    assert v.history[..|w.history|] == w.history;
    if good(w.disk) {
      forall i | |w.history| <= i < |v.history| ensures good(v.history[i]) {
        var left := WriteState(w, place, tree, i);
      }
    }
  }

  // ---------------------------------------------------------------- main results

  /** The old runtime is whole, in its place or in the backup; or the new one is in its place. */
  predicate Runs(disk: Disk, previous: Tree, source: Tree) {
    || At(disk, Location) == Some(previous)
    || At(disk, Backup) == Some(previous)
    || (At(disk, Location) == Some(source) && IsValidated(source))
  }

  function RunsOf(previous: Tree, source: Tree): Disk -> bool {
    (disk: Disk) => Runs(disk, previous, source)
  }

  /** The old runtime is still where it was. */
  function Holds(place: Place, tree: Tree): Disk -> bool {
    (disk: Disk) => At(disk, place) == Some(tree)
  }

  lemma HoldsIgnores(place: Place, tree: Tree, other: Place)
    requires place != other
    ensures Ignores(Holds(place, tree), other)
  {
  }

  /** Staging never touches the runtime or the backup; a validated source is then staged. */
  lemma StageKeepsTheRest(w: World, source: Tree, place: Place, tree: Tree)
    requires place != Staging
    ensures Through(w, Stage(w, source).0, Holds(place, tree))
    ensures At(Stage(w, source).0.disk, place) == At(w.disk, place)
    ensures Stage(w, source).1 ==> At(Stage(w, source).0.disk, Staging) == Some(source) && IsValidated(source)
  {
    var good := Holds(place, tree);
    HoldsIgnores(place, tree, Staging);
    WriteTouchesOnePlace(w, Staging, None, good);
    var (cleared, ok) := RemoveIfThere(w, Staging);
    if ok {
      WriteTouchesOnePlace(cleared, Staging, Some(source), good);
      var (copied, copyOk) := Write(cleared, Staging, Some(source));
      ThroughJoins(w, cleared, copied, good);
      if copyOk && !IsValidated(source) {
        WriteTouchesOnePlace(copied, Staging, None, good);
        ThroughJoins(w, copied, Remove(copied, Staging).0, good);
      }
    }
  }

  lemma WeakerThrough(w: World, v: World, strong: Disk -> bool, weak: Disk -> bool)
    requires Through(w, v, strong) && strong(w.disk) && forall disk :: strong(disk) ==> weak(disk)
    ensures Through(w, v, weak)
  {
  }

  lemma MoveGoesThrough(w: World, from: Place, to: Place, good: Disk -> bool)
    requires good(w.disk) ==> good(MoveIfThere(w, from, to).0.disk)
    ensures Through(w, MoveIfThere(w, from, to).0, good)
  {
  }

  /** The swap: the old runtime is in its place, in the backup, or replaced by the staged one. */
  lemma SwapKeepsARuntime(w: World, previous: Tree, source: Tree)
    requires At(w.disk, Location) == Some(previous) && At(w.disk, Staging) == Some(source) && IsValidated(source)
    ensures Through(w, Swap(w).0, RunsOf(previous, source))
  {
    var good := RunsOf(previous, source);
    var (cleared, ok) := RemoveIfThere(w, Backup);
    ClearingKeepsTheRest(w, previous);
    WeakerThrough(w, cleared, Holds(Location, previous), good);
    if ok {
      var (aside, asideOk) := MoveIfThere(cleared, Location, Backup);
      MoveGoesThrough(cleared, Location, Backup, good);
      ThroughJoins(w, cleared, aside, good);
      if asideOk {
        var (swapped, swapOk) := MoveIfThere(aside, Staging, Location);
        MoveGoesThrough(aside, Staging, Location, good);
        ThroughJoins(w, aside, swapped, good);
        if !swapOk {
          MoveGoesThrough(swapped, Backup, Location, good);
          ThroughJoins(w, swapped, MoveIfThere(swapped, Backup, Location).0, good);
        }
      }
    }
  }

  lemma ClearingKeepsTheRest(w: World, previous: Tree)
    requires At(w.disk, Location) == Some(previous)
    ensures Through(w, RemoveIfThere(w, Backup).0, Holds(Location, previous))
    ensures At(RemoveIfThere(w, Backup).0.disk, Location) == Some(previous)
    ensures At(RemoveIfThere(w, Backup).0.disk, Staging) == At(w.disk, Staging)
    ensures RemoveIfThere(w, Backup).1 ==> At(RemoveIfThere(w, Backup).0.disk, Backup) == None
  {
    HoldsIgnores(Location, previous, Backup);
    WriteTouchesOnePlace(w, Backup, None, Holds(Location, previous));
  }

  /** Moving the staged runtime in threw, and so did moving the old one back. */
  predicate MoveBackThrew(w: World) {
    var (cleared, clearedOk) := RemoveIfThere(w, Backup);
    var (aside, asideOk) := MoveIfThere(cleared, Location, Backup);
    var (swapped, swapOk) := Move(aside, Staging, Location);
    clearedOk && asideOk && !swapOk && NextFault(swapped).throws
  }

  lemma SwapEnds(w: World, previous: Tree, source: Tree)
    requires At(w.disk, Location) == Some(previous) && At(w.disk, Staging) == Some(source)
    ensures Swap(w).1 ==> At(Swap(w).0.disk, Location) == Some(source) && At(Swap(w).0.disk, Backup) == Some(previous)
    ensures !Swap(w).1 && !MoveBackThrew(w) ==> At(Swap(w).0.disk, Location) == Some(previous)
    ensures MoveBackThrew(w) ==> !Swap(w).1 && At(Swap(w).0.disk, Location) == None
                                 && At(Swap(w).0.disk, Backup) == Some(previous)
  {
    ClearingKeepsTheRest(w, previous);
  }

  /** However an update of an installed runtime goes, and wherever the process dies in it, the old
      runtime is whole in its place or in the backup, or the new one is whole in its place. */
  lemma EveryStateKeepsARuntime(w: World, previous: Tree, source: Tree, version: string, retain: bool)
    requires At(w.disk, Location) == Some(previous)
    ensures Through(w, StageAndSwap(w, source, version, retain).0, RunsOf(previous, source))
  {
    var good := RunsOf(previous, source);
    var (staged, stageOk) := Stage(w, source);
    StageKeepsTheRest(w, source, Location, previous);
    WeakerThrough(w, staged, Holds(Location, previous), good);
    if stageOk {
      SwapKeepsARuntime(staged, previous, source);
      SwapEnds(staged, previous, source);
      var (swapped, swapOk) := Swap(staged);
      ThroughJoins(w, staged, swapped, good);
      if swapOk && !retain {
        HoldsIgnores(Location, source, Backup);
        WriteTouchesOnePlace(swapped, Backup, None, Holds(Location, source));
        var done := RemoveIfThere(swapped, Backup).0;
        assert Through(swapped, done, Holds(Location, source));
        WeakerThrough(swapped, done, Holds(Location, source), good);
        ThroughJoins(w, swapped, done, good);
      }
    }
  }

  /** What a call leaves: done, the new runtime, with the old one kept if asked; failed, the old
      runtime in its place, or the new one if only clearing the backup failed.  The place is left
      empty exactly when moving the new runtime in threw and moving the old one back threw too;
      then the old one is whole in the backup. */
  lemma CallLeavesOneRuntime(w: World, previous: Tree, source: Tree, version: string, retain: bool)
    requires At(w.disk, Location) == Some(previous)
    ensures
      var (v, outcome) := StageAndSwap(w, source, version, retain);
      var stranded := Stage(w, source).1 && MoveBackThrew(Stage(w, source).0);
      && (outcome.Returned? ==>
            && At(v.disk, Location) == Some(source) && IsValidated(source)
            && At(v.disk, Backup) == (if retain then Some(previous) else None))
      && (outcome.Threw? && !stranded ==>
            || At(v.disk, Location) == Some(previous)
            || (!retain && At(v.disk, Location) == Some(source) && IsValidated(source)))
      && (stranded <==> At(v.disk, Location) == None)
      && (stranded ==> outcome.Threw? && At(v.disk, Backup) == Some(previous))
  {
    var (staged, stageOk) := Stage(w, source);
    StageKeepsTheRest(w, source, Location, previous);
    if stageOk {
      SwapEnds(staged, previous, source);
      var (swapped, swapOk) := Swap(staged);
      if swapOk && !retain {
        HoldsIgnores(Location, source, Backup);
        WriteTouchesOnePlace(swapped, Backup, None, Holds(Location, source));
      }
    }
  }

  /** A tree is whole in the backup, or in its place. */
  function IsSafe(tree: Tree): Disk -> bool {
    (disk: Disk) => At(disk, Backup) == Some(tree) || At(disk, Location) == Some(tree)
  }

  /** Rolling back a retained update puts back exactly what was there, and in every state on the
      way the old runtime is whole in the backup or back in its place. */
  lemma RollbackRestores(w: World, source: Tree, version: string, between: World, faults: seq<Fault>)
    requires StageAndSwap(w, source, version, true).1.Returned?
    requires between == StageAndSwap(w, source, version, true).0.(faults := faults)
    ensures
      var (v, ok) := Rollback(between, StageAndSwap(w, source, version, true).1);
      && (ok ==> At(v.disk, Location) == At(w.disk, Location) && At(v.disk, Backup) == None)
      && (!ok && Location in w.disk ==> At(v.disk, Backup) == At(w.disk, Location))
      && (Location in w.disk ==> IsSafe(w.disk[Location])(between.disk) && Through(between, v, IsSafe(w.disk[Location])))
  {
    SwapsWhateverWasThere(w, source, version);
    WriteEnds(between, Location, None);
    if Location in w.disk { RollbackGoesThrough(between, w.disk[Location]); }
  }

  lemma RollbackGoesThrough(between: World, tree: Tree)
    requires At(between.disk, Backup) == Some(tree)
    ensures var (removed, ok) := RemoveIfThere(between, Location);
            && Through(between, removed, IsSafe(tree))
            && (ok ==> Through(between, MoveIfThere(removed, Backup, Location).0, IsSafe(tree)))
  {
    var (removed, ok) := RemoveIfThere(between, Location);
    HoldsIgnores(Backup, tree, Location);
    WriteTouchesOnePlace(between, Location, None, Holds(Backup, tree));
    WeakerThrough(between, removed, Holds(Backup, tree), IsSafe(tree));
    MoveGoesThrough(removed, Backup, Location, IsSafe(tree));
    ThroughJoins(between, removed, MoveIfThere(removed, Backup, Location).0, IsSafe(tree));
  }

  /** A swap that goes well puts what was staged in the place and what was there in the backup. */
  lemma SwapEndsWell(w: World)
    requires Staging in w.disk && Swap(w).1
    ensures At(Swap(w).0.disk, Location) == At(w.disk, Staging) && At(Swap(w).0.disk, Backup) == At(w.disk, Location)
  {
    WriteEnds(w, Backup, None);
  }

  lemma SwapsWhateverWasThere(w: World, source: Tree, version: string)
    requires StageAndSwap(w, source, version, true).1.Returned?
    ensures
      var v := StageAndSwap(w, source, version, true).0;
      At(v.disk, Location) == Some(source) && At(v.disk, Backup) == At(w.disk, Location)
  {
    var staged := Stage(w, source).0;
    StageKeepsTheRest(w, source, Location, source);
    SwapEndsWell(staged);
  }

  lemma ReturnsWithTheSource(w: World, source: Tree, version: string, retain: bool)
    requires StageAndSwap(w, source, version, retain).1.Returned?
    ensures At(StageAndSwap(w, source, version, retain).0.disk, Location) == Some(source)
    ensures StageAndSwap(w, source, version, retain).1.version == version
  {
    var staged := Stage(w, source).0;
    StageKeepsTheRest(w, source, Location, source);
    SwapEndsWell(staged);
    WriteEnds(Swap(staged).0, Backup, None);
  }

  /** Finalising keeps the new runtime, and doing it again changes nothing. */
  lemma FinalizeKeepsTheRuntime(w: World, result: Outcome, tree: Tree)
    requires At(w.disk, Location) == Some(tree)
    ensures Through(w, Finalize(w, result).0, Holds(Location, tree))
    ensures Finalize(w, result).1 ==> Finalize(Finalize(w, result).0, result) == Finalize(w, result)
  {
    HoldsIgnores(Location, tree, Backup);
    WriteTouchesOnePlace(w, Backup, None, Holds(Location, tree));
  }

  /** A call that returns has left the version it reports in the place, and asking again for a
      runtime, without insisting on an update, changes nothing. */
  lemma InstalledVersionIsThere(w: World, intent: Intent, source: Tree, version: string, retain: bool, again: bool)
    requires source.version == Some(version) && Install(w, false, intent, source, version, retain).1.Returned?
    ensures
      var (v, outcome) := Install(w, false, intent, source, version, retain);
      && ExistingVersion(v.disk) == Some(outcome.version)
      && Install(v, false, if intent.Update? then Ensure else intent, source, version, again)
         == (v, Returned(Reused, outcome.version, None))
  {
    if StageAndSwap(w, source, version, retain).1.Returned? {
      ReturnsWithTheSource(w, source, version, retain);
    }
  }

  /** The update started on this disk keeps a runtime in every state it goes through. */
  predicate Survives(disk: Disk, faults: seq<Fault>, previous: Tree, source: Tree, version: string, retain: bool) {
    var v := StageAndSwap(World(disk, faults, []), source, version, retain).0;
    Runs(v.disk, previous, source) && forall i | 0 <= i < |v.history| :: Runs(v.history[i], previous, source)
  }

  const FINE := Fault([], false)
  const THROWS := Fault([], true)

  /** As many operations that go well as come before the staged runtime is moved in; then moving
      it in throws, and whatever is moved back throws as well. */
  function LosingFaults(disk: Disk): seq<Fault> {
    (if Staging in disk then [FINE] else []) + [FINE] + FaultsToSwap(disk)
  }

  function FaultsToSwap(disk: Disk): seq<Fault> {
    (if Backup in disk then [FINE] else []) + (if Location in disk then [FINE] else []) + [THROWS, THROWS]
  }

  lemma StageGoesWell(disk: Disk, source: Tree)
    requires IsValidated(source)
    ensures var (staged, ok) := Stage(World(disk, LosingFaults(disk), []), source);
            ok && staged.disk == disk[Staging := source] && staged.faults == FaultsToSwap(disk)
  {
    var w := World(disk, LosingFaults(disk), []);
    var cleared := RemoveIfThere(w, Staging).0;
    assert cleared.faults == [FINE] + FaultsToSwap(disk);
    assert cleared.disk == disk - {Staging};
    assert SetPlace(disk - {Staging}, Staging, Some(source)) == disk[Staging := source];
  }

  lemma SwapLoses(w: World, disk: Disk, source: Tree)
    requires w.disk == disk[Staging := source] && w.faults == FaultsToSwap(disk)
    ensures At(Swap(w).0.disk, Location) == None && !Swap(w).1
    ensures At(Swap(w).0.disk, Backup) == At(disk, Location)
  {
    var cleared := RemoveIfThere(w, Backup).0;
    assert cleared.faults == (if Location in disk then [FINE] else []) + [THROWS, THROWS];
    assert At(cleared.disk, Location) == At(disk, Location) && At(cleared.disk, Backup) == None;
    var aside := MoveIfThere(cleared, Location, Backup).0;
    assert aside.faults == [THROWS, THROWS];
    assert At(aside.disk, Location) == None && At(aside.disk, Backup) == At(disk, Location);
  }

  /** An update can be trusted with a runtime, whatever throws and wherever it stops, exactly when
      that runtime is in its place as the update starts, or only in the backup and there is
      nothing valid to swap in. */
  lemma UpdateIsSafeExactly(disk: Disk, previous: Tree, source: Tree, version: string, retain: bool)
    ensures (forall faults :: Survives(disk, faults, previous, source, version, retain))
       <==> || At(disk, Location) == Some(previous)
            || (At(disk, Backup) == Some(previous) && !IsValidated(source))
  {
    var w := World(disk, LosingFaults(disk), []);
    if At(disk, Location) == Some(previous) {
      forall faults ensures Survives(disk, faults, previous, source, version, retain) {
        EveryStateKeepsARuntime(World(disk, faults, []), previous, source, version, retain);
      }
    } else if IsValidated(source) {
      StageGoesWell(disk, source);
      SwapLoses(Stage(w, source).0, disk, source);
      assert !Survives(disk, LosingFaults(disk), previous, source, version, retain);
    } else if At(disk, Backup) == Some(previous) {
      forall faults ensures Survives(disk, faults, previous, source, version, retain) {
        StageKeepsTheRest(World(disk, faults, []), source, Backup, previous);
      }
    } else {
      NothingThereNothingKept(disk, previous, source, version, retain);
    }
  }

  lemma NothingThereNothingKept(disk: Disk, previous: Tree, source: Tree, version: string, retain: bool)
    requires At(disk, Location) != Some(previous) && At(disk, Backup) != Some(previous) && !IsValidated(source)
    ensures !Survives(disk, [], previous, source, version, retain)
  {
    var w := World(disk, [], []);
    StageKeepsTheRest(w, source, Location, previous);
    StageKeepsTheRest(w, source, Backup, previous);
  }

  /** After a crash between the two moves only the backup is whole.  The next update clears it
      before its own runtime is in place; if its move then throws, neither place holds one. */
  lemma UpdateAfterACrashCanLoseTheOld() returns (w: World, previous: Tree, source: Tree)
    ensures At(w.disk, Location) == None && At(w.disk, Backup) == Some(previous) && IsValidated(previous) && IsValidated(source)
    ensures
      var (v, outcome) := StageAndSwap(w, source, "2", false);
      outcome.Threw? && At(v.disk, Location) == None && At(v.disk, Backup) == None
  {
    previous := Tree("old", Some("1"), true, true);
    source := Tree("new", Some("2"), true, true);
    var fine := Fault([], false);
    w := World(map[Backup := previous], [fine, fine, Fault([], true)], []);
    var copied := Write(w, Staging, Some(source)).0;
    assert Stage(w, source) == (copied, true);
    var cleared := Remove(copied, Backup).0;
    assert cleared.disk == map[Staging := source];
    assert cleared.faults == [Fault([], true)];
    assert MoveIfThere(cleared, Location, Backup) == (cleared, true);
    var failed := Move(cleared, Staging, Location).0;
    assert failed.disk == cleared.disk;
    assert Swap(copied) == (MoveIfThere(failed, Backup, Location).0, false);
  }

  // ---------------------------------------------------------------- when nothing goes wrong

  lemma QuietStage(w: World, source: Tree)
    requires w.faults == []
    ensures Stage(w, source).0.faults == [] && (Stage(w, source).1 <==> IsValidated(source))
    ensures Stage(w, source).0.disk == if IsValidated(source) then w.disk[Staging := source] else w.disk - {Staging}
  {
    var cleared := RemoveIfThere(w, Staging).0;
    assert cleared.disk == w.disk - {Staging};
    assert SetPlace(w.disk - {Staging}, Staging, Some(source)) == w.disk[Staging := source];
    assert w.disk[Staging := source] - {Staging} == w.disk - {Staging};
  }

  lemma QuietSwap(w: World)
    requires w.faults == [] && Staging in w.disk
    ensures Swap(w).1 && Swap(w).0.faults == []
    ensures At(Swap(w).0.disk, Location) == At(w.disk, Staging) && At(Swap(w).0.disk, Backup) == At(w.disk, Location)
    ensures At(Swap(w).0.disk, Staging) == None
  {
  }

  /** When nothing goes wrong, an update succeeds exactly with a valid source: the runtime is the
      source, the old one is kept in the backup if asked and gone otherwise, and nothing is staged.
      With an invalid one, nothing but the staging place is touched. */
  lemma QuietUpdateSucceedsExactly(w: World, source: Tree, version: string, retain: bool)
    requires w.faults == []
    ensures var (v, outcome) := StageAndSwap(w, source, version, retain);
            if IsValidated(source) then
              && At(v.disk, Location) == Some(source) && At(v.disk, Staging) == None
              && At(v.disk, Backup) == (if retain then At(w.disk, Location) else None)
              && outcome == Returned(
                   if Location in w.disk && w.disk[Location].version.Some? then Updated else Installed, version,
                   if retain then Some(Transaction(if Location in w.disk then w.disk[Location].version else None)) else None)
            else outcome == Threw && v.disk == w.disk - {Staging}
  {
    QuietStage(w, source);
    if IsValidated(source) { QuietSwap(Stage(w, source).0); }
  }

  /** A call copies nothing for a program that is already installed, for one that may keep what it
      finds, and for one that finds its own version and does not insist. */
  lemma NothingIsCopiedExactly(w: World, durable: bool, intent: Intent, source: Tree, version: string, retain: bool)
    requires w.faults == [] && IsValidated(source) && At(w.disk, Location) != Some(source)
    ensures var found := if Location in w.disk then w.disk[Location].version else None;
            Install(w, durable, intent, source, version, retain).0 == w
            <==> durable || (intent == Keep && found.Some?) || (intent != Update && found == Some(version))
    ensures var found := if Location in w.disk then w.disk[Location].version else None;
            var outcome := Install(w, durable, intent, source, version, retain).1;
            outcome.Returned? && outcome.action ==
              if durable then InPlace
              else if (intent == Keep && found.Some?) || (intent != Update && found == Some(version)) then Reused
              else if found.Some? then Updated else Installed
  {
    QuietUpdateSucceedsExactly(w, source, version, retain);
  }

  /** Finalising a retained update removes the backup and nothing else, unless that throws; rolling
      one back succeeds when nothing goes wrong; and neither does anything without a transaction. */
  lemma TransactionEnds(w: World, result: Outcome)
    ensures !(result.Returned? && result.transaction.Some?) ==> Finalize(w, result) == (w, true) && Rollback(w, result) == (w, true)
    ensures result.Returned? && result.transaction.Some? && Finalize(w, result).1 ==>
              var disk := Finalize(w, result).0.disk;
              At(disk, Backup) == None && At(disk, Location) == At(w.disk, Location) && At(disk, Staging) == At(w.disk, Staging)
    ensures result.Returned? && result.transaction.Some? && w.faults == [] ==> Finalize(w, result).1 && Rollback(w, result).1
  {
    WriteEnds(w, Backup, None);
  }
}
