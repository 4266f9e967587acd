/** The installer as it runs: calls on a file system that changes step by step and may throw. */
module RuntimeInstaller {
  import opened Basics
  import opened RuntimeInstall

  class InstallIo {
    var disk: Disk
    var faults: seq<Fault>
    var history: seq<Disk>

    constructor (disk: Disk, faults: seq<Fault>)
      ensures View() == World(disk, faults, [])
    {
      this.disk, this.faults, history := disk, faults, [];
    }

    function View(): World
      reads this
    {
      World(disk, faults, history)
    }

    method TakeFault() returns (f: Fault)
      modifies this`faults
      ensures f == NextFault(old(View())) && faults == LaterFaults(old(View()))
    {
      if |faults| == 0 {
        return Fault([], false);
      }
      f := faults[0];
      faults := faults[1..];
    }

    method CopyOrRemove(place: Place, tree: Option<Tree>) returns (ok: bool)
      modifies this
      ensures (View(), ok) == Write(old(View()), place, tree)
    {
      var f := TakeFault();
      var before := disk;
      for i := 0 to |f.middle|
        invariant disk == if i == 0 then before else SetPlace(before, place, f.middle[i - 1])
        invariant history == old(history) + Passing(before, place, f.middle)[..i]
        invariant faults == LaterFaults(old(View()))
      {
        disk := SetPlace(before, place, f.middle[i]);
        history := history + [disk];
      }
      assert Passing(before, place, f.middle)[..|f.middle|] == Passing(before, place, f.middle);
      if f.throws {
        return false;
      }
      disk := SetPlace(before, place, tree);
      history := history + [disk];
      ok := true;
    }

    method Rename(from: Place, to: Place) returns (ok: bool)
      modifies this
      ensures (View(), ok) == Move(old(View()), from, to)
    {
      var f := TakeFault();
      if f.throws || from !in disk || to in disk {
        return false;
      }
      disk := (disk - {from})[to := disk[from]];
      history := history + [disk];
      ok := true;
    }
  }

  method InstallDurableRuntime(
      io: InstallIo, durable: bool, intent: Intent, source: Tree, version: string, retainBackup: bool)
      returns (outcome: Outcome)
    modifies io
    ensures (io.View(), outcome) == Install(old(io.View()), durable, intent, source, version, retainBackup)
  {
    if durable {
      return Returned(InPlace, version, None);
    }
    var existing: Option<string> := None;
    if Location in io.disk {
      existing := io.disk[Location].version;
    }
    if intent == Keep && existing.Some? {
      return Returned(Reused, existing.value, None);
    }
    if intent != Update && existing == Some(version) {
      return Returned(Reused, version, None);
    }
    var ok := true;
    if Staging in io.disk {
      ok := io.CopyOrRemove(Staging, None);
    }
    if !ok {
      return Threw;
    }
    ok := io.CopyOrRemove(Staging, Some(source));
    if !ok {
      return Threw;
    }
    if !source.hasEntry || !source.hasWeb {
      ok := io.CopyOrRemove(Staging, None);
      return Threw;
    }
    ghost var staged := io.View();
    assert (staged, true) == Stage(old(io.View()), source);
    var swapped := SwapStaged(io);
    if !swapped {
      return Threw;
    }
    if !retainBackup && Backup in io.disk {
      ok := io.CopyOrRemove(Backup, None);
    }
    if !ok {
      return Threw;
    }
    outcome := Returned(
      if existing.None? then Installed else Updated, version,
      if retainBackup then Some(Transaction(existing)) else None);
  }

  method SwapStaged(io: InstallIo) returns (swapped: bool)
    modifies io
    ensures (io.View(), swapped) == Swap(old(io.View()))
  {
    var ok := true;
    if Backup in io.disk {
      ok := io.CopyOrRemove(Backup, None);
    }
    if !ok {
      return false;
    }
    if Location in io.disk {
      ok := io.Rename(Location, Backup);
    }
    if !ok {
      return false;
    }
    swapped := io.Rename(Staging, Location);
    if !swapped && Backup in io.disk {
      ok := io.Rename(Backup, Location);
    }
  }

  method FinalizeDurableRuntimeInstall(io: InstallIo, result: Outcome) returns (ok: bool)
    modifies io
    ensures (io.View(), ok) == Finalize(old(io.View()), result)
  {
    ok := true;
    if result.Returned? && result.transaction.Some? && Backup in io.disk {
      ok := io.CopyOrRemove(Backup, None);
    }
  }

  method RollbackDurableRuntimeInstall(io: InstallIo, result: Outcome) returns (ok: bool)
    modifies io
    ensures (io.View(), ok) == Rollback(old(io.View()), result)
  {
    ok := true;
    if !(result.Returned? && result.transaction.Some?) {
      return;
    }
    if Location in io.disk {
      ok := io.CopyOrRemove(Location, None);
    }
    if ok && Backup in io.disk {
      ok := io.Rename(Backup, Location);
    }
  }
}
