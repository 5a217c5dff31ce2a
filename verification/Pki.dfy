/** Publication of a certificate bundle: stage every file, then link or rename them into place, and
    remove what is left of the attempt. Any checked system call may fail; removals are assumed to
    succeed. */
module Pki {
  datatype Output = Output(name: string, data: seq<bv8>, mode: nat)

  /** What an inode holds: a regular file, or anything else a directory entry may lead to. */
  datatype Node = File(data: seq<bv8>, mode: nat) | Subdirectory | Symlink

  /** A directory: several names may share an inode, and inode numbers from `next` on are unused. */
  datatype Disk = Disk(entries: map<string, nat>, inodes: map<nat, Node>, next: nat)

  /** How the system answers: which calls fail, which names temporary files get, and what is left
      in a temporary file whose writing failed half way. */
  datatype System = System(
    mkdirFails: bool,
    createFails: nat -> bool,
    tempName: nat -> string,
    writeFails: nat -> bool,
    halfWritten: nat -> Node,
    publishFails: nat -> bool)

  const STAGING := ".dockauthz-pki-"

  ghost predicate ValidDisk(d: Disk) {
    && (forall n :: n in d.entries ==> d.entries[n] in d.inodes)
    && (forall id :: id in d.inodes ==> id < d.next)
  }

  /** The staging pattern with its star replaced by one of the library's suffixes. */
  predicate IsStagingName(name: string, suffixes: set<string>) {
    STAGING <= name && name[|STAGING|..] in suffixes
  }

  /** os.CreateTemp only chooses names of the staging pattern. In Go the suffixes are the decimal
      numerals of the 32-bit numbers; everything below holds of any set of them. */
  ghost predicate Faithful(sys: System, suffixes: set<string>) {
    forall i :: IsStagingName(sys.tempName(i), suffixes)
  }

  /** name == filepath.Base(name) */
  predicate IsBase(name: string) {
    name == "/" || (name != "" && '/' !in name)
  }

  /** Joined to the directory these name a directory, which neither link nor rename replaces. */
  predicate IsDirectoryName(name: string) {
    name in {".", "..", "/"}
  }

  function Temps(sys: System, n: nat): set<string> {
    set i | 0 <= i < n :: sys.tempName(i)
  }

  function Names(files: seq<Output>, n: nat): set<string>
    requires n <= |files|
  {
    set i | 0 <= i < n :: files[i].name
  }

  lemma TempsGrow(sys: System, n: nat)
    ensures Temps(sys, n + 1) == Temps(sys, n) + {sys.tempName(n)}
  {
  }

  lemma NamesGrow(files: seq<Output>, n: nat)
    requires n < |files|
    ensures Names(files, n + 1) == Names(files, n) + {files[n].name}
  {
  }

  // ---------------------------------------------------------------- the calls

  /** A loop cut short: the directory it left, how many outputs it completed, whether it finished. */
  datatype Attempt = Attempt(disk: Disk, done: nat, ok: bool)

  function Remove(d: Disk, names: set<string>): Disk {
    d.(entries := d.entries - names)
  }

  /** CreateTemp, Write, Chmod, Sync and Close for output i. */
  function StageOne(d: Disk, file: Output, sys: System, i: nat): Attempt {
    if sys.createFails(i) || sys.tempName(i) in d.entries then Attempt(d, i, false)
    else
      var content := if sys.writeFails(i) then sys.halfWritten(i) else File(file.data, file.mode);
      Attempt(
        Disk(d.entries[sys.tempName(i) := d.next], d.inodes[d.next := content], d.next + 1), i + 1, !sys.writeFails(i))
  }

  function LinkOne(d: Disk, file: Output, sys: System, i: nat): Attempt {
    if sys.publishFails(i) || IsDirectoryName(file.name) || file.name in d.entries || sys.tempName(i) !in d.entries then
      Attempt(d, i, false)
    else Attempt(d.(entries := d.entries[file.name := d.entries[sys.tempName(i)]]), i + 1, true)
  }

  /** rename(2): a second name of the same inode is left alone. */
  function RenameOne(d: Disk, file: Output, sys: System, i: nat): Attempt {
    var temp := sys.tempName(i);
    if sys.publishFails(i) || IsDirectoryName(file.name) || temp !in d.entries || IsSubdirectory(d, file.name) then
      Attempt(d, i, false)
    else if file.name in d.entries && d.entries[file.name] == d.entries[temp] then Attempt(d, i + 1, true)
    else Attempt(d.(entries := (d.entries - {temp})[file.name := d.entries[temp]]), i + 1, true)
  }

  predicate IsSubdirectory(d: Disk, name: string) {
    name in d.entries && d.entries[name] in d.inodes && d.inodes[d.entries[name]].Subdirectory?
  }

  // ---------------------------------------------------------------- the loops

  function Stage(d: Disk, files: seq<Output>, sys: System, n: nat): Attempt
    requires n <= |files|
  {
    if n == 0 then Attempt(d, 0, true)
    else
      var a := Stage(d, files, sys, n - 1);
      if a.ok then StageOne(a.disk, files[n - 1], sys, n - 1) else a
  }

  function Publish(d: Disk, files: seq<Output>, force: bool, sys: System, n: nat): (a: Attempt)
    requires n <= |files|
    ensures a.done <= n
  {
    if n == 0 then Attempt(d, 0, true)
    else
      var a := Publish(d, files, force, sys, n - 1);
      if !a.ok then a
      else if force then RenameOne(a.disk, files[n - 1], sys, n - 1)
      else LinkOne(a.disk, files[n - 1], sys, n - 1)
  }

  /** writeBundle as a function of the directory and of how the system answers. */
  function Outcome(d: Disk, files: seq<Output>, force: bool, sys: System): (Disk, bool) {
    if sys.mkdirFails || exists i :: 0 <= i < |files| && !IsBase(files[i].name) then (d, false)
    else
      var staged := Stage(d, files, sys, |files|);
      if !staged.ok then (Remove(staged.disk, Temps(sys, staged.done)), false)
      else
        var published := Publish(staged.disk, files, force, sys, |files|);
        var kept :=
          if !published.ok && !force then Remove(published.disk, Names(files, published.done)) else published.disk;
        (Remove(kept, Temps(sys, |files|)), published.ok)
  }

  class Directory {
    var entries: map<string, nat>
    var inodes: map<nat, Node>
    var next: nat

    constructor (d: Disk)
      ensures View() == d
    {
      entries, inodes, next := d.entries, d.inodes, d.next;
    }

    function View(): Disk
      reads this
    {
      Disk(entries, inodes, next)
    }

    method Set(d: Disk)
      modifies this
      ensures View() == d
    {
      entries, inodes, next := d.entries, d.inodes, d.next;
    }

    method RemoveNames(names: seq<string>)
      modifies this
      ensures View() == Remove(old(View()), set n | n in names)
    {
      for i := 0 to |names|
        invariant View() == Remove(old(View()), set n | n in names[..i])
      {
        entries := entries - {names[i]};
      }
      assert names[..|names|] == names;
    }

    /** writeBundle, with the deferred removal of every temporary file on each way out. */
    method WriteBundle(files: seq<Output>, force: bool, sys: System) returns (ok: bool)
      modifies this
      ensures (View(), ok) == Outcome(old(View()), files, force, sys)
    {
      if sys.mkdirFails {
        return false;
      }
      for i := 0 to |files|
        invariant View() == old(View())
        invariant forall j :: 0 <= j < i ==> IsBase(files[j].name)
      {
        if !IsBase(files[i].name) {
          return false;
        }
      }
      var temps: seq<string>;
      ok, temps := StageAll(files, sys);
      if ok {
        ok := PublishAll(files, force, sys);
      }
      RemoveNames(temps);
    }

    method StageAll(files: seq<Output>, sys: System) returns (ok: bool, temps: seq<string>)
      modifies this
      ensures var a := Stage(old(View()), files, sys, |files|);
        View() == a.disk && ok == a.ok && (set t | t in temps) == Temps(sys, a.done) && (ok ==> a.done == |files|)
    {
      temps := [];
      for i := 0 to |files|
        invariant Stage(old(View()), files, sys, i) == Attempt(View(), i, true)
        invariant (set t | t in temps) == Temps(sys, i)
      {
        StageStops(old(View()), files, sys, i + 1, |files|);
        var temp := sys.tempName(i);
        if sys.createFails(i) || temp in entries {
          return false, temps;
        }
        temps := temps + [temp];
        entries := entries[temp := next];
        inodes := inodes[next := if sys.writeFails(i) then sys.halfWritten(i) else File(files[i].data, files[i].mode)];
        next := next + 1;
        TempsGrow(sys, i);
        assert (set t | t in temps) == Temps(sys, i) + {temp};
        if sys.writeFails(i) {
          return false, temps;
        }
      }
      ok := true;
    }

    method PublishAll(files: seq<Output>, force: bool, sys: System) returns (ok: bool)
      modifies this
      ensures var a := Publish(old(View()), files, force, sys, |files|);
        ok == a.ok && View() == if !a.ok && !force then Remove(a.disk, Names(files, a.done)) else a.disk
    {
      var created: seq<string> := [];
      for i := 0 to |files|
        invariant Publish(old(View()), files, force, sys, i) == Attempt(View(), i, true)
        invariant (set c | c in created) == Names(files, i)
      {
        PublishStops(old(View()), files, force, sys, i + 1, |files|);
        var step := if force then RenameOne(View(), files[i], sys, i) else LinkOne(View(), files[i], sys, i);
        Set(step.disk);
        if !step.ok {
          if !force {
            RemoveNames(created);
          }
          return false;
        }
        created := created + [files[i].name];
        NamesGrow(files, i);
        assert (set c | c in created) == Names(files, i) + {files[i].name};
      }
      ok := true;
    }
  }

  /** A loop that has failed does nothing more. */
  lemma {:induction false} StageStops(d: Disk, files: seq<Output>, sys: System, n: nat, m: nat)
    requires n <= m <= |files|
    ensures !Stage(d, files, sys, n).ok ==> Stage(d, files, sys, m) == Stage(d, files, sys, n)
  {
    if n < m {
      StageStops(d, files, sys, n, m - 1);
    }
  }

  lemma {:induction false} PublishStops(d: Disk, files: seq<Output>, force: bool, sys: System, n: nat, m: nat)
    requires n <= m <= |files|
    ensures !Publish(d, files, force, sys, n).ok ==> Publish(d, files, force, sys, m) == Publish(d, files, force, sys, n)
  {
    if n < m {
      PublishStops(d, files, force, sys, n, m - 1);
    }
  }
}
