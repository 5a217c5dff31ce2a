/** What publishing a bundle guarantees: all or nothing without force, and nothing stray either way. */
module Publication {
  import opened Basics
  import opened Pki

  // ---------------------------------------------------------------- staging

  /** After staging `a.done` outputs: the staged files, on new inodes, beside an untouched directory. */
  ghost predicate StagedBeside(d: Disk, files: seq<Output>, sys: System, a: Attempt) {
    && a.done <= |files|
    && a.disk.entries - Temps(sys, a.done) == d.entries
    && Temps(sys, a.done) !! d.entries.Keys
    && (forall i :: 0 <= i < a.done ==> Slot(a.disk, sys.tempName(i), d.next + i))
    && a.disk.next == d.next + a.done
    && OldInodes(d, a.disk)
    && (a.ok ==> forall i :: 0 <= i < a.done ==> Content(a.disk, d.next + i, files[i]))
  }

  predicate Slot(d: Disk, name: string, id: nat) {
    name in d.entries && d.entries[name] == id
  }

  predicate Content(d: Disk, id: nat, file: Output) {
    id in d.inodes && d.inodes[id] == File(file.data, file.mode)
  }

  /** Nothing that existed before was written to: a symbolic link is never followed, and another
      hard link to a replaced file keeps its content. */
  ghost predicate OldInodes(d: Disk, d': Disk) {
    forall id :: id in d.inodes ==> id in d'.inodes && d'.inodes[id] == d.inodes[id]
  }

  /** Adding an entry under an unused name, beside others that were added to `base`. */
  lemma AddEntry(base: map<string, nat>, m: map<string, nat>, added: set<string>, name: string, id: nat)
    requires m - added == base && added <= m.Keys && name !in m
    ensures name !in base && name !in added
    ensures m[name := id] - (added + {name}) == base && added + {name} <= m[name := id].Keys
  {
    assert forall k :: k in base ==> k in m - added;
    var after := m[name := id] - (added + {name});
    assert forall k :: k in after <==> k in m && k !in added;
    assert forall k :: k in base <==> k in m && k !in added;
    assert forall k :: k in base ==> base[k] == (m - added)[k] == m[k];
  }

  lemma TempsPresent(d: Disk, files: seq<Output>, sys: System, a: Attempt)
    requires StagedBeside(d, files, sys, a)
    ensures Temps(sys, a.done) <= a.disk.entries.Keys
  {
    forall t | t in Temps(sys, a.done) ensures t in a.disk.entries {
      var i :| 0 <= i < a.done && sys.tempName(i) == t;
      assert Slot(a.disk, sys.tempName(i), d.next + i);
    }
  }

  lemma StageOneIsBeside(d: Disk, files: seq<Output>, sys: System, before: Attempt, i: nat)
    requires ValidDisk(d) && StagedBeside(d, files, sys, before) && before.ok && before.done == i < |files|
    ensures StagedBeside(d, files, sys, StageOne(before.disk, files[i], sys, i))
  {
    var after := StageOne(before.disk, files[i], sys, i);
    var temp := sys.tempName(i);
    if after.done == i + 1 {
      TempsPresent(d, files, sys, before);
      TempsGrow(sys, i);
      AddEntry(d.entries, before.disk.entries, Temps(sys, i), temp, before.disk.next);
      hide Temps;
      forall j | 0 <= j < i ensures Slot(after.disk, sys.tempName(j), d.next + j) {
        assert Slot(before.disk, sys.tempName(j), d.next + j);
      }
      assert Slot(after.disk, temp, d.next + i);
      if after.ok {
        forall j | 0 <= j < i ensures Content(after.disk, d.next + j, files[j]) {
          assert Content(before.disk, d.next + j, files[j]);
        }
      }
    }
  }

  lemma {:induction false} StagingIsBeside(d: Disk, files: seq<Output>, sys: System, n: nat)
    requires ValidDisk(d) && n <= |files|
    ensures StagedBeside(d, files, sys, Stage(d, files, sys, n))
    ensures Stage(d, files, sys, n).ok ==> Stage(d, files, sys, n).done == n
  {
    hide StageOne;
    if n == 0 {
      assert d.entries - Temps(sys, 0) == d.entries;
    } else {
      hide StagedBeside;
      StagingIsBeside(d, files, sys, n - 1);
      var before := Stage(d, files, sys, n - 1);
      if before.ok {
        StageOneIsBeside(d, files, sys, before, n - 1);
        StageOneDone(before.disk, files[n - 1], sys, n - 1);
      }
    }
  }

  lemma StageOneDone(d: Disk, file: Output, sys: System, i: nat)
    ensures StageOne(d, file, sys, i).ok ==> StageOne(d, file, sys, i).done == i + 1
  {
  }

  // ---------------------------------------------------------------- linking

  ghost predicate LinkedBeside(s: Disk, files: seq<Output>, sys: System, a: Attempt)
    requires a.done <= |files|
  {
    && a.disk == s.(entries := a.disk.entries)
    && a.disk.entries - Names(files, a.done) == s.entries
    && Names(files, a.done) <= a.disk.entries.Keys
    && Names(files, a.done) !! s.entries.Keys
    && forall i :: 0 <= i < a.done ==> sys.tempName(i) in s.entries && Slot(a.disk, files[i].name, s.entries[sys.tempName(i)])
  }

  lemma LinkOneIsBeside(s: Disk, files: seq<Output>, sys: System, before: Attempt, i: nat)
    requires before.done == i < |files| && before.ok && LinkedBeside(s, files, sys, before) && sys.tempName(i) in s.entries
    ensures var after := LinkOne(before.disk, files[i], sys, i);
      && after.done <= |files| && LinkedBeside(s, files, sys, after)
      && after.done == (if after.ok then i + 1 else i)
  {
    var after := LinkOne(before.disk, files[i], sys, i);
    var temp := sys.tempName(i);
    if after.ok {
      NamesGrow(files, i);
      AddEntry(s.entries, before.disk.entries, Names(files, i), files[i].name, before.disk.entries[temp]);
      assert temp in before.disk.entries - Names(files, i);
      assert (before.disk.entries - Names(files, i))[temp] == s.entries[temp];
      hide Names;
      forall j | 0 <= j < i ensures sys.tempName(j) in s.entries && Slot(after.disk, files[j].name, s.entries[sys.tempName(j)]) {
        assert Slot(before.disk, files[j].name, s.entries[sys.tempName(j)]);
      }
      assert Slot(after.disk, files[i].name, s.entries[temp]);
    }
  }

  lemma {:induction false} LinkingIsBeside(s: Disk, files: seq<Output>, sys: System, n: nat)
    requires n <= |files| && Temps(sys, |files|) <= s.entries.Keys
    ensures LinkedBeside(s, files, sys, Publish(s, files, false, sys, n))
    ensures Publish(s, files, false, sys, n).ok ==> Publish(s, files, false, sys, n).done == n
  {
    hide LinkOne;
    if n == 0 {
      assert s.entries - Names(files, 0) == s.entries;
    } else {
      hide LinkedBeside;
      LinkingIsBeside(s, files, sys, n - 1);
      var before := Publish(s, files, false, sys, n - 1);
      assert sys.tempName(n - 1) in Temps(sys, |files|);
      if before.ok {
        LinkOneIsBeside(s, files, sys, before, n - 1);
      }
    }
  }

  // ---------------------------------------------------------------- all or nothing

  /** The old directory plus exactly the new files, under names that were free, with their data and modes. */
  ghost predicate ExactlyAdded(d: Disk, files: seq<Output>, d': Disk) {
    && d'.entries - Names(files, |files|) == d.entries
    && Names(files, |files|) !! d.entries.Keys
    && forall i :: 0 <= i < |files| ==>
      files[i].name in d'.entries && d'.entries[files[i].name] !in d.inodes && Content(d', d'.entries[files[i].name], files[i])
  }

  /** Without force publication is all or nothing, whichever calls fail: on error the directory's
      entries are as before, on success exactly the new files were added. Either way no existing
      inode was written to. */
  lemma AllOrNothing(d: Disk, files: seq<Output>, sys: System)
    requires ValidDisk(d)
    ensures var (d', ok) := Outcome(d, files, false, sys);
      && OldInodes(d, d')
      && (if ok then ExactlyAdded(d, files, d') else d'.entries == d.entries)
  {
    var n := |files|;
    var staged := Stage(d, files, sys, n);
    StagingIsBeside(d, files, sys, n);
    hide Stage, Publish, Temps, Names;
    TempsPresent(d, files, sys, staged);
    if staged.ok {
      var published := Publish(staged.disk, files, false, sys, n);
      LinkingIsBeside(staged.disk, files, sys, n);
      if published.ok {
        AddedOnly(d, files, sys, staged, published);
      } else {
        assert Remove(published.disk, Names(files, published.done)).entries == staged.disk.entries;
      }
    }
  }

  lemma AddedOnly(d: Disk, files: seq<Output>, sys: System, staged: Attempt, published: Attempt)
    requires ValidDisk(d) && staged.done == published.done == |files| && staged.ok
    requires StagedBeside(d, files, sys, staged) && LinkedBeside(staged.disk, files, sys, published)
    ensures ExactlyAdded(d, files, Remove(published.disk, Temps(sys, |files|)))
  {
    var temps, names := Temps(sys, |files|), Names(files, |files|);
    var d' := Remove(published.disk, temps);
    TempsPresent(d, files, sys, staged);
    assert d'.entries - names == (published.disk.entries - names) - temps == staged.disk.entries - temps;
    assert forall k :: k in d.entries ==> k in staged.disk.entries - temps;
    forall i | 0 <= i < |files|
      ensures files[i].name in d'.entries && d'.entries[files[i].name] == d.next + i && Content(d', d.next + i, files[i])
    {
      assert files[i].name in names;
      assert Slot(staged.disk, sys.tempName(i), d.next + i);
      assert Slot(published.disk, files[i].name, staged.disk.entries[sys.tempName(i)]);
      assert Content(staged.disk, d.next + i, files[i]);
    }
  }

  // ---------------------------------------------------------------- nothing stray

  /** Away from the staged files and the bundle's own names nothing changes. */
  ghost predicate SameElsewhere(m: map<string, nat>, m': map<string, nat>, touched: set<string>) {
    forall n :: n !in touched ==> (n in m <==> n in m') && (n in m ==> m'[n] == m[n])
  }

  lemma {:induction false} PublishTouchesOnly(s: Disk, files: seq<Output>, force: bool, sys: System, n: nat)
    requires n <= |files|
    ensures var a := Publish(s, files, force, sys, n);
      SameElsewhere(s.entries, a.disk.entries, Names(files, |files|) + Temps(sys, |files|)) && a.disk == s.(entries := a.disk.entries)
  {
    if n > 0 {
      PublishTouchesOnly(s, files, force, sys, n - 1);
      assert files[n - 1].name in Names(files, |files|) && sys.tempName(n - 1) in Temps(sys, |files|);
    }
  }

  /** With or without force, however the attempt ends: no staged file survives, and entries outside
      the bundle's names, and the content of every inode that existed, never change. */
  lemma NothingStray(d: Disk, files: seq<Output>, force: bool, sys: System)
    requires ValidDisk(d)
    ensures var d' := Outcome(d, files, force, sys).0;
      SameElsewhere(d.entries, d'.entries, Names(files, |files|)) && OldInodes(d, d')
  {
    hide Stage, Publish, Temps, Names, IsBase;
    var n := |files|;
    var staged := Stage(d, files, sys, n);
    StagingIsBeside(d, files, sys, n);
    assert forall k :: k in d.entries ==> k in staged.disk.entries - Temps(sys, staged.done);
    if staged.ok {
      PublishTouchesOnly(staged.disk, files, force, sys, n);
      NamesGrowTo(files, Publish(staged.disk, files, force, sys, n).done);
    }
  }

  lemma NamesGrowTo(files: seq<Output>, n: nat)
    requires n <= |files|
    ensures Names(files, n) <= Names(files, |files|)
  {
  }

  // ---------------------------------------------------------------- with force

  /** The entries once the first k outputs, staged on inodes from `next` on, have replaced whatever
      had their names. */
  function Overlay(base: map<string, nat>, files: seq<Output>, next: nat, k: nat): map<string, nat>
    requires k <= |files|
  {
    if k == 0 then base else Overlay(base, files, next, k - 1)[files[k - 1].name := next + k - 1]
  }

  predicate NoStagingNames(files: seq<Output>, suffixes: set<string>) {
    forall i :: 0 <= i < |files| ==> !IsStagingName(files[i].name, suffixes)
  }

  ghost predicate RenamedOver(d: Disk, s: Disk, files: seq<Output>, sys: System, a: Attempt)
    requires a.done <= |files|
  {
    && a.disk == s.(entries := a.disk.entries)
    && a.disk.entries - Temps(sys, |files|) == Overlay(d.entries, files, d.next, a.done)
    && forall j :: a.done <= j < |files| ==> Slot(a.disk, sys.tempName(j), d.next + j)
  }

  lemma RenameOneGoesOver(d: Disk, s: Disk, files: seq<Output>, sys: System, before: Attempt, i: nat, suffixes: set<string>)
    requires Faithful(sys, suffixes) && NoStagingNames(files, suffixes)
    requires before.done == i < |files| && before.ok && RenamedOver(d, s, files, sys, before)
    requires forall j :: 0 <= j < |files| ==> Slot(s, sys.tempName(j), d.next + j)
    ensures var after := RenameOne(before.disk, files[i], sys, i);
      && after.done == (if after.ok then i + 1 else i) && RenamedOver(d, s, files, sys, after)
  {
    var after := RenameOne(before.disk, files[i], sys, i);
    var temp, name := sys.tempName(i), files[i].name;
    var temps := Temps(sys, |files|);
    if after.ok {
      assert Slot(before.disk, temp, d.next + i);
      assert temp in temps && name !in temps;
      assert after.disk.entries - temps == (before.disk.entries - temps)[name := d.next + i] by {
        if after.disk == before.disk {
          assert name in before.disk.entries - temps;
        }
      }
      forall j | i + 1 <= j < |files| ensures Slot(after.disk, sys.tempName(j), d.next + j) {
        assert Slot(before.disk, sys.tempName(j), d.next + j);
      }
    }
  }

  lemma {:induction false} RenamingGoesOver(d: Disk, s: Disk, files: seq<Output>, sys: System, n: nat, suffixes: set<string>)
    requires Faithful(sys, suffixes) && NoStagingNames(files, suffixes) && n <= |files|
    requires s.entries - Temps(sys, |files|) == d.entries
    requires forall j :: 0 <= j < |files| ==> Slot(s, sys.tempName(j), d.next + j)
    ensures RenamedOver(d, s, files, sys, Publish(s, files, true, sys, n))
    ensures Publish(s, files, true, sys, n).ok ==> Publish(s, files, true, sys, n).done == n
  {
    hide RenameOne, Slot;
    if n > 0 {
      hide RenamedOver;
      RenamingGoesOver(d, s, files, sys, n - 1, suffixes);
      var before := Publish(s, files, true, sys, n - 1);
      if before.ok {
        RenameOneGoesOver(d, s, files, sys, before, n - 1, suffixes);
      }
    }
  }

  predicate Attempted(files: seq<Output>, sys: System) {
    !sys.mkdirFails && forall i :: 0 <= i < |files| ==> IsBase(files[i].name)
  }

  /** With force, an attempt replaces some first outputs, all of them if it succeeds, and nothing
      else: it need not be all or nothing. */
  lemma ForcedReplacesAPrefix(d: Disk, files: seq<Output>, sys: System, suffixes: set<string>)
    requires ValidDisk(d) && Faithful(sys, suffixes) && NoStagingNames(files, suffixes)
    ensures var (d', ok) := Outcome(d, files, true, sys);
      exists k :: 0 <= k <= |files| && (ok ==> k == |files|) && d'.entries == Overlay(d.entries, files, d.next, k)
  {
    hide Stage, Publish, Temps, Faithful, NoStagingNames, IsBase;
    var n := |files|;
    var staged := Stage(d, files, sys, n);
    StagingIsBeside(d, files, sys, n);
    if Attempted(files, sys) && staged.ok {
      RenamingGoesOver(d, staged.disk, files, sys, n, suffixes);
      var published := Publish(staged.disk, files, true, sys, n);
      assert Outcome(d, files, true, sys).0.entries == Overlay(d.entries, files, d.next, published.done);
    } else {
      assert Overlay(d.entries, files, d.next, 0) == d.entries;
      assert Outcome(d, files, true, sys).0.entries == d.entries;
    }
  }

  lemma ForcedSuccessPublishes(d: Disk, files: seq<Output>, sys: System, suffixes: set<string>)
    requires ValidDisk(d) && Faithful(sys, suffixes) && NoStagingNames(files, suffixes) && Outcome(d, files, true, sys).1
    ensures Published(files, Outcome(d, files, true, sys).0)
  {
    hide Stage, Publish, Temps, Faithful, NoStagingNames, IsBase;
    var n := |files|;
    var staged := Stage(d, files, sys, n);
    StagingIsBeside(d, files, sys, n);
    RenamingGoesOver(d, staged.disk, files, sys, n, suffixes);
    var d' := Outcome(d, files, true, sys).0;
    assert d'.entries == Overlay(d.entries, files, d.next, n) && d'.inodes == staged.disk.inodes;
    forall i | 0 <= i < n && LastOfItsName(files, i) ensures Installed(d', files[i]) {
      OverlayLast(d.entries, files, d.next, n, i);
      assert Content(staged.disk, d.next + i, files[i]);
    }
  }

  /** No later output has the same name. */
  predicate LastOfItsName(files: seq<Output>, i: nat) {
    i < |files| && forall j :: i < j < |files| ==> files[j].name != files[i].name
  }

  predicate Installed(d: Disk, file: Output) {
    file.name in d.entries && Content(d, d.entries[file.name], file)
  }

  /** Every output is there under its name (the last one, where a name repeats). */
  predicate Published(files: seq<Output>, d: Disk) {
    forall i :: 0 <= i < |files| && LastOfItsName(files, i) ==> Installed(d, files[i])
  }

  lemma {:induction false} OverlayLast(base: map<string, nat>, files: seq<Output>, next: nat, k: nat, i: nat)
    requires i < k <= |files| && forall j :: i < j < k ==> files[j].name != files[i].name
    ensures files[i].name in Overlay(base, files, next, k) && Overlay(base, files, next, k)[files[i].name] == next + i
  {
    if i < k - 1 {
      OverlayLast(base, files, next, k - 1, i);
    }
  }

  // ---------------------------------------------------------------- when it succeeds

  /** No call fails while staging, and every temporary name is unused. */
  ghost predicate Stageable(d: Disk, files: seq<Output>, sys: System) {
    && (forall i :: 0 <= i < |files| ==> !sys.createFails(i) && !sys.writeFails(i) && sys.tempName(i) !in d.entries)
    && (forall i, j :: 0 <= i < j < |files| ==> sys.tempName(i) != sys.tempName(j))
  }

  lemma InDifference(m: map<string, nat>, removed: set<string>, k: string)
    ensures k in m && k !in removed ==> k in m - removed
  {
  }

  lemma {:induction false} StageSucceeds(d: Disk, files: seq<Output>, sys: System, n: nat)
    requires ValidDisk(d) && n <= |files| && Stageable(d, files, sys)
    ensures Stage(d, files, sys, n).ok
  {
    if n > 0 {
      StageSucceeds(d, files, sys, n - 1);
      StagingIsBeside(d, files, sys, n - 1);
      var before := Stage(d, files, sys, n - 1);
      var temp := sys.tempName(n - 1);
      assert temp !in Temps(sys, n - 1);
      InDifference(before.disk.entries, Temps(sys, n - 1), temp);
    }
  }

  /** No publication call fails, and every name is free, distinct, and not a staged file's. */
  ghost predicate Linkable(d: Disk, files: seq<Output>, sys: System) {
    && (forall i :: 0 <= i < |files| ==> !sys.publishFails(i) && !IsDirectoryName(files[i].name) && files[i].name !in d.entries)
    && (forall i, j :: 0 <= i < |files| && 0 <= j < |files| ==> files[i].name != sys.tempName(j))
    && (forall i, j :: 0 <= i < j < |files| ==> files[i].name != files[j].name)
  }

  lemma LinkOneSucceeds(d: Disk, s: Disk, files: seq<Output>, sys: System, before: Attempt, i: nat)
    requires i < |files| && Linkable(d, files, sys) && Temps(sys, |files|) <= s.entries.Keys
    requires s.entries - Temps(sys, |files|) == d.entries
    requires before.done == i && LinkedBeside(s, files, sys, before)
    ensures LinkOne(before.disk, files[i], sys, i).ok
  {
    var temp, name := sys.tempName(i), files[i].name;
    assert temp in Temps(sys, |files|);
    assert name !in Names(files, i) && name !in Temps(sys, |files|);
    assert temp in before.disk.entries - Names(files, i);
    hide Names, Temps, LinkedBeside;
    InDifference(before.disk.entries, Names(files, i), name);
    InDifference(s.entries, Temps(sys, |files|), name);
  }

  lemma {:induction false} LinkSucceeds(d: Disk, s: Disk, files: seq<Output>, sys: System, n: nat)
    requires n <= |files| && Linkable(d, files, sys) && Temps(sys, |files|) <= s.entries.Keys
    requires s.entries - Temps(sys, |files|) == d.entries
    ensures Publish(s, files, false, sys, n).ok
  {
    hide Linkable, LinkedBeside, LinkOne, Temps;
    if n > 0 {
      LinkSucceeds(d, s, files, sys, n - 1);
      LinkingIsBeside(s, files, sys, n - 1);
      LinkOneSucceeds(d, s, files, sys, Publish(s, files, false, sys, n - 1), n - 1);
    }
  }

  /** Without force an attempt with nothing in its way succeeds, so it is never nothing for no reason. */
  lemma UnobstructedSucceeds(d: Disk, files: seq<Output>, sys: System)
    requires ValidDisk(d) && Attempted(files, sys) && Stageable(d, files, sys) && Linkable(d, files, sys)
    ensures Outcome(d, files, false, sys).1
  {
    hide Stage, Publish, Stageable, Linkable, IsBase;
    StageSucceeds(d, files, sys, |files|);
    StagingIsBeside(d, files, sys, |files|);
    var staged := Stage(d, files, sys, |files|);
    TempsPresent(d, files, sys, staged);
    LinkSucceeds(d, staged.disk, files, sys, |files|);
  }

  // ---------------------------------------------------------------- staging names

  lemma {:induction false} RenameSucceeds(s: Disk, files: seq<Output>, sys: System, n: nat)
    requires n <= |files| && Temps(sys, |files|) <= s.entries.Keys
    requires forall i :: 0 <= i < |files| ==> !sys.publishFails(i) && !IsDirectoryName(files[i].name)
    requires forall id :: id in s.inodes ==> !s.inodes[id].Subdirectory?
    requires forall i, j :: 0 <= i < j < |files| ==> sys.tempName(i) != sys.tempName(j)
    ensures var a := Publish(s, files, true, sys, n);
      a.ok && forall i :: n <= i < |files| ==> sys.tempName(i) in a.disk.entries
  {
    if n == 0 {
      assert forall i :: 0 <= i < |files| ==> sys.tempName(i) in Temps(sys, |files|);
    } else {
      RenameSucceeds(s, files, sys, n - 1);
      PublishTouchesOnly(s, files, true, sys, n - 1);
    }
  }

  lemma {:induction false} PublishedNamesAreFiles(s: Disk, files: seq<Output>, sys: System, n: nat)
    requires n <= |files| && Publish(s, files, true, sys, n).ok
    ensures forall i :: 0 <= i < n ==> !IsDirectoryName(files[i].name)
  {
    if n > 0 {
      PublishedNamesAreFiles(s, files, sys, n - 1);
    }
  }

  /** Some output could never be published under its name. */
  predicate Unpublishable(files: seq<Output>) {
    exists i :: 0 <= i < |files| && (!IsBase(files[i].name) || IsDirectoryName(files[i].name))
  }

  /** Distinct suffixes, the j-th of them `own`. */
  ghost function OtherSuffix(suffixes: set<string>, own: string, n: nat, j: nat, i: nat): string
    requires own in suffixes && j < n <= |suffixes|
  {
    var others := Listing(suffixes - {own});
    if i == j || i >= n then own else others[if i < j then i else i - 1]
  }

  lemma SuffixesDiffer(suffixes: set<string>, own: string, n: nat, j: nat, i: nat, k: nat)
    requires own in suffixes && j < n <= |suffixes|
    ensures OtherSuffix(suffixes, own, n, j, i) in suffixes
    ensures i < k < n ==> OtherSuffix(suffixes, own, n, j, i) != OtherSuffix(suffixes, own, n, j, k)
  {
    var others := Listing(suffixes - {own});
    assert forall x :: 0 <= x < |others| ==> others[x] in others;
  }

  /** A system in which nothing fails, and the j-th temporary file happens to get output j's name. */
  ghost function Colliding(files: seq<Output>, suffixes: set<string>, j: nat): System
    requires j < |files| <= |suffixes| && IsStagingName(files[j].name, suffixes)
  {
    System(
      false, _ => false,
      (i: nat) => STAGING + OtherSuffix(suffixes, files[j].name[|STAGING|..], |files|, j, i),
      _ => false, _ => Symlink, _ => false)
  }

  lemma {:induction false} LastOccurrence(files: seq<Output>, j: nat) returns (i: nat)
    requires j < |files|
    ensures LastOfItsName(files, i) && files[i].name == files[j].name
    decreases |files| - j
  {
    if k :| j < k < |files| && files[k].name == files[j].name {
      i := LastOccurrence(files, k);
    } else {
      i := j;
    }
  }

  ghost predicate LosesAFile(files: seq<Output>, sys: System, suffixes: set<string>) {
    var (d', ok) := Outcome(Disk(map[], map[], 0), files, true, sys);
    Faithful(sys, suffixes) && ok && !Published(files, d')
  }

  lemma OwnSuffix(suffixes: set<string>, own: string, n: nat, j: nat)
    requires own in suffixes && j < n <= |suffixes|
    ensures OtherSuffix(suffixes, own, n, j, j) == own
  {
  }

  lemma StagingNameOf(s: string)
    ensures STAGING <= STAGING + s && (STAGING + s)[|STAGING|..] == s
  {
  }

  lemma CollidingStages(files: seq<Output>, suffixes: set<string>, j: nat)
    requires !Unpublishable(files) && j < |files| <= |suffixes| && IsStagingName(files[j].name, suffixes)
    ensures var sys, d := Colliding(files, suffixes, j), Disk(map[], map[], 0);
      Faithful(sys, suffixes) && Attempted(files, sys) && Stageable(d, files, sys)
      && files[j].name in Temps(sys, |files|)
  {
    var sys, own, n := Colliding(files, suffixes, j), files[j].name[|STAGING|..], |files|;
    forall i: nat ensures IsStagingName(sys.tempName(i), suffixes) {
      SuffixesDiffer(suffixes, own, n, j, i, i);
      StagingNameOf(OtherSuffix(suffixes, own, n, j, i));
    }
    hide OtherSuffix;
    forall i, k | 0 <= i < k < n ensures sys.tempName(i) != sys.tempName(k) {
      SuffixesDiffer(suffixes, own, n, j, i, k);
      StagingNameOf(OtherSuffix(suffixes, own, n, j, i));
      StagingNameOf(OtherSuffix(suffixes, own, n, j, k));
    }
    OwnSuffix(suffixes, own, n, j);
    assert sys.tempName(j) == files[j].name;
  }

  lemma CollisionLosesAFile(files: seq<Output>, suffixes: set<string>, j: nat)
    requires !Unpublishable(files) && |files| <= |suffixes|
    requires LastOfItsName(files, j) && IsStagingName(files[j].name, suffixes)
    ensures exists sys :: LosesAFile(files, sys, suffixes)
  {
    var sys, d, n := Colliding(files, suffixes, j), Disk(map[], map[], 0), |files|;
    CollidingStages(files, suffixes, j);
    hide Stage, Publish, Temps, Colliding;
    StageSucceeds(d, files, sys, n);
    StagingIsBeside(d, files, sys, n);
    var staged := Stage(d, files, sys, n);
    TempsPresent(d, files, sys, staged);
    StagedAreFiles(d, files, sys, n);
    RenameSucceeds(staged.disk, files, sys, n);
    var (d', ok) := Outcome(d, files, true, sys);
    assert ok;
    assert !Installed(d', files[j]);
    assert LosesAFile(files, sys, suffixes);
  }

  lemma {:induction false} StagedAreFiles(d: Disk, files: seq<Output>, sys: System, n: nat)
    requires n <= |files| && Stage(d, files, sys, n).ok
    requires forall id :: id in d.inodes ==> !d.inodes[id].Subdirectory?
    ensures forall id :: id in Stage(d, files, sys, n).disk.inodes ==> !Stage(d, files, sys, n).disk.inodes[id].Subdirectory?
  {
    if n > 0 {
      StagedAreFiles(d, files, sys, n - 1);
    }
  }

  function Suffix(name: string): string {
    if STAGING <= name then name[|STAGING|..] else name
  }

  lemma StagedNameIsNew(d: Disk, files: seq<Output>, sys: System, n: nat)
    requires ValidDisk(d) && 0 < n <= |files| && Stage(d, files, sys, n).ok
    ensures Stage(d, files, sys, n - 1).ok && sys.tempName(n - 1) !in Temps(sys, n - 1)
  {
    StagingIsBeside(d, files, sys, n - 1);
    TempsPresent(d, files, sys, Stage(d, files, sys, n - 1));
    hide StagedBeside;
  }

  /** Staging n outputs takes n different suffixes. */
  lemma {:induction false} StagingTakesSuffixes(d: Disk, files: seq<Output>, sys: System, suffixes: set<string>, n: nat)
    requires ValidDisk(d) && Faithful(sys, suffixes) && n <= |files| && Stage(d, files, sys, n).ok
    ensures |Taken(sys, n)| == n && Taken(sys, n) <= suffixes
  {
    hide Stage, ValidDisk;
    if n == 0 {
      assert Taken(sys, 0) == {};
    } else {
      StagedNameIsNew(d, files, sys, n);
      StagingTakesSuffixes(d, files, sys, suffixes, n - 1);
      NotTaken(sys, suffixes, n - 1);
      assert IsStagingName(sys.tempName(n - 1), suffixes);
      hide Faithful;
      assert Taken(sys, n) == Taken(sys, n - 1) + {Suffix(sys.tempName(n - 1))};
    }
  }

  function Taken(sys: System, n: nat): set<string> {
    set i | 0 <= i < n :: Suffix(sys.tempName(i))
  }

  lemma NotTaken(sys: System, suffixes: set<string>, n: nat)
    requires Faithful(sys, suffixes) && sys.tempName(n) !in Temps(sys, n)
    ensures Suffix(sys.tempName(n)) !in Taken(sys, n)
  {
    forall i | 0 <= i < n ensures Suffix(sys.tempName(i)) != Suffix(sys.tempName(n)) {
      var s, t := sys.tempName(i), sys.tempName(n);
      assert IsStagingName(s, suffixes) && IsStagingName(t, suffixes);
      assert s == STAGING + Suffix(s) && t == STAGING + Suffix(t);
      assert s in Temps(sys, n);
    }
  }

  lemma SubsetSize<T>(A: set<T>, B: set<T>)
    requires A <= B
    ensures |A| <= |B|
  {
    assert A + (B - A) == B;
  }

  /** A forced success always leaves every output published exactly for bundles without a name of
      the staging pattern: such a name may be given to its own temporary file, which the clean-up
      then removes. (Bundles that never succeed, having a name that cannot be published or more
      files than there are suffixes, meet it trivially.) */
  lemma ForcedSuccessIff(files: seq<Output>, suffixes: set<string>)
    ensures
      (forall d, sys :: ValidDisk(d) && Faithful(sys, suffixes) && Outcome(d, files, true, sys).1 ==>
        Published(files, Outcome(d, files, true, sys).0))
      <==> NoStagingNames(files, suffixes) || Unpublishable(files) || |files| > |suffixes|
  {
    hide Outcome, Published;
    if NoStagingNames(files, suffixes) {
      forall d, sys | ValidDisk(d) && Faithful(sys, suffixes) && Outcome(d, files, true, sys).1
        ensures Published(files, Outcome(d, files, true, sys).0)
      {
        ForcedSuccessPublishes(d, files, sys, suffixes);
      }
    } else if Unpublishable(files) {
      forall d, sys ensures !Outcome(d, files, true, sys).1 {
        UnpublishableFails(d, files, sys);
      }
    } else if |files| > |suffixes| {
      forall d, sys | ValidDisk(d) && Faithful(sys, suffixes) ensures !Outcome(d, files, true, sys).1 {
        TooFewSuffixes(d, files, sys, suffixes);
      }
    } else {
      var i: nat :| i < |files| && IsStagingName(files[i].name, suffixes);
      var j := LastOccurrence(files, i);
      CollisionLosesAFile(files, suffixes, j);
      assert ValidDisk(Disk(map[], map[], 0));
    }
  }

  lemma TooFewSuffixes(d: Disk, files: seq<Output>, sys: System, suffixes: set<string>)
    requires ValidDisk(d) && Faithful(sys, suffixes) && |files| > |suffixes|
    ensures !Outcome(d, files, true, sys).1
  {
    if Outcome(d, files, true, sys).1 {
      StagingTakesSuffixes(d, files, sys, suffixes, |files|);
      SubsetSize(Taken(sys, |files|), suffixes);
      assert false;
    }
  }

  lemma UnpublishableFails(d: Disk, files: seq<Output>, sys: System)
    requires Unpublishable(files)
    ensures !Outcome(d, files, true, sys).1
  {
    if Outcome(d, files, true, sys).1 {
      PublishedNamesAreFiles(Stage(d, files, sys, |files|).disk, files, sys, |files|);
      assert false;
    }
  }

  // ---------------------------------------------------------------- the bundles of Generate

  datatype CertKind = CA | Server | Client

  /** The files Generate writes for a certificate, its key and the certificate of the signing CA. */
  function Bundle(kind: CertKind, cert: seq<bv8>, key: seq<bv8>, ca: seq<bv8>): seq<Output> {
    match kind
    case CA => [Output("ca.pem", cert, 420), Output("ca-key.pem", key, 384)]
    case Server => [Output("server-cert.pem", cert, 420), Output("server-key.pem", key, 384), Output("ca.pem", ca, 420)]
    case Client => [Output("cert.pem", cert, 420), Output("key.pem", key, 384), Output("ca.pem", ca, 420)]
  }

  lemma BundlesAreSafe(kind: CertKind, cert: seq<bv8>, key: seq<bv8>, ca: seq<bv8>, suffixes: set<string>)
    ensures var files := Bundle(kind, cert, key, ca);
      NoStagingNames(files, suffixes) && !Unpublishable(files) && forall i :: 0 <= i < |files| ==> LastOfItsName(files, i)
  {
    var files := Bundle(kind, cert, key, ca);
    assert forall i :: 0 <= i < |files| ==> files[i].name[0] != '.' && STAGING[0] == '.';
  }

  /** What a forced Generate reports is what it did: on success every file of the bundle is in place
      with its data and mode, whatever the library's suffixes, and nothing else has changed. */
  lemma ForcedGenerateInstalls(kind: CertKind, cert: seq<bv8>, key: seq<bv8>, ca: seq<bv8>, d: Disk, sys: System, suffixes: set<string>)
    requires ValidDisk(d) && Faithful(sys, suffixes)
    ensures var files := Bundle(kind, cert, key, ca);
      var (d', ok) := Outcome(d, files, true, sys);
      && (ok ==> forall i :: 0 <= i < |files| ==> Installed(d', files[i]))
      && SameElsewhere(d.entries, d'.entries, Names(files, |files|))
      && OldInodes(d, d')
  {
    var files := Bundle(kind, cert, key, ca);
    BundlesAreSafe(kind, cert, key, ca, suffixes);
    hide Outcome, Bundle, Installed, NoStagingNames, LastOfItsName;
    NothingStray(d, files, true, sys);
    if Outcome(d, files, true, sys).1 {
      ForcedSuccessPublishes(d, files, sys, suffixes);
    }
  }

  /** A regular file of this content and mode is there under the name. */
  predicate Holds(d: Disk, name: string, data: seq<bv8>, mode: nat) {
    name in d.entries && d.entries[name] in d.inodes && d.inodes[d.entries[name]] == File(data, mode)
  }

  /** Readable and writable by the owner, readable by all: 0644. */
  const PUBLIC := 6 * 64 + 4 * 8 + 4

  /** Readable and writable by the owner alone: 0600. */
  const PRIVATE := 6 * 64

  /** With or without force, a Generate that reports success leaves the key readable by its owner alone
      and the certificates readable by all, each under its documented name. */
  lemma GeneratedFiles(
      kind: CertKind, cert: seq<bv8>, key: seq<bv8>, ca: seq<bv8>, d: Disk, force: bool, sys: System, suffixes: set<string>)
    requires ValidDisk(d) && Faithful(sys, suffixes)
    ensures var (d', ok) := Outcome(d, Bundle(kind, cert, key, ca), force, sys);
      ok ==> match kind
        case CA => Holds(d', "ca.pem", cert, PUBLIC) && Holds(d', "ca-key.pem", key, PRIVATE)
        case Server =>
          && Holds(d', "server-cert.pem", cert, PUBLIC) && Holds(d', "server-key.pem", key, PRIVATE)
          && Holds(d', "ca.pem", ca, PUBLIC)
        case Client =>
          && Holds(d', "cert.pem", cert, PUBLIC) && Holds(d', "key.pem", key, PRIVATE) && Holds(d', "ca.pem", ca, PUBLIC)
  {
    var files := Bundle(kind, cert, key, ca);
    var (d', ok) := Outcome(d, files, force, sys);
    if ok {
      if force {
        ForcedGenerateInstalls(kind, cert, key, ca, d, sys, suffixes);
      } else {
        AllOrNothing(d, files, sys);
      }
      hide Outcome;
      forall i | 0 <= i < |files| ensures Holds(d', files[i].name, files[i].data, files[i].mode) {
        assert force ==> Installed(d', files[i]);
        assert !force ==> ExactlyAdded(d, files, d');
      }
      assert |files| > 1 && Holds(d', files[0].name, files[0].data, files[0].mode) && Holds(d', files[1].name, files[1].data, files[1].mode);
      assert |files| > 2 ==> Holds(d', files[2].name, files[2].data, files[2].mode);
    }
  }

  /** The names of temporary files, from the pattern given to the library. */
  lemma StagingPattern(name: string, suffixes: set<string>)
    ensures IsStagingName(name, suffixes) <==> exists s :: s in suffixes && name == ".dockauthz-pki-" + s
  {
    if IsStagingName(name, suffixes) {
      assert name == STAGING + name[|STAGING|..];
    }
    if s :| s in suffixes && name == ".dockauthz-pki-" + s {
      StagingNameOf(s);
    }
  }

  // ---------------------------------------------------------------- file names

  function StripSlashes(name: string): string {
    if name != "" && name[|name| - 1] == '/' then StripSlashes(name[..|name| - 1]) else name
  }

  function AfterSlash(name: string): string {
    if name == "" || name[|name| - 1] == '/' then "" else AfterSlash(name[..|name| - 1]) + [name[|name| - 1]]
  }

  /** filepath.Base: the last element of a path. */
  function Base(name: string): string {
    if name == "" then "."
    else if StripSlashes(name) == "" then "/"
    else AfterSlash(StripSlashes(name))
  }

  lemma {:induction false} AfterSlashIs(name: string)
    ensures '/' !in AfterSlash(name) && ('/' !in name ==> AfterSlash(name) == name)
  {
    if name != "" && name[|name| - 1] != '/' {
      AfterSlashIs(name[..|name| - 1]);
      assert name == name[..|name| - 1] + [name[|name| - 1]];
    }
  }

  lemma {:induction false} StripSlashesIs(name: string)
    ensures '/' !in name ==> StripSlashes(name) == name
    ensures |StripSlashes(name)| <= |name| && (StripSlashes(name) == "" && name != "" ==> '/' in name)
  {
    if name != "" && name[|name| - 1] == '/' {
      StripSlashesIs(name[..|name| - 1]);
    }
  }

  /** A bundle with a name that is not its own last path element changes nothing. */
  lemma OnlyBaseNames(d: Disk, files: seq<Output>, force: bool, sys: System, i: nat)
    requires i < |files| && files[i].name != Base(files[i].name)
    ensures Outcome(d, files, force, sys) == (d, false)
  {
    BaseIs(files[i].name);
    hide Base, IsBase, Stage, Publish;
  }

  lemma BaseIs(name: string)
    ensures IsBase(name) <==> name == Base(name)
  {
    StripSlashesIs(name);
    AfterSlashIs(StripSlashes(name));
  }
}
