/**
 The replacement of the library file on POSIX systems (source/updater.cpp):
 the current file is renamed to a backup, the new one renamed into its place and
 the backup removed, with a rollback when a step fails.

 Every file operation is atomic and may fail for reasons of its own.  `Disk`
 keeps the states the files went through, so that a crash between any two
 operations is covered too.
 */
module BinaryUpdate {
  import opened Collections

  type Content = seq<Byte>
  type Files = map<string, Content>

  function BackupOf(lib: string): (r: string)
    ensures r != lib
  {
    lib + ".old"
  }

  /** Whether the next operation fails of itself. */
  predicate Failing(faults: seq<bool>) {
    faults != [] && faults[0]
  }

  function Later(faults: seq<bool>): seq<bool> {
    if faults == [] then [] else faults[1..]
  }

  /** A rename replaces its target, and fails if there is nothing to rename. */
  function Renamed(files: Files, faults: seq<bool>, from: string, to: string): Option<Files> {
    if Failing(faults) || from !in files then None
    else Some((files - {from})[to := files[from]])
  }

  // -------------------------------------------------------------- the object

  class Disk {
    var files: Files
    var faults: seq<bool>
    ghost var states: seq<Files>

    method Exists(path: string) returns (found: Option<bool>)
      modifies this`faults
      ensures found == if Failing(old(faults)) then None else Some(path in files)
      ensures faults == Later(old(faults))
    {
      found := if Failing(faults) then None else Some(path in files);
      faults := Later(faults);
    }

    method Rename(from: string, to: string) returns (ok: bool)
      modifies this
      ensures var r := Renamed(old(files), old(faults), from, to);
              && ok == r.Some?
              && files == (if ok then r.value else old(files))
              && states == (if ok then old(states) + [files] else old(states))
      ensures faults == Later(old(faults))
    {
      var r := Renamed(files, faults, from, to);
      ok := r.Some?;
      if ok {
        files := r.value;
        states := states + [files];
      }
      faults := Later(faults);
    }

    /** Removing a file that is not there is no error. */
    method Remove(path: string) returns (ok: bool)
      modifies this
      ensures ok == !Failing(old(faults))
      ensures files == (if ok then old(files) - {path} else old(files))
      ensures states == (if ok then old(states) + [files] else old(states))
      ensures faults == Later(old(faults))
    {
      ok := !Failing(faults);
      if ok {
        files := files - {path};
        states := states + [files];
      }
      faults := Later(faults);
    }

    method ReplaceBinary(lib: string, newLib: string) returns (ok: bool)
      modifies this
      ensures Outcome(ok, files, states) == Replaced(Outcome(false, old(files), old(states)), old(faults), lib, newLib)
    {
      var found := Exists(lib);
      if found.None? {
        return false;
      }
      if !found.value {
        ok := Rename(newLib, lib);
        return;
      }
      var saved := Rename(lib, BackupOf(lib));
      if !saved {
        return false;
      }
      ok := Install(lib, newLib);
    }

    /** The part after the backup was made. */
    method Install(lib: string, newLib: string) returns (ok: bool)
      modifies this
      ensures Outcome(ok, files, states) == Installed(Outcome(false, old(files), old(states)), old(faults), lib, newLib)
    {
      var installed := Rename(newLib, lib);
      if installed {
        var cleaned := Remove(BackupOf(lib));
        if cleaned {
          return true;
        }
      }
      var restored := Rename(BackupOf(lib), lib);
      return false;
    }
  }

  /** What a replacement answered so far, the files as they are and the states they went through. */
  datatype Outcome = Outcome(ok: bool, files: Files, states: seq<Files>)

  function Then(o: Outcome, next: Option<Files>): Outcome {
    if next.Some? then Outcome(o.ok, next.value, o.states + [next.value]) else o
  }

  function Replaced(start: Outcome, faults: seq<bool>, lib: string, newLib: string): Outcome {
    var faults1 := Later(faults);
    if Failing(faults) then start
    else if lib !in start.files then
      var installed := Renamed(start.files, faults1, newLib, lib);
      Then(start, installed).(ok := installed.Some?)
    else
      var saved := Renamed(start.files, faults1, lib, BackupOf(lib));
      if saved.None? then start else Installed(Then(start, saved), Later(faults1), lib, newLib)
  }

  function Installed(saved: Outcome, faults: seq<bool>, lib: string, newLib: string): Outcome {
    var backup := BackupOf(lib);
    var installed := Renamed(saved.files, faults, newLib, lib);
    var so := Then(saved, installed);
    var faults1 := Later(faults);
    if installed.None? then Then(so, Renamed(so.files, faults1, backup, lib))
    else if Failing(faults1) then Then(so, Renamed(so.files, Later(faults1), backup, lib))
    else Then(so, Some(so.files - {backup})).(ok := true)
  }

  /** A replacement from the beginning. */
  function Replacement(files: Files, faults: seq<bool>, lib: string, newLib: string): Outcome {
    Replaced(Outcome(false, files, []), faults, lib, newLib)
  }

  // ------------------------------------------------------------- properties

  ghost predicate Holds(files: Files, path: string, content: Content) {
    path in files && files[path] == content
  }

  /** The library holds what was new, and there is no backup. */
  ghost predicate CleanlyInstalled(before: Files, after: Files, lib: string, newLib: string) {
    newLib in before && Holds(after, lib, before[newLib]) && BackupOf(lib) !in after
  }

  /**
   When there was a library, the new file must not be at the backup's path (unless it
   is the same content); when there was none, no other file may be there.
   */
  ghost predicate CanInstallCleanly(before: Files, lib: string, newLib: string) {
    if lib in before then newLib == BackupOf(lib) ==> Holds(before, newLib, before[lib])
    else BackupOf(lib) in before ==> newLib == BackupOf(lib)
  }

  /** Success means a clean installation exactly under the condition above. */
  lemma SuccessIsCleanExactly(files: Files, faults: seq<bool>, lib: string, newLib: string)
    requires Replacement(files, faults, lib, newLib).ok
    ensures CleanlyInstalled(files, Replacement(files, faults, lib, newLib).files, lib, newLib) <==>
              CanInstallCleanly(files, lib, newLib)
  {
  }

  /** A leftover backup stays when there was no library to back up. */
  lemma LeftoverBackupStays()
    ensures var r := Replacement(map["l.old" := [1], "n" := [2]], [], "l", "n");
            r.ok && Holds(r.files, "l", [2]) && Holds(r.files, "l.old", [1])
  {
    assert BackupOf("l") == "l.old";
  }

  /** A new library at the backup's path is overwritten, and the old one is installed again. */
  lemma NewLibraryCanBeLost()
    ensures var r := Replacement(map["l" := [1], "l.old" := [2]], [], "l", "l.old");
            r.ok && r.files == map["l" := [1]]
  {
    var files: Files := map["l" := [1], "l.old" := [2]];
    assert BackupOf("l") == "l.old";
    var saved := Renamed(files, [], "l", "l.old").value;
    assert saved == map["l.old" := [1]];
    assert Renamed(saved, [], "l.old", "l").value == map["l" := [1]];
  }

  /** An original library is still at its path or at the path of the backup. */
  ghost predicate OriginalKept(before: Files, now: Files, lib: string) {
    lib in before ==> Holds(now, lib, before[lib]) || Holds(now, BackupOf(lib), before[lib])
  }

  /** A failed replacement has the original at the library path or its backup, then and all the while. */
  lemma FailureKeepsTheOriginal(files: Files, faults: seq<bool>, lib: string, newLib: string)
    requires !Replacement(files, faults, lib, newLib).ok
    ensures var r := Replacement(files, faults, lib, newLib);
            && (forall i :: 0 <= i < |r.states| ==> OriginalKept(files, r.states[i], lib))
            && OriginalKept(files, r.files, lib)
            && (lib !in files ==> r.files == files)
  {
  }

  ghost predicate AtMostOneFault(faults: seq<bool>) {
    forall i, j :: 0 <= i < j < |faults| ==> !(faults[i] && faults[j])
  }

  ghost predicate NoFault(faults: seq<bool>) {
    forall i :: 0 <= i < |faults| ==> !faults[i]
  }

  /** The rollback does its work: if only one thing goes wrong, be it one operation or a
      new library that is not there, the original is back in its place. */
  lemma RollbackRestores(files: Files, faults: seq<bool>, lib: string, newLib: string)
    requires lib in files && !Replacement(files, faults, lib, newLib).ok
    requires (AtMostOneFault(faults) && newLib in files && newLib != lib) || NoFault(faults)
    ensures Holds(Replacement(files, faults, lib, newLib).files, lib, files[lib])
  {
    var faults1 := Later(faults);
    var faults2 := Later(faults1);
    var faults3 := Later(faults2);
    LaterFaults(faults);
    LaterFaults(faults1);
    LaterFaults(faults2);
    LaterFaults(faults3);
  }

  lemma LaterFaults(faults: seq<bool>)
    ensures AtMostOneFault(faults) ==> AtMostOneFault(Later(faults))
    ensures AtMostOneFault(faults) && Failing(faults) ==> NoFault(Later(faults))
    ensures NoFault(faults) ==> NoFault(Later(faults)) && AtMostOneFault(faults) && !Failing(faults)
  {
  }

  /** At every moment of any replacement a whole library can be recovered: only the very last step gives up the original. */
  lemma RecoverableThroughout(files: Files, faults: seq<bool>, lib: string, newLib: string)
    ensures var r := Replacement(files, faults, lib, newLib);
            forall i :: 0 <= i < |r.states| ==>
              || OriginalKept(files, r.states[i], lib)
              || (r.ok && i == |r.states| - 1 && newLib in files && Holds(r.states[i], lib, files[newLib]))
  {
  }

  /** Without failures a replacement succeeds exactly if there is a file to install. */
  lemma SucceedsWithoutFaults(files: Files, faults: seq<bool>, lib: string, newLib: string)
    requires forall i :: 0 <= i < |faults| ==> !faults[i]
    ensures Replacement(files, faults, lib, newLib).ok <==>
              if lib in files then newLib == BackupOf(lib) || (newLib in files && newLib != lib)
              else newLib in files
  {
  }

  /** The same content, or none, at a path. */
  ghost predicate SameAt(a: Files, b: Files, path: string) {
    (path in a <==> path in b) && (path in a ==> a[path] == b[path])
  }

  lemma RenameTouchesTwo(o: Outcome, faults: seq<bool>, from: string, to: string, path: string)
    requires path != from && path != to
    ensures SameAt(o.files, Then(o, Renamed(o.files, faults, from, to)).files, path)
  {
  }

  lemma InstallTouchesThree(saved: Outcome, faults: seq<bool>, lib: string, newLib: string, path: string)
    requires path !in {lib, BackupOf(lib), newLib}
    ensures SameAt(saved.files, Installed(saved, faults, lib, newLib).files, path)
  {
    RenameTouchesTwo(saved, faults, newLib, lib, path);
    var so := Then(saved, Renamed(saved.files, faults, newLib, lib));
    RenameTouchesTwo(so, Later(faults), BackupOf(lib), lib, path);
    RenameTouchesTwo(so, Later(Later(faults)), BackupOf(lib), lib, path);
  }

  /** No file but the library, its backup and the new library is touched. */
  lemma OthersUntouched(files: Files, faults: seq<bool>, lib: string, newLib: string, path: string)
    requires path !in {lib, BackupOf(lib), newLib}
    ensures SameAt(files, Replacement(files, faults, lib, newLib).files, path)
  {
    var start, faults1 := Outcome(false, files, []), Later(faults);
    RenameTouchesTwo(start, faults1, newLib, lib, path);
    RenameTouchesTwo(start, faults1, lib, BackupOf(lib), path);
    InstallTouchesThree(Then(start, Renamed(files, faults1, lib, BackupOf(lib))), Later(faults1), lib, newLib, path);
  }

  // -------------------------------------------------- one attempt after another

  /** An attempt, and what the other files are when it begins. */
  datatype Attempt = Attempt(others: Files, faults: seq<bool>, newLib: string)

  /** Between attempts everything may change but the library and its backup. */
  function Between(files: Files, others: Files, lib: string): Files {
    var own := {lib, BackupOf(lib)};
    (others - own) + (files - (files.Keys - own))
  }

  /** The states all attempts go through. */
  function Attempts(files: Files, attempts: seq<Attempt>, lib: string): seq<Files>
    decreases |attempts|
  {
    if attempts == [] then [files]
    else
      var a := attempts[0];
      var r := Replacement(Between(files, a.others, lib), a.faults, lib, a.newLib);
      [files] + r.states + Attempts(r.files, attempts[1..], lib)
  }

  /** A whole library is in place or, if there is none in place, in the backup. */
  ghost predicate Recoverable(files: Files, lib: string, whole: set<Content>) {
    if lib in files then files[lib] in whole
    else BackupOf(lib) in files && files[BackupOf(lib)] in whole
  }

  /** The new file, if it is a file of its own, is a whole library. */
  ghost predicate Offers(a: Attempt, lib: string, whole: set<Content>) {
    a.newLib in a.others && a.newLib !in {lib, BackupOf(lib)} ==> a.others[a.newLib] in whole
  }

  lemma InstallStaysRecoverable(saved: Outcome, faults: seq<bool>, lib: string, newLib: string, whole: set<Content>)
    requires lib !in saved.files && Recoverable(saved.files, lib, whole)
    requires newLib in saved.files && newLib != BackupOf(lib) ==> saved.files[newLib] in whole
    requires forall i :: 0 <= i < |saved.states| ==> Recoverable(saved.states[i], lib, whole)
    ensures var r := Installed(saved, faults, lib, newLib);
            && Recoverable(r.files, lib, whole)
            && forall i :: 0 <= i < |r.states| ==> Recoverable(r.states[i], lib, whole)
  {
  }

  lemma AttemptStaysRecoverable(files: Files, faults: seq<bool>, lib: string, newLib: string, whole: set<Content>)
    requires Recoverable(files, lib, whole)
    requires newLib in files && newLib !in {lib, BackupOf(lib)} ==> files[newLib] in whole
    ensures var r := Replacement(files, faults, lib, newLib);
            && Recoverable(r.files, lib, whole)
            && forall i :: 0 <= i < |r.states| ==> Recoverable(r.states[i], lib, whole)
  {
    var start, faults1 := Outcome(false, files, []), Later(faults);
    var saved := Renamed(files, faults1, lib, BackupOf(lib));
    if !Failing(faults) && lib in files && saved.Some? {
      InstallStaysRecoverable(Then(start, saved), Later(faults1), lib, newLib, whole);
    }
  }

  /** However attempts fail, and however they follow each other, there is never a moment without a whole library. */
  lemma {:induction false} AlwaysRecoverable(files: Files, attempts: seq<Attempt>, lib: string, whole: set<Content>)
    requires Recoverable(files, lib, whole)
    requires forall i :: 0 <= i < |attempts| ==> Offers(attempts[i], lib, whole)
    ensures forall i :: 0 <= i < |Attempts(files, attempts, lib)| ==>
              Recoverable(Attempts(files, attempts, lib)[i], lib, whole)
    decreases |attempts|
  {
    if attempts != [] {
      var a := attempts[0];
      var found := Between(files, a.others, lib);
      AttemptStaysRecoverable(found, a.faults, lib, a.newLib, whole);
      var r := Replacement(found, a.faults, lib, a.newLib);
      AlwaysRecoverable(r.files, attempts[1..], lib, whole);
    }
  }
}
