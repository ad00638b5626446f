/**
 Placing a release over a running binary's file: `replace` of src/self_update.rs, with every state the
 file system passes through on the way, whatever fails.
 */
module Replacing {
  import opened Outcomes
  import opened Sequences

  datatype Path = Path(dir: string, name: string)

  datatype File = File(content: Bytes, executable: bool)

  /** How each call into the system ends; `writes` is how a copy's content reaches the disk, piece by piece. */
  datatype System = System(
    stagedMode: bool,
    reported: Option<string>,  // what the staged binary prints for `--version`, if it runs
    opens: bool,
    writes: seq<Bytes>,
    copied: bool,
    mode: bool,
    synced: bool,
    renamed: bool,
    removed: bool)  // the clean-up of the temporary file, whose failure is ignored

  datatype Failure = CannotRun | WrongVersion | CannotReplace | Io

  /** `target.with_file_name(".uze-update-<pid>")` */
  function Beside(target: Path, pid: string): Path {
    target.(name := ".uze-update-" + pid)
  }

  predicate Contains(text: string, part: string) {
    part <= text || (text != "" && Contains(text[1..], part))
  }

  /** It stands there somewhere. */
  lemma {:induction false} ContainedSomewhere(text: string, part: string)
    ensures Contains(text, part) <==> exists i :: 0 <= i <= |text| && part <= text[i..]
  {
    assert text[0..] == text;
    if !(part <= text) && text != "" {
      ContainedSomewhere(text[1..], part);
      assert forall i :: 0 <= i < |text| ==> text[1..][i..] == text[i + 1..];
      if i :| 0 <= i <= |text| && part <= text[i..] {
        assert text[1..][i - 1..] == text[i..];
      }
    }
  }

  /** The staged file runs, and as the release it claims to be. */
  predicate Vetted(sys: System, version: string) {
    sys.stagedMode && sys.reported.Some? && Contains(sys.reported.value, version)
  }

  predicate Places(sys: System) {
    sys.opens && sys.copied && sys.mode && sys.synced && sys.renamed
  }

  class FileSystem {
    var files: map<Path, File>
    ghost var history: seq<map<Path, File>>  // every state so far, this one included

    ghost predicate Valid()
      reads this
    {
      history != [] && history[|history| - 1] == files
    }

    constructor (files: map<Path, File>)
      ensures Valid() && this.files == files && history == [files]
    {
      this.files := files;
      history := [files];
    }

    method Become(next: map<Path, File>)
      requires Valid()
      modifies this
      ensures Valid() && files == next && history == old(history) + [next]
    {
      files := next;
      history := history + [next];
    }

    /** `fs::copy`: truncates or creates, then writes until done or failing. */
    method Copy(from: Path, to: Path, sys: System) returns (copied: bool)
      requires Valid() && from in files && from != to
      requires sys.copied ==> Flat(sys.writes) == files[from].content
      modifies this
      ensures Valid() && old(history) <= history
      ensures forall i :: |old(history)| <= i < |history| ==>
        to in history[i] && history[i] == old(files)[to := history[i][to]]
      ensures copied == (sys.opens && sys.copied)
      ensures sys.opens ==> |old(history)| < |history| && history[|old(history)|][to].content == []
      ensures copied ==> to in files && files == old(files)[to := files[to]] && files[to].content == files[from].content
      ensures if sys.opens then to in files && files == old(files)[to := files[to]] else files == old(files)
    {
      if !sys.opens { return false; }
      ghost var before := files;
      Become(files[to := File([], files[from].executable)]);
      var content: Bytes := [];
      for i := 0 to |sys.writes|
        invariant Valid() && old(history) <= history
        invariant |old(history)| < |history|
        invariant to in history[|old(history)|] && history[|old(history)|][to].content == []
        invariant content + Flat(sys.writes[i..]) == Flat(sys.writes)
        invariant to in files && files == before[to := File(content, before[from].executable)]
        invariant forall k :: |old(history)| <= k < |history| ==>
          to in history[k] && history[k] == before[to := history[k][to]]
      {
        assert sys.writes[i..][1..] == sys.writes[i + 1..];
        content := content + sys.writes[i];
        Become(files[to := File(content, files[from].executable)]);
      }
      copied := sys.copied;
    }
  }

  function At(files: map<Path, File>, path: Path): Option<File> {
    if path in files then Some(files[path]) else None
  }

  /** In every state from `since` on, `path` is one of the two. */
  ghost predicate Always(history: seq<map<Path, File>>, since: nat, path: Path, was: Option<File>, will: Option<File>) {
    forall i {:trigger history[i]} :: since <= i < |history| ==>
      At(history[i], path) == was || At(history[i], path) == will
  }

  /** Whether the temporary file is there in the end: nothing renamed it, there was one, and it would not go. */
  predicate LeftBeside(before: map<Path, File>, beside: Path, sys: System) {
    !Places(sys) && (sys.opens || beside in before) && !sys.removed
  }

  /** The closure of `replace` and the clean-up behind it: copy beside, make executable, sync, rename over. */
  method PlaceBeside(fs: FileSystem, staged: Path, target: Path, beside: Path, sys: System) returns (placed: bool)
    requires fs.Valid() && staged in fs.files && staged != target && staged != beside
    requires sys.copied ==> Flat(sys.writes) == fs.files[staged].content
    modifies fs
    ensures fs.Valid() && old(fs.history) <= fs.history
    ensures placed <==> Places(sys)
    ensures var was, will := old(At(fs.files, target)), Some(File(old(fs.files[staged]).content, true));
      && (placed ==> At(fs.files, target) == will)
      && (target != beside ==>
            && Always(fs.history, |old(fs.history)|, target, was, will)
            && (!placed ==> At(fs.files, target) == was)
            && (beside in fs.files <==> LeftBeside(old(fs.files), beside, sys)))
      && (target == beside && !placed ==> (target in fs.files <==> LeftBeside(old(fs.files), beside, sys)))
    ensures sys.opens ==>
      |old(fs.history)| < |fs.history| && EmptyAt(fs.history[|old(fs.history)|], beside)
    ensures forall path :: path != target && path != beside ==>
      Always(fs.history, |old(fs.history)|, path, old(At(fs.files, path)), old(At(fs.files, path)))
  {
    var copied := fs.Copy(staged, beside, sys);
    placed := false;
    if copied && sys.mode {
      fs.Become(fs.files[beside := fs.files[beside].(executable := true)]);
      if sys.synced && sys.renamed {
        fs.Become((fs.files - {beside})[target := fs.files[beside]]);
        placed := true;
      }
    }
    if !placed && sys.removed { fs.Become(fs.files - {beside}); }
  }

  predicate EmptyAt(files: map<Path, File>, path: Path) {
    path in files && files[path].content == []
  }

  /**
   `replace`: at every moment, whatever fails and wherever a crash leaves it, the target is wholly the old
   file or wholly the new one; it ends as the new one exactly when every call succeeded. A temporary file is
   left beside it exactly when there was one to clean up and the clean-up failed too. Only a target that itself
   bears the temporary name is emptied and written over in place, and gone when that fails.
   */
  method Replace(fs: FileSystem, staged: Path, version: string, target: Path, pid: string, sys: System)
    returns (placed: Result<(), Failure>)
    requires fs.Valid() && staged in fs.files && staged != target && staged != Beside(target, pid)
    requires sys.copied ==> Flat(sys.writes) == fs.files[staged].content
    modifies fs
    ensures fs.Valid() && old(fs.history) <= fs.history
    ensures placed.Ok? <==> Vetted(sys, version) && Places(sys)
    ensures var was, will := old(At(fs.files, target)), Some(File(old(fs.files[staged]).content, true));
      && (placed.Ok? ==> At(fs.files, target) == will)
      && (target != Beside(target, pid) ==>
            && Always(fs.history, |old(fs.history)|, target, was, will)
            && (placed.Err? ==> At(fs.files, target) == was)
            && (Vetted(sys, version) ==>
                  (Beside(target, pid) in fs.files <==> LeftBeside(old(fs.files), Beside(target, pid), sys))))
    ensures target == Beside(target, pid) && Vetted(sys, version) ==>
      && (sys.opens ==>
            |old(fs.history)| + 1 < |fs.history| && EmptyAt(fs.history[|old(fs.history)| + 1], target))
      && (placed.Err? ==> (target in fs.files <==> LeftBeside(old(fs.files), target, sys)))
    ensures forall path :: path != target && path != staged && path != Beside(target, pid) ==>
      Always(fs.history, |old(fs.history)|, path, old(At(fs.files, path)), old(At(fs.files, path)))
  {
    if !sys.stagedMode { return Err(Io); }
    fs.Become(fs.files[staged := fs.files[staged].(executable := true)]);
    if sys.reported.None? { return Err(CannotRun); }
    if !Contains(sys.reported.value, version) { return Err(WrongVersion); }
    var done := PlaceBeside(fs, staged, target, Beside(target, pid), sys);
    placed := if done then Ok(()) else Err(CannotReplace);
  }
}
