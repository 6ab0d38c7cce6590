/** What a harmful unlink costs. When a job cleans up after its rename, its temporary
    name may by then stand for another job's file. From every such moment there is a
    continuation after which a write has returned, its snapshot is the newest, and the
    file does not restore; and such a moment is reached from an empty disk.

    The unlinking frees a name that job `k` still means to rename. A new job `a` is given
    the name and writes its snapshot, `k` gives up and unlinks it once more, another new
    job `b` is given the name, and `a` renames the empty file of `b` to its own target. */
module TempReuse {
  import opened Text
  import opened Serialise
  import opened Store
  import opened StoreJson
  import opened Snapshot

  const EMPTY_STORE: string := "{}"

  /** A step with no assumption beyond the kernel's. */
  ghost predicate LooseNext(s: System, s': System) {
    s.disk.past != [] && exists i, c :: Can(s, i, c) && s' == Do(s, i, c)
  }

  /** A path of such steps, all of them harmless if `strict`. */
  ghost predicate Path(run: seq<System>, strict: bool) {
    && run != []
    && forall j | 0 <= j < |run| - 1 ::
         LooseNext(run[j], run[j + 1]) && (strict ==> Next(run[j], run[j + 1]))
  }

  function End(run: seq<System>): System
    requires run != []
  {
    run[|run| - 1]
  }

  lemma Step(run: seq<System>, strict: bool, i: nat, c: Call) returns (run': seq<System>)
    requires Path(run, strict) && End(run).disk.past != [] && Can(End(run), i, c)
    requires strict ==> Harmless(End(run), i, c)
    ensures Path(run', strict) && run'[0] == run[0] && End(run') == Do(End(run), i, c)
  {
    hide Can, Do, Harmless;
    run' := run + [Do(End(run), i, c)];
    forall j | 0 <= j < |run'| - 1
      ensures LooseNext(run'[j], run'[j + 1]) && (strict ==> Next(run'[j], run'[j + 1]))
    {
      if j < |run| - 1 {
        assert LooseNext(run[j], run[j + 1]) && (strict ==> Next(run[j], run[j + 1]));
      }
    }
  }

  /** What the directory and the files are now, and the jobs. */
  ghost predicate At(s: System, prefix: string, dir: Dir, files: map<nat, File>, jobs: seq<Job>) {
    s.prefix == prefix && s.disk.past != [] && Now(s.disk) == dir && s.disk.files == files && s.jobs == jobs
  }

  function Waiting(stamp: int): Job {
    Job(stamp, EMPTY_STORE, "", 0, Creating)
  }

  function With(stamp: int, tmp: string, ino: nat, pc: Pc): Job {
    Job(stamp, EMPTY_STORE, tmp, ino, pc)
  }

  // ---- The moves of the story ----

  /** Two snapshots of an empty store begin, the first with the stamp given. */
  lemma TwoBegin(run: seq<System>, strict: bool, stamp: int, dir: Dir, files: map<nat, File>, jobs: seq<Job>)
    returns (run': seq<System>)
    requires Path(run, strict) && At(End(run), End(run).prefix, dir, files, jobs)
    requires 0 <= stamp && IsInt64(stamp)
    ensures Path(run', strict) && run'[0] == run[0]
    ensures At(End(run'), End(run).prefix, dir, files, jobs + [Waiting(stamp), Waiting(0)])
  {
    hide Path;
    assert Serialised([]) == EMPTY_STORE;
    assert IsOrderOf([], map[]);
    run' := Step(run, strict, 0, Begin(stamp, map[], []));
    run' := Step(run', strict, 0, Begin(0, map[], []));
    assert jobs + [Waiting(stamp)] + [Waiting(0)] == jobs + [Waiting(stamp), Waiting(0)];
  }

  lemma Create(run: seq<System>, strict: bool, i: nat, stamp: int, tmp: string, ino: nat,
               dir: Dir, files: map<nat, File>, jobs: seq<Job>)
    returns (run': seq<System>)
    requires Path(run, strict) && At(End(run), End(run).prefix, dir, files, jobs)
    requires i < |jobs| && jobs[i] == Waiting(stamp) && IsTempName(tmp) && tmp !in dir && ino !in files
    ensures Path(run', strict) && run'[0] == run[0]
    ensures At(End(run'), End(run).prefix, dir[tmp := ino], files[ino := File("", false)],
               jobs[i := With(stamp, tmp, ino, Writing(0))])
  {
    hide Path;
    run' := Step(run, strict, i, Mkstemp(tmp, ino));
  }

  /** Job `i` writes all its bytes, syncs and closes. */
  lemma WriteOut(run: seq<System>, strict: bool, i: nat, stamp: int, tmp: string, ino: nat,
                 dir: Dir, files: map<nat, File>, jobs: seq<Job>)
    returns (run': seq<System>)
    requires Path(run, strict) && At(End(run), End(run).prefix, dir, files, jobs)
    requires i < |jobs| && jobs[i] == With(stamp, tmp, ino, Writing(0))
    requires ino in files && files[ino] == File("", false)
    ensures Path(run', strict) && run'[0] == run[0]
    ensures At(End(run'), End(run).prefix, dir, files[ino := File(EMPTY_STORE, true)],
               jobs[i := With(stamp, tmp, ino, FileClosed)])
  {
    var prefix := End(run).prefix;
    hide Path;
    run' := Step(run, strict, i, WriteSome(2));
    assert "" + EMPTY_STORE[0..0 + 2] == EMPTY_STORE;
    assert At(End(run'), prefix, dir, files[ino := File(EMPTY_STORE, false)],
              jobs[i := With(stamp, tmp, ino, Writing(2))]);
    run' := Step(run', strict, i, FsyncFile);
    assert files[ino := File(EMPTY_STORE, false)][ino := File(EMPTY_STORE, true)]
        == files[ino := File(EMPTY_STORE, true)];
    run' := Step(run', strict, i, CloseFile);
  }

  /** Job `k` fails and unlinks its temporary name. */
  lemma GiveUp(run: seq<System>, k: nat, tmp: string, dir: Dir, files: map<nat, File>, jobs: seq<Job>)
    returns (run': seq<System>)
    requires Path(run, false) && At(End(run), End(run).prefix, dir, files, jobs)
    requires k < |jobs| && OwnsTemp(jobs[k]) && jobs[k].tmp == tmp
    ensures Path(run', false) && run'[0] == run[0]
    ensures At(End(run'), End(run).prefix, dir - {tmp}, files, jobs[k := jobs[k].(pc := Threw)])
  {
    hide Path;
    run' := Step(run, false, k, Fail);
    run' := Step(run', false, k, Unlink);
  }

  /** Job `i` renames whatever its temporary name now means, and returns. */
  lemma RenameAndReturn(run: seq<System>, i: nat, stamp: int, tmp: string, ino: nat,
                        dir: Dir, files: map<nat, File>, jobs: seq<Job>)
    returns (run': seq<System>)
    requires Path(run, false) && At(End(run), End(run).prefix, dir, files, jobs)
    requires i < |jobs| && jobs[i] == With(stamp, tmp, ino, FileClosed) && tmp in dir
    ensures Path(run', false) && run'[0] == run[0] && End(run').prefix == End(run).prefix
    ensures End(run').disk == Disk(files, [(dir - {tmp})[TargetName(End(run).prefix, stamp) := dir[tmp]]])
    ensures End(run').jobs == jobs[i := With(stamp, tmp, ino, Returned)]
  {
    hide Path, TargetName;
    run' := Step(run, false, i, Rename);
    run' := Step(run', false, i, OpenDir);
    run' := Step(run', false, i, FsyncDir);
    run' := Step(run', false, i, CloseDir);
  }

  /** An inode no file has. */
  lemma {:induction false} FreeInode(used: set<nat>) returns (ino: nat)
    ensures forall n | n in used :: n < ino
    decreases used
  {
    if used == {} {
      ino := 0;
    } else {
      var n :| n in used;
      var rest := FreeInode(used - {n});
      ino := if n < rest then rest else n + 1;
      assert forall m | m in used :: m == n || m in used - {n};
    }
  }

  // ---- What is lost ----

  /** A write has returned, its snapshot is the newest, and a crash leaves a file under
      its name that does not restore. */
  ghost predicate Loses(s: System) {
    exists j, dir, content :: LosesHere(s, j, dir, content)
  }

  ghost predicate LosesHere(s: System, j: nat, dir: Dir, content: map<nat, string>) {
    && s.disk.past != [] && j < |s.jobs| && s.jobs[j].pc.Returned?
    && MayLeave(s.disk, dir, content)
    && var newest := TargetName(s.prefix, s.jobs[j].stamp);
    && newest in dir
    && (forall n | n in dir && StampOf(s.prefix, n).Some? :: StampOf(s.prefix, n).value <= s.jobs[j].stamp)
    && !Deserialised(content[dir[newest]], map[]).1
  }

  lemma EmptyTextFails()
    ensures !Deserialised("", map[]).1
  {
    assert Skip("") == "";
  }

  lemma StampFits(prefix: string, name: string)
    requires StampOf(prefix, name).Some?
    ensures StampOf(prefix, name).value <= INT64_MAX
  {
  }

  lemma OneMomentMayLeave(d: Disk, dir: Dir, content: map<nat, string>)
    requires d.past == [dir] && content.Keys == d.files.Keys
    requires forall ino | ino in d.files :: content[ino] == d.files[ino].bytes
    requires forall n | n in dir :: dir[n] in d.files
    ensures MayLeave(d, dir, content)
  {
    assert d.past[0] == dir;
  }

  /** With the newest name leading to an empty file that was never synced, all is lost. */
  lemma EmptyFileLoses(s: System, j: nat, dir: Dir)
    requires s.disk.past == [dir] && j < |s.jobs| && s.jobs[j].pc.Returned? && s.jobs[j].stamp == INT64_MAX
    requires forall n | n in dir :: dir[n] in s.disk.files
    requires TargetName(s.prefix, INT64_MAX) in dir
    requires s.disk.files[dir[TargetName(s.prefix, INT64_MAX)]] == File("", false)
    ensures Loses(s)
  {
    hide Deserialised, MayLeave, TargetName, StampOf;
    var content := map ino | ino in s.disk.files :: s.disk.files[ino].bytes;
    OneMomentMayLeave(s.disk, dir, content);
    EmptyTextFails();
    forall n | n in dir && StampOf(s.prefix, n).Some? ensures StampOf(s.prefix, n).value <= INT64_MAX {
      StampFits(s.prefix, n);
    }
    assert LosesHere(s, j, dir, content);
  }

  /** Every harmful unlink opens the way to a loss. */
  lemma HarmfulUnlinkLoses(s: System, i: nat)
    requires Inv(s) && Can(s, i, Unlink) && !Harmless(s, i, Unlink)
    ensures exists run :: Path(run, false) && run[0] == Do(s, i, Unlink) && Loses(End(run))
  {
    var k: nat :| k < |s.jobs| && k != i && OwnsTemp(s.jobs[k]) && s.jobs[k].tmp == s.jobs[i].tmp;
    var t, s1 := s.jobs[i].tmp, Do(s, i, Unlink);
    assert JobSound(s, i);
    assert DirSound(s.prefix, s.disk.files, Now(s.disk), Known(s));
    var dir, files := Now(s.disk) - {t}, s.disk.files;
    assert forall n | n in dir :: dir[n] in files;
    hide Inv, JobSound, DirSound;
    var run := Continue(s1, k, t, dir, files, s1.jobs);
  }

  /** The story from the moment the name is free: `a` writes, and `k` gives up. */
  lemma Continue(s: System, k: nat, t: string, dir: Dir, files: map<nat, File>, jobs: seq<Job>)
    returns (run: seq<System>)
    requires At(s, s.prefix, dir, files, jobs)
    requires k < |jobs| && OwnsTemp(jobs[k]) && jobs[k].tmp == t && IsTempName(t) && t !in dir
    requires forall n | n in dir :: dir[n] in files
    ensures Path(run, false) && run[0] == s && Loses(End(run))
  {
    var a := |jobs|;
    var ino := FreeInode(files.Keys);
    hide Path, Loses, TargetName, IsTempName;
    run := OnePath(s);
    run := TwoBegin(run, false, INT64_MAX, dir, files, jobs);
    var jobs1 := jobs + [Waiting(INT64_MAX), Waiting(0)];
    run := Create(run, false, a, INT64_MAX, t, ino, dir, files, jobs1);
    var jobs2 := jobs1[a := With(INT64_MAX, t, ino, Writing(0))];
    run := WriteOut(run, false, a, INT64_MAX, t, ino, dir[t := ino], files[ino := File("", false)], jobs2);
    var jobs3 := jobs2[a := With(INT64_MAX, t, ino, FileClosed)];
    var files3 := files[ino := File("", false)][ino := File(EMPTY_STORE, true)];
    run := GiveUp(run, k, t, dir[t := ino], files3, jobs3);
    assert dir[t := ino] - {t} == dir;
    run := Swap(run, a, t, ino, dir, files3, jobs3[k := jobs3[k].(pc := Threw)]);
  }

  /** The rest of it: `b` is given the name, and `a` renames its file. */
  lemma Swap(run: seq<System>, a: nat, t: string, ino: nat, dir: Dir, files: map<nat, File>, jobs: seq<Job>)
    returns (run': seq<System>)
    requires Path(run, false) && At(End(run), End(run).prefix, dir, files, jobs)
    requires a + 1 < |jobs| && jobs[a] == With(INT64_MAX, t, ino, FileClosed) && jobs[a + 1] == Waiting(0)
    requires IsTempName(t) && t !in dir && forall n | n in dir :: dir[n] in files
    ensures Path(run', false) && run'[0] == run[0] && Loses(End(run'))
  {
    var two := FreeInode(files.Keys);
    hide Path, Loses, TargetName, IsTempName;
    run' := Create(run, false, a + 1, 0, t, two, dir, files, jobs);
    var jobs' := jobs[a + 1 := With(0, t, two, Writing(0))];
    run' := RenameLoses(run', a, t, ino, two, dir, files[two := File("", false)], jobs');
  }

  lemma RenameLoses(run: seq<System>, a: nat, t: string, ino: nat, two: nat, dir: Dir, files: map<nat, File>,
                    jobs: seq<Job>)
    returns (run': seq<System>)
    requires Path(run, false) && At(End(run), End(run).prefix, dir[t := two], files, jobs)
    requires a < |jobs| && jobs[a] == With(INT64_MAX, t, ino, FileClosed)
    requires t !in dir && two in files && files[two] == File("", false)
    requires forall n | n in dir :: dir[n] in files
    ensures Path(run', false) && run'[0] == run[0] && Loses(End(run'))
  {
    var target := TargetName(End(run).prefix, INT64_MAX);
    hide Path, Loses, TargetName;
    run' := RenameAndReturn(run, a, INT64_MAX, t, ino, dir[t := two], files, jobs);
    assert dir[t := two] - {t} == dir;
    EmptyFileLoses(End(run'), a, dir[target := two]);
  }

  lemma OnePath(s: System) returns (run: seq<System>)
    ensures run == [s] && Path(run, false) && Path(run, true)
  {
    run := [s];
  }

  // ---- Such a moment is reached ----

  const TEMP: string := ".tmp-aaaaaa"

  /** On an empty disk and with any prefix, a run of harmless steps reaches a harmful
      unlink: one job fails after its rename, and its temporary name is handed out again
      before it cleans up. */
  lemma HarmIsReachable(prefix: string)
    ensures exists run: seq<System>, i: nat ::
      && IsRun(run) && run[0].prefix == prefix && End(run).disk.past != []
      && Can(End(run), i, Unlink) && !Harmless(End(run), i, Unlink)
  {
    TargetHasStamp(prefix, 1);
    TempHasNoStamp(prefix, TEMP);
    assert IsTempName(TEMP);
    hide Path, TargetName, StampOf, IsTempName;
    var s := System(prefix, Disk(map[], [map[]]), [], {}, {});
    var run := OnePath(s);
    run := TwoBegin(run, true, 1, map[], map[], []);
    var jobs := [] + [Waiting(1), Waiting(0)];
    run := Create(run, true, 0, 1, TEMP, 0, map[], map[], jobs);
    jobs := jobs[0 := With(1, TEMP, 0, Writing(0))];
    run := WriteOut(run, true, 0, 1, TEMP, 0, map[][TEMP := 0], map[][0 := File("", false)], jobs);
    jobs := jobs[0 := With(1, TEMP, 0, FileClosed)];
    var files := map[][0 := File("", false)][0 := File(EMPTY_STORE, true)];
    run := FailAfterRename(run, 0, 1, TEMP, 0, map[][TEMP := 0], files, jobs);
    jobs := jobs[0 := With(1, TEMP, 0, Cleaning)];
    run := Create(run, true, 1, 0, TEMP, 1, (map[][TEMP := 0] - {TEMP})[TargetName(prefix, 1) := 0], files, jobs);
    StrictPathIsRun(run, s);
    assert OwnsTemp(End(run).jobs[1]) && End(run).jobs[1].tmp == End(run).jobs[0].tmp;
    assert Can(End(run), 0, Unlink);
  }

  lemma FailAfterRename(run: seq<System>, i: nat, stamp: int, tmp: string, ino: nat,
                        dir: Dir, files: map<nat, File>, jobs: seq<Job>)
    returns (run': seq<System>)
    requires Path(run, true) && At(End(run), End(run).prefix, dir, files, jobs)
    requires i < |jobs| && jobs[i] == With(stamp, tmp, ino, FileClosed) && tmp in dir
    ensures Path(run', true) && run'[0] == run[0]
    ensures At(End(run'), End(run).prefix, (dir - {tmp})[TargetName(End(run).prefix, stamp) := dir[tmp]], files,
               jobs[i := With(stamp, tmp, ino, Cleaning)])
  {
    hide Path, TargetName;
    run' := Step(run, true, i, Rename);
    run' := Step(run', true, i, Fail);
  }

  lemma StrictPathIsRun(run: seq<System>, s: System)
    requires Path(run, true) && run[0] == s && IsStart(s)
    ensures IsRun(run)
  {
  }
}
