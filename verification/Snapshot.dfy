/** Writing snapshots so that a crash at any moment leaves a usable one.

    The disk has files, whose bytes are certain after a crash only if synced since
    they were last written, and one directory. Each name's entry after a crash is
    whatever it was at some moment since the directory was last synced, name by name.
    Any number of snapshot children run `DurableWrite` at once, one system call at a
    time, and any call may fail. */
module Snapshot {
  import opened Text
  import opened Store
  import opened StoreJson

  const SUFFIX: string := ".snapshot.json"

  // ---- Names ----

  function TargetName(prefix: string, stamp: int): string {
    prefix + ToString(stamp) + SUFFIX
  }

  /** What `mkstemp` makes of ".tmp-XXXXXX". */
  predicate IsTempName(name: string) {
    |name| == 11 && ".tmp-" <= name
  }

  /** The timestamp in a snapshot's name, if it is one. */
  function StampOf(prefix: string, name: string): Option<int> {
    if |name| < |prefix| + |SUFFIX| || !(prefix <= name) || name[|name| - |SUFFIX|..] != SUFFIX then None
    else
      var middle := name[|prefix|..|name| - |SUFFIX|];
      match FromChars(middle)
      case None => None
      case Some((n, used)) => if used == |middle| then Some(n) else None
  }

  /** A file is a snapshot with that timestamp exactly if its name is the prefix, an integer
      text for the timestamp, and the suffix. */
  lemma StampOfExactly(prefix: string, name: string, n: int)
    ensures StampOf(prefix, name) == Some(n) <==>
      exists t :: IsIntegerText(t, n) && name == prefix + t + SUFFIX
  {
    hide FromChars;
    if |name| >= |prefix| + |SUFFIX| && prefix <= name && name[|name| - |SUFFIX|..] == SUFFIX {
      var middle := name[|prefix|..|name| - |SUFFIX|];
      FromCharsExactly(middle, n, |middle|);
      assert middle[..|middle|] == middle && name == prefix + middle + SUFFIX;
    }
    forall t | name == prefix + t + SUFFIX
      ensures name[|prefix|..|name| - |SUFFIX|] == t && prefix <= name && name[|name| - |SUFFIX|..] == SUFFIX
    {
    }
  }

  lemma TargetHasStamp(prefix: string, stamp: int)
    requires IsInt64(stamp)
    ensures StampOf(prefix, TargetName(prefix, stamp)) == Some(stamp)
  {
    var name, n := TargetName(prefix, stamp), ToString(stamp);
    assert name[|prefix|..|name| - |SUFFIX|] == n;
    FromCharsOfToString(stamp, "");
    assert n + "" == n;
  }

  /** Temporary files are too short to be taken for snapshots, whatever the prefix. */
  lemma TempHasNoStamp(prefix: string, name: string)
    requires IsTempName(name)
    ensures StampOf(prefix, name).None?
  {
  }

  /** One entry of a directory listing. */
  datatype Listed = Listed(name: string, regular: bool)

  /** The names of the regular files among the entries. */
  function Regular(entries: seq<Listed>): seq<string> {
    if entries == [] then []
    else Regular(entries[..|entries| - 1]) +
         (if entries[|entries| - 1].regular then [entries[|entries| - 1].name] else [])
  }

  /** The newest snapshot among the directory's regular files, in whatever order they come. */
  method LatestSnapshot(prefix: string, entries: seq<Listed>) returns (best: Option<string>)
    ensures best.None? <==>
      forall n | n in Regular(entries) :: StampOf(prefix, n).None? || StampOf(prefix, n).value < 0
    ensures best.Some? ==> IsLatest(prefix, Regular(entries), best.value)
  {
    best := None;
    var bestStamp := -1;
    for i := 0 to |entries|
      invariant bestStamp >= -1 && (best.None? <==> bestStamp == -1)
      invariant best.Some? ==> best.value in Regular(entries[..i]) && StampOf(prefix, best.value) == Some(bestStamp)
      invariant forall n | n in Regular(entries[..i]) ::
        StampOf(prefix, n).None? || StampOf(prefix, n).value <= bestStamp
    {
      assert entries[..i + 1][..i] == entries[..i];
      if !entries[i].regular {
        continue;
      }
      var stamp := StampOf(prefix, entries[i].name);
      if stamp.None? {
        continue;
      }
      if stamp.value > bestStamp {
        bestStamp := stamp.value;
        best := Some(entries[i].name);
      }
    }
    assert entries[..|entries|] == entries;
  }

  ghost predicate IsLatest(prefix: string, names: seq<string>, best: string) {
    && best in names
    && StampOf(prefix, best).Some? && StampOf(prefix, best).value >= 0
    && forall n | n in names && StampOf(prefix, n).Some? ::
         StampOf(prefix, n).value <= StampOf(prefix, best).value
  }

  // ---- The disk ----

  datatype File = File(bytes: string, synced: bool)

  type Dir = map<string, nat>

  /** `past` holds the directory at every moment since it was last synced, the present
      one last. */
  datatype Disk = Disk(files: map<nat, File>, past: seq<Dir>)

  function Now(d: Disk): Dir
    requires d.past != []
  {
    d.past[|d.past| - 1]
  }

  function Change(d: Disk, dir: Dir): Disk {
    d.(past := d.past + [dir])
  }

  // ---- DurableWrite, one system call at a time ----

  datatype Pc =
    | Creating
    | Writing(done: nat)
    | FileSynced
    | FileClosed
    | Renamed
    | DirOpened
    | DirSynced
    | Cleaning      // an error was caught; unlink comes next
    | Returned
    | Threw

  datatype Job = Job(stamp: int, bytes: string, tmp: string, ino: nat, pc: Pc)

  /** `found` records the snapshots on disk when the process started, each with its name,
      and `taken` the text of every snapshot begun since, with the name it is meant for. */
  datatype System = System(prefix: string, disk: Disk, jobs: seq<Job>,
                           found: set<(string, string)>, taken: set<(string, string)>)

  function Known(s: System): set<(string, string)> {
    s.found + s.taken
  }

  datatype Call =
    | Begin(stamp: int, data: Data, pairs: Pairs)  // Snapshot: serialise the store, read the clock
    | Mkstemp(tmp: string, ino: nat)
    | WriteSome(n: nat)
    | FsyncFile | CloseFile | Rename | OpenDir | FsyncDir | CloseDir
    | Fail                               // the next call fails
    | Unlink | UnlinkFails

  /** What the kernel alone guarantees. */
  ghost predicate Can(s: System, i: nat, c: Call)
    requires s.disk.past != []
  {
    match c
    case Begin(stamp, data, pairs) =>
      0 <= stamp && IsInt64(stamp) && IsOrderOf(pairs, data) && forall k | k in data :: IsInt64(data[k].expiry)
    case Mkstemp(tmp, ino) => i < |s.jobs| && s.jobs[i].pc.Creating? &&
      IsTempName(tmp) && tmp !in Now(s.disk) && ino !in s.disk.files
    case WriteSome(n) => i < |s.jobs| && s.jobs[i].pc.Writing? && s.jobs[i].ino in s.disk.files &&
      s.jobs[i].pc.done + n <= |s.jobs[i].bytes|
    case FsyncFile => i < |s.jobs| && s.jobs[i].pc.Writing? && s.jobs[i].ino in s.disk.files &&
      s.jobs[i].pc.done == |s.jobs[i].bytes|
    case CloseFile => i < |s.jobs| && s.jobs[i].pc.FileSynced?
    case Rename => i < |s.jobs| && s.jobs[i].pc.FileClosed? && s.jobs[i].tmp in Now(s.disk)
    case OpenDir => i < |s.jobs| && s.jobs[i].pc.Renamed?
    case FsyncDir => i < |s.jobs| && s.jobs[i].pc.DirOpened?
    case CloseDir => i < |s.jobs| && s.jobs[i].pc.DirSynced?
    case Fail => i < |s.jobs| && !(s.jobs[i].pc.Cleaning? || s.jobs[i].pc.Returned? || s.jobs[i].pc.Threw?)
    case Unlink => i < |s.jobs| && s.jobs[i].pc.Cleaning?
    case UnlinkFails => i < |s.jobs| && s.jobs[i].pc.Cleaning?
  }

  function Moved(s: System, i: nat, disk: Disk, pc: Pc): System
    requires i < |s.jobs|
  {
    s.(disk := disk, jobs := s.jobs[i := s.jobs[i].(pc := pc)])
  }

  ghost function Do(s: System, i: nat, c: Call): System
    requires s.disk.past != [] && Can(s, i, c)
  {
    var disk := s.disk;
    match c
    case Begin(stamp, _, pairs) =>
      s.(jobs := s.jobs + [Job(stamp, Serialised(pairs), "", 0, Creating)],
         taken := s.taken + {(TargetName(s.prefix, stamp), Serialised(pairs))})
    case Mkstemp(tmp, ino) =>
      s.(disk := Change(disk.(files := disk.files[ino := File("", false)]), Now(disk)[tmp := ino]),
         jobs := s.jobs[i := s.jobs[i].(tmp := tmp, ino := ino, pc := Writing(0))])
    case WriteSome(n) =>
      var job := s.jobs[i];
      var done := job.pc.done;
      var file := File(disk.files[job.ino].bytes + job.bytes[done..done + n], false);
      Moved(s, i, disk.(files := disk.files[job.ino := file]), Writing(done + n))
    case FsyncFile =>
      var ino := s.jobs[i].ino;
      Moved(s, i, disk.(files := disk.files[ino := disk.files[ino].(synced := true)]), FileSynced)
    case CloseFile => Moved(s, i, disk, FileClosed)
    case Rename =>
      var job := s.jobs[i];
      var dir := Now(disk);
      Moved(s, i, Change(disk, (dir - {job.tmp})[TargetName(s.prefix, job.stamp) := dir[job.tmp]]), Renamed)
    case OpenDir => Moved(s, i, disk, DirOpened)
    case FsyncDir => Moved(s, i, disk.(past := [Now(disk)]), DirSynced)
    case CloseDir => Moved(s, i, disk, Returned)
    case Fail => Moved(s, i, disk, if s.jobs[i].pc.Creating? then Threw else Cleaning)
    case Unlink => Moved(s, i, Change(disk, Now(disk) - {s.jobs[i].tmp}), Threw)
    case UnlinkFails => Moved(s, i, disk, Threw)
  }

  // ---- What every reachable state satisfies ----

  /** The job may still write to, rename or unlink its temporary name. */
  predicate HoldsTemp(job: Job) {
    !(job.pc.Creating? || job.pc.Returned? || job.pc.Threw?)
  }

  /** The temporary name still stands for the job's own file. */
  predicate OwnsTemp(job: Job) {
    job.pc.Writing? || job.pc.FileSynced? || job.pc.FileClosed?
  }

  /** The clean-up of job `i` does not unlink a name that now stands for another job's
      file. After a failed step that followed the rename it may: `mkstemp` is free to
      hand the name out again. */
  predicate Harmless(s: System, i: nat, c: Call) {
    c.Unlink? && i < |s.jobs| ==>
      forall k | 0 <= k < |s.jobs| && k != i && OwnsTemp(s.jobs[k]) :: s.jobs[k].tmp != s.jobs[i].tmp
  }

  /** Everything that looks like a snapshot in `dir` is a whole one, safely on disk. */
  ghost predicate DirSound(prefix: string, files: map<nat, File>, dir: Dir, known: set<(string, string)>) {
    forall n | n in dir ::
      && dir[n] in files
      && (StampOf(prefix, n).Some? ==>
            && files[dir[n]].synced
            && (n, files[dir[n]].bytes) in known)
  }

  ghost predicate JobSound(s: System, i: nat)
    requires i < |s.jobs| && s.disk.past != []
  {
    var job := s.jobs[i];
    && 0 <= job.stamp && IsInt64(job.stamp)
    && (TargetName(s.prefix, job.stamp), job.bytes) in s.taken
    && (HoldsTemp(job) ==> IsTempName(job.tmp))
    && (OwnsTemp(job) ==>
          && job.tmp in Now(s.disk) && Now(s.disk)[job.tmp] == job.ino
          && job.ino in s.disk.files)
    && (job.pc.Writing? ==>
          job.pc.done <= |job.bytes| && s.disk.files[job.ino].bytes == job.bytes[..job.pc.done])
    && (job.pc.FileSynced? || job.pc.FileClosed? ==>
          s.disk.files[job.ino] == File(job.bytes, true))
    && Named(s, job.pc, TargetName(s.prefix, job.stamp))
  }

  /** Once renamed, the target leads to a snapshot taken under its name; once the directory
      is synced, at every moment a crash may bring back. */
  ghost predicate Named(s: System, pc: Pc, target: string)
    requires s.disk.past != []
  {
    && (pc.Renamed? || pc.DirOpened? ==> TakenAs(s.disk.files, Now(s.disk), target, s.taken))
    && (pc.DirSynced? || pc.Returned? ==>
          forall j | 0 <= j < |s.disk.past| :: TakenAs(s.disk.files, s.disk.past[j], target, s.taken))
  }

  /** The name leads to a snapshot taken under that name since the start. */
  ghost predicate TakenAs(files: map<nat, File>, dir: Dir, name: string, taken: set<(string, string)>) {
    name in dir && dir[name] in files && (name, files[dir[name]].bytes) in taken
  }

  /** A later directory takes the place of the present one. */
  function Place(s: System, j: nat): nat
    requires s.disk.past != []
  {
    if j < |s.disk.past| then j else |s.disk.past| - 1
  }

  /** What the target leads to is still, or again, taken under its name. */
  ghost predicate TargetKept(s: System, s': System, target: string)
    requires s.disk.past != []
  {
    && |s.disk.past| <= |s'.disk.past|
    && forall j: nat | j < |s'.disk.past| && TakenAs(s.disk.files, s.disk.past[Place(s, j)], target, s.taken) ::
         TakenAs(s'.disk.files, s'.disk.past[j], target, s'.taken)
  }

  lemma NamedKept(s: System, s': System, pc: Pc, target: string)
    requires s.disk.past != [] && TargetKept(s, s', target) && Named(s, pc, target)
    ensures s'.disk.past != [] && Named(s', pc, target)
  {
    hide TakenAs;
  }

  /** A file still being written is no snapshot's file and no other job's. */
  ghost predicate Private(s: System, i: nat)
    requires i < |s.jobs| && s.disk.past != []
  {
    OwnsTemp(s.jobs[i]) ==>
      && (forall j, n | 0 <= j < |s.disk.past| && n in s.disk.past[j] && StampOf(s.prefix, n).Some? ::
            s.disk.past[j][n] != s.jobs[i].ino)
      && (forall k | 0 <= k < |s.jobs| && k != i && OwnsTemp(s.jobs[k]) :: s.jobs[k].ino != s.jobs[i].ino)
  }

  /** `text` is what some visit of the store `data` writes. */
  ghost predicate IsTextOf(text: string, data: Data) {
    && (forall k | k in data :: IsInt64(data[k].expiry))
    && exists pairs :: IsOrderOf(pairs, data) && text == Serialised(pairs)
  }

  ghost predicate TakenSound(known: set<(string, string)>) {
    forall x | x in known :: exists data :: IsTextOf(x.1, data)
  }

  ghost predicate Inv(s: System) {
    && s.disk.past != []
    && TakenSound(Known(s))
    && (forall j | 0 <= j < |s.disk.past| :: DirSound(s.prefix, s.disk.files, s.disk.past[j], Known(s)))
    && (forall i: nat | i < |s.jobs| :: JobSound(s, i) && Private(s, i))
  }

  /** The job's temporary name stands for its own file. */
  ghost predicate InPlace(s: System, job: Job)
    requires s.disk.past != []
  {
    job.tmp in Now(s.disk) && Now(s.disk)[job.tmp] == job.ino && job.ino in s.disk.files
  }

  lemma JobFacts(s: System, k: nat)
    requires Inv(s) && k < |s.jobs|
    ensures s.disk.past != [] && JobSound(s, k) && Private(s, k)
    ensures OwnsTemp(s.jobs[k]) ==> InPlace(s, s.jobs[k])
    ensures HoldsTemp(s.jobs[k]) ==> IsTempName(s.jobs[k].tmp)
    ensures Named(s, s.jobs[k].pc, TargetName(s.prefix, s.jobs[k].stamp))
    ensures StampOf(s.prefix, TargetName(s.prefix, s.jobs[k].stamp)).Some?
  {
    assert JobSound(s, k) && Private(s, k);
    TargetHasStamp(s.prefix, s.jobs[k].stamp);
    hide StampOf, TargetName, TakenSound, DirSound, Private, Named;
  }

  /** A job that has not moved is as sound as before if its file, while it owns one, is
      untouched and its target is where it was. */
  lemma JobStays(s: System, s': System, k: nat)
    requires s.disk.past != [] && s'.disk.past != [] && k < |s.jobs| && |s.jobs| <= |s'.jobs|
    requires JobSound(s, k) && s'.jobs[k] == s.jobs[k] && s'.prefix == s.prefix && s.taken <= s'.taken
    requires OwnsTemp(s.jobs[k]) ==>
      InPlace(s, s.jobs[k]) && InPlace(s', s.jobs[k]) && s'.disk.files[s.jobs[k].ino] == s.disk.files[s.jobs[k].ino]
    requires Named(s', s.jobs[k].pc, TargetName(s.prefix, s.jobs[k].stamp))
    ensures JobSound(s', k)
  {
    hide Named, TargetName, IsTempName;
  }

  /** A call of one job leaves the records of the others alone. */
  lemma OthersStay(s: System, i: nat, c: Call, k: nat)
    requires s.disk.past != [] && Can(s, i, c) && !c.Begin? && k < |s.jobs| && k != i
    ensures var s' := Do(s, i, c);
      && s'.disk.past != [] && |s'.jobs| == |s.jobs| && s'.jobs[k] == s.jobs[k]
      && s'.prefix == s.prefix && s'.taken == s.taken
  {
    hide TargetName, IsTempName;
  }

  /** Two jobs that still own a temporary name own different ones. */
  lemma TempsDiffer(s: System, i: nat, k: nat)
    requires Inv(s) && i < |s.jobs| && k < |s.jobs| && i != k && OwnsTemp(s.jobs[i]) && OwnsTemp(s.jobs[k])
    ensures s.jobs[i].tmp != s.jobs[k].tmp && s.jobs[i].ino != s.jobs[k].ino
  {
    assert JobSound(s, i) && JobSound(s, k) && Private(s, i);
    hide StampOf, TargetName, IsTempName, DirSound, TakenSound, Named;
  }

  /** Every system call of every job keeps the invariant, the clean-up's unlink exactly
      when it is harmless. */
  lemma DoKeepsExactly(s: System, i: nat, c: Call)
    requires Inv(s) && Can(s, i, c)
    ensures Inv(Do(s, i, c)) <==> Harmless(s, i, c)
  {
    if Harmless(s, i, c) {
      DoKeeps(s, i, c);
    } else {
      UnlinkHarms(s, i);
    }
  }

  /** A harmful unlink leaves a job that owns a name which is no longer there. */
  lemma UnlinkHarms(s: System, i: nat)
    requires Inv(s) && Can(s, i, Unlink) && !Harmless(s, i, Unlink)
    ensures !Inv(Do(s, i, Unlink))
  {
    hide StampOf, TargetName, IsTempName, TakenSound, Serialised, IsOrderOf, DirSound, Private;
    var k :| 0 <= k < |s.jobs| && k != i && OwnsTemp(s.jobs[k]) && s.jobs[k].tmp == s.jobs[i].tmp;
    var s' := Do(s, i, Unlink);
    assert s'.jobs[k] == s.jobs[k] && s.jobs[k].tmp !in Now(s'.disk);
    assert !JobSound(s', k);
  }

  lemma DoKeeps(s: System, i: nat, c: Call)
    requires Inv(s) && Can(s, i, c) && Harmless(s, i, c)
    ensures Inv(Do(s, i, c))
  {
    match c
    case Begin(stamp, data, pairs) => BeginKeeps(s, stamp, data, pairs);
    case Mkstemp(tmp, ino) => MkstempKeeps(s, i, tmp, ino);
    case WriteSome(n) => FileKeeps(s, i, c);
    case FsyncFile => FileKeeps(s, i, c);
    case Rename => RenameKeeps(s, i);
    case Unlink => UnlinkKeeps(s, i);
    case _ => QuietKeeps(s, i, c);
  }

  lemma BeginKeeps(s: System, stamp: int, data: Data, pairs: Pairs)
    requires Inv(s) && Can(s, 0, Begin(stamp, data, pairs))
    ensures Inv(Do(s, 0, Begin(stamp, data, pairs)))
  {
    hide StampOf, TargetName, Serialised;
    var s' := Do(s, 0, Begin(stamp, data, pairs));
    assert IsTextOf(Serialised(pairs), data);
    forall k: nat | k < |s'.jobs| ensures JobSound(s', k) && Private(s', k) {
      if k < |s.jobs| {
        assert JobSound(s, k) && Private(s, k);
      }
    }
  }

  lemma MkstempKeeps(s: System, i: nat, tmp: string, ino: nat)
    requires Inv(s) && Can(s, i, Mkstemp(tmp, ino))
    ensures Inv(Do(s, i, Mkstemp(tmp, ino)))
  {
    TempHasNoStamp(s.prefix, tmp);
    hide StampOf, TargetName, IsTempName, TakenSound, Serialised, IsOrderOf;
    var s' := Do(s, i, Mkstemp(tmp, ino));
    assert DirSound(s.prefix, s.disk.files, Now(s.disk), Known(s));
    forall j | 0 <= j < |s'.disk.past| ensures DirSound(s.prefix, s'.disk.files, s'.disk.past[j], Known(s')) {
      assert j < |s.disk.past| ==> DirSound(s.prefix, s.disk.files, s.disk.past[j], Known(s));
    }
    forall k: nat | k < |s'.jobs| ensures JobSound(s', k) && Private(s', k) {
      MkstempJob(s, i, tmp, ino, k);
      MkstempPrivate(s, i, tmp, ino, k);
    }
  }

  lemma MkstempJob(s: System, i: nat, tmp: string, ino: nat, k: nat)
    requires Inv(s) && Can(s, i, Mkstemp(tmp, ino)) && k < |s.jobs|
    ensures JobSound(Do(s, i, Mkstemp(tmp, ino)), k)
  {
    if k == i {
      assert JobSound(s, k);
      hide Inv, StampOf, TargetName, IsTempName;
    } else {
      hide *;
      JobFacts(s, k);
      OthersStay(s, i, Mkstemp(tmp, ino), k);
      MkstempAside(s, i, tmp, ino, s.jobs[k]);
      MkstempTargetKept(s, i, tmp, ino, TargetName(s.prefix, s.jobs[k].stamp));
      NamedKept(s, Do(s, i, Mkstemp(tmp, ino)), s.jobs[k].pc, TargetName(s.prefix, s.jobs[k].stamp));
      JobStays(s, Do(s, i, Mkstemp(tmp, ino)), k);
    }
  }

  lemma MkstempAside(s: System, i: nat, tmp: string, ino: nat, job: Job)
    requires s.disk.past != [] && Can(s, i, Mkstemp(tmp, ino))
    ensures var s' := Do(s, i, Mkstemp(tmp, ino));
      InPlace(s, job) ==> InPlace(s', job) && s'.disk.files[job.ino] == s.disk.files[job.ino]
  {
    hide TargetName, IsTempName;
  }

  lemma MkstempTargetKept(s: System, i: nat, tmp: string, ino: nat, target: string)
    requires s.disk.past != [] && Can(s, i, Mkstemp(tmp, ino))
    ensures TargetKept(s, Do(s, i, Mkstemp(tmp, ino)), target)
  {
    hide TargetName, IsTempName;
  }

  lemma MkstempPrivate(s: System, i: nat, tmp: string, ino: nat, k: nat)
    requires Inv(s) && Can(s, i, Mkstemp(tmp, ino)) && k < |s.jobs|
    ensures Private(Do(s, i, Mkstemp(tmp, ino)), k)
  {
    TempHasNoStamp(s.prefix, tmp);
    hide StampOf, TargetName, IsTempName, TakenSound, Serialised, IsOrderOf;
    forall k: nat | k < |s.jobs| && OwnsTemp(s.jobs[k]) ensures s.jobs[k].ino != ino {
      assert JobSound(s, k);
    }
    forall j, n | 0 <= j < |s.disk.past| && n in s.disk.past[j] ensures s.disk.past[j][n] != ino {
      assert DirSound(s.prefix, s.disk.files, s.disk.past[j], Known(s));
    }
    assert Private(s, k);
    hide DirSound, JobSound;
  }

  /** A job only ever writes to its own file, which no snapshot name leads to. */
  lemma FileKeeps(s: System, i: nat, c: Call)
    requires Inv(s) && Can(s, i, c) && (c.WriteSome? || c.FsyncFile?)
    ensures Inv(Do(s, i, c))
  {
    hide StampOf, TargetName, IsTempName, TakenSound, Serialised, IsOrderOf;
    var s' := Do(s, i, c);
    assert JobSound(s, i) && Private(s, i);
    forall k: nat | k < |s'.jobs| ensures JobSound(s', k) && Private(s', k) {
      assert Private(s, k);
      if k == i {
        WriterJob(s, i, c);
      } else {
        BystanderJob(s, i, c, k);
      }
    }
  }

  lemma WriterJob(s: System, i: nat, c: Call)
    requires Inv(s) && Can(s, i, c) && (c.WriteSome? || c.FsyncFile?)
    ensures JobSound(Do(s, i, c), i)
  {
    hide StampOf, TargetName, IsTempName, TakenSound, Serialised, IsOrderOf, DirSound, Private;
    assert JobSound(s, i);
    var job := s.jobs[i];
    if c.WriteSome? {
      var done := job.pc.done;
      assert job.bytes[..done] + job.bytes[done..done + c.n] == job.bytes[..done + c.n];
    } else {
      assert job.bytes[..|job.bytes|] == job.bytes;
    }
  }

  lemma BystanderJob(s: System, i: nat, c: Call, k: nat)
    requires Inv(s) && Can(s, i, c) && (c.WriteSome? || c.FsyncFile?) && k < |s.jobs| && k != i
    ensures JobSound(Do(s, i, c), k)
  {
    hide *;
    JobFacts(s, k);
    OthersStay(s, i, c, k);
    FileAside(s, i, c, k);
    FileTargetKept(s, i, c, TargetName(s.prefix, s.jobs[k].stamp));
    NamedKept(s, Do(s, i, c), s.jobs[k].pc, TargetName(s.prefix, s.jobs[k].stamp));
    JobStays(s, Do(s, i, c), k);
  }

  lemma FileAside(s: System, i: nat, c: Call, k: nat)
    requires Inv(s) && Can(s, i, c) && (c.WriteSome? || c.FsyncFile?) && k < |s.jobs| && k != i
    ensures var s' := Do(s, i, c);
      OwnsTemp(s.jobs[k]) ==>
        InPlace(s, s.jobs[k]) && InPlace(s', s.jobs[k]) &&
        s'.disk.files[s.jobs[k].ino] == s.disk.files[s.jobs[k].ino]
  {
    hide Inv, Can, Do, JobSound, Private, Named, StampOf, TargetName, IsTempName;
    JobFacts(s, k);
    OnlyItsFile(s, i, c);
    if OwnsTemp(s.jobs[k]) {
      TempsDiffer(s, i, k);
    }
  }

  lemma FileTargetKept(s: System, i: nat, c: Call, target: string)
    requires Inv(s) && Can(s, i, c) && (c.WriteSome? || c.FsyncFile?) && StampOf(s.prefix, target).Some?
    ensures TargetKept(s, Do(s, i, c), target)
  {
    assert Private(s, i);
    OnlyItsFile(s, i, c);
    hide Inv, StampOf, Can, Do;
    var s' := Do(s, i, c);
    forall j: nat | j < |s'.disk.past| && TakenAs(s.disk.files, s.disk.past[Place(s, j)], target, s.taken)
      ensures TakenAs(s'.disk.files, s'.disk.past[j], target, s'.taken)
    {
      assert s.disk.past[j][target] != s.jobs[i].ino;
    }
  }

  lemma OnlyItsFile(s: System, i: nat, c: Call)
    requires s.disk.past != [] && Can(s, i, c) && (c.WriteSome? || c.FsyncFile?)
    ensures var s' := Do(s, i, c);
      && s'.prefix == s.prefix && s'.taken == s.taken && s'.disk.past == s.disk.past
      && |s'.jobs| == |s.jobs| && (forall k | 0 <= k < |s.jobs| && k != i :: s'.jobs[k] == s.jobs[k])
      && i < |s.jobs| && OwnsTemp(s.jobs[i])
      && (forall ino | ino in s.disk.files && ino != s.jobs[i].ino ::
            ino in s'.disk.files && s'.disk.files[ino] == s.disk.files[ino])
  {
  }

  lemma RenameKeeps(s: System, i: nat)
    requires Inv(s) && Can(s, i, Rename)
    ensures Inv(Do(s, i, Rename))
  {
    var s' := Do(s, i, Rename);
    RenameDir(s, i);
    hide StampOf, TargetName, IsTempName, TakenSound, Serialised, IsOrderOf, JobSound, Private, DirSound;
    forall k: nat | k < |s'.jobs| ensures JobSound(s', k) && Private(s', k) {
      RenameJob(s, i, k);
      RenamePrivate(s, i, k);
    }
  }

  lemma RenameDir(s: System, i: nat)
    requires Inv(s) && Can(s, i, Rename)
    ensures var s' := Do(s, i, Rename);
      forall j | 0 <= j < |s'.disk.past| :: DirSound(s.prefix, s'.disk.files, s'.disk.past[j], Known(s'))
  {
    assert JobSound(s, i);
    TargetHasStamp(s.prefix, s.jobs[i].stamp);
    hide StampOf, TargetName, IsTempName, TakenSound, Serialised, IsOrderOf, Private;
    assert DirSound(s.prefix, s.disk.files, Now(s.disk), Known(s));
  }

  lemma RenameJob(s: System, i: nat, k: nat)
    requires Inv(s) && Can(s, i, Rename) && k < |s.jobs|
    ensures JobSound(Do(s, i, Rename), k)
  {
    if k == i {
      RenamedJob(s, i);
    } else {
      OtherJob(s, i, k);
    }
  }

  lemma RenamedJob(s: System, i: nat)
    requires Inv(s) && Can(s, i, Rename)
    ensures JobSound(Do(s, i, Rename), i)
  {
    assert JobSound(s, i);
    hide StampOf, TargetName, IsTempName, TakenSound, Serialised, IsOrderOf, Private, DirSound;
  }

  lemma OtherJob(s: System, i: nat, k: nat)
    requires Inv(s) && Can(s, i, Rename) && k < |s.jobs| && k != i
    ensures JobSound(Do(s, i, Rename), k)
  {
    hide *;
    JobFacts(s, k);
    OthersStay(s, i, Rename, k);
    RenameAside(s, i, k);
    RenameTargetKept(s, i, TargetName(s.prefix, s.jobs[k].stamp));
    NamedKept(s, Do(s, i, Rename), s.jobs[k].pc, TargetName(s.prefix, s.jobs[k].stamp));
    JobStays(s, Do(s, i, Rename), k);
  }

  lemma RenameAside(s: System, i: nat, k: nat)
    requires Inv(s) && Can(s, i, Rename) && k < |s.jobs| && k != i
    ensures TargetName(s.prefix, s.jobs[k].stamp) != s.jobs[i].tmp
    ensures var s' := Do(s, i, Rename);
      OwnsTemp(s.jobs[k]) ==>
        InPlace(s, s.jobs[k]) && InPlace(s', s.jobs[k]) &&
        s'.disk.files[s.jobs[k].ino] == s.disk.files[s.jobs[k].ino]
  {
    hide *;
    JobFacts(s, k);
    AtRename(s, i);
    JobFacts(s, i);
    TargetIsNoTemp(s, k, s.jobs[i].tmp);
    if OwnsTemp(s.jobs[k]) {
      TempsDiffer(s, i, k);
      OwnerHolds(s.jobs[k]);
      TargetIsNoTemp(s, i, s.jobs[k].tmp);
      RenameLeaves(s, i, s.jobs[k]);
    }
  }

  lemma AtRename(s: System, i: nat)
    requires s.disk.past != [] && Can(s, i, Rename)
    ensures i < |s.jobs| && OwnsTemp(s.jobs[i]) && HoldsTemp(s.jobs[i])
  {
  }

  lemma OwnerHolds(job: Job)
    requires OwnsTemp(job)
    ensures HoldsTemp(job)
  {
  }

  lemma RenameLeaves(s: System, i: nat, job: Job)
    requires s.disk.past != [] && Can(s, i, Rename) && InPlace(s, job)
    requires job.tmp != s.jobs[i].tmp && job.tmp != TargetName(s.prefix, s.jobs[i].stamp)
    ensures InPlace(Do(s, i, Rename), job) && Do(s, i, Rename).disk.files[job.ino] == s.disk.files[job.ino]
  {
    hide TargetName;
  }

  lemma RenameTargetKept(s: System, i: nat, target: string)
    requires Inv(s) && Can(s, i, Rename) && target != s.jobs[i].tmp
    ensures TargetKept(s, Do(s, i, Rename), target)
  {
    hide Inv, StampOf, TargetName, Can, Do, JobSound;
    InvHasPast(s);
    RenameEffect(s, i);
    var s', own := Do(s, i, Rename), TargetName(s.prefix, s.jobs[i].stamp);
    forall j: nat | j < |s'.disk.past| && TakenAs(s.disk.files, s.disk.past[Place(s, j)], target, s.taken)
      ensures TakenAs(s'.disk.files, s'.disk.past[j], target, s'.taken)
    {
      assert j < |s.disk.past| ==> s'.disk.past[j] == s.disk.past[j];
    }
  }

  lemma InvHasPast(s: System)
    requires Inv(s)
    ensures s.disk.past != []
  {
  }

  /** The rename adds a directory in which the target leads to the job's finished file. */
  lemma RenameEffect(s: System, i: nat)
    requires Inv(s) && Can(s, i, Rename)
    ensures i < |s.jobs|
    ensures var s', own := Do(s, i, Rename), TargetName(s.prefix, s.jobs[i].stamp);
      && s'.taken == s.taken && s'.disk.files == s.disk.files
      && |s'.disk.past| == |s.disk.past| + 1 && s'.disk.past[..|s.disk.past|] == s.disk.past
      && TakenAs(s'.disk.files, Now(s'.disk), own, s'.taken)
      && (forall n | n in Now(s.disk) && n != own && n != s.jobs[i].tmp ::
            n in Now(s'.disk) && Now(s'.disk)[n] == Now(s.disk)[n])
  {
    assert JobSound(s, i);
    hide Inv, StampOf, TargetName, IsTempName, Named;
  }

  lemma RenamePrivate(s: System, i: nat, k: nat)
    requires Inv(s) && Can(s, i, Rename) && k < |s.jobs|
    ensures Private(Do(s, i, Rename), k)
  {
    hide Inv, StampOf, TargetName, Can, Do, JobSound, Named;
    JobFacts(s, k);
    RenameNames(s, i);
    var s' := Do(s, i, Rename);
    if k != i && OwnsTemp(s.jobs[k]) {
      TempsDiffer(s, i, k);
      forall j, n | 0 <= j < |s'.disk.past| && n in s'.disk.past[j] && StampOf(s.prefix, n).Some?
        ensures s'.disk.past[j][n] != s.jobs[k].ino
      {
        var older := Place(s, j);
        assert n in s.disk.past[older] ==> s.disk.past[older][n] != s.jobs[k].ino;
      }
    }
  }

  /** Every name after the rename leads where it did, or to the renamed file. */
  lemma RenameNames(s: System, i: nat)
    requires Inv(s) && Can(s, i, Rename)
    ensures i < |s.jobs| && OwnsTemp(s.jobs[i])
    ensures var s' := Do(s, i, Rename);
      && s'.prefix == s.prefix && |s'.jobs| == |s.jobs| && !OwnsTemp(s'.jobs[i])
      && (forall k | 0 <= k < |s.jobs| && k != i :: s'.jobs[k] == s.jobs[k])
      && s'.disk.past != []
      && (forall j: nat, n | j < |s'.disk.past| && n in s'.disk.past[j] ::
            || s'.disk.past[j][n] == s.jobs[i].ino
            || (n in s.disk.past[Place(s, j)] && s'.disk.past[j][n] == s.disk.past[Place(s, j)][n]))
  {
    assert JobSound(s, i);
    assert OwnsTemp(s.jobs[i]) && Now(s.disk)[s.jobs[i].tmp] == s.jobs[i].ino;
    hide Inv, JobSound, StampOf, TargetName, IsTempName, Named;
  }

  lemma TargetIsNoTemp(s: System, k: nat, t: string)
    requires Inv(s) && k < |s.jobs| && IsTempName(t)
    ensures TargetName(s.prefix, s.jobs[k].stamp) != t
  {
    JobFacts(s, k);
    TempHasNoStamp(s.prefix, t);
    hide Inv, JobSound, Private, Named, StampOf, TargetName;
  }

  lemma UnlinkKeeps(s: System, i: nat)
    requires Inv(s) && Can(s, i, Unlink) && Harmless(s, i, Unlink)
    ensures Inv(Do(s, i, Unlink))
  {
    hide StampOf, TargetName, IsTempName, TakenSound, Serialised, IsOrderOf;
    var s' := Do(s, i, Unlink);
    assert DirSound(s.prefix, s.disk.files, Now(s.disk), Known(s));
    forall j | 0 <= j < |s'.disk.past| ensures DirSound(s.prefix, s'.disk.files, s'.disk.past[j], Known(s')) {
      assert j < |s.disk.past| ==> DirSound(s.prefix, s.disk.files, s.disk.past[j], Known(s));
    }
    forall k: nat | k < |s'.jobs| ensures JobSound(s', k) && Private(s', k) {
      UnlinkJob(s, i, k);
      UnlinkPrivate(s, i, k);
    }
  }

  lemma UnlinkJob(s: System, i: nat, k: nat)
    requires Inv(s) && Can(s, i, Unlink) && Harmless(s, i, Unlink) && k < |s.jobs|
    ensures JobSound(Do(s, i, Unlink), k)
  {
    if k == i {
      UnlinkerJob(s, i);
    } else {
      hide *;
      JobFacts(s, k);
      OthersStay(s, i, Unlink, k);
      UnlinkAside(s, i, k);
      UnlinkTargetKept(s, i, TargetName(s.prefix, s.jobs[k].stamp));
      NamedKept(s, Do(s, i, Unlink), s.jobs[k].pc, TargetName(s.prefix, s.jobs[k].stamp));
      JobStays(s, Do(s, i, Unlink), k);
    }
  }

  lemma UnlinkerJob(s: System, i: nat)
    requires Inv(s) && Can(s, i, Unlink)
    ensures JobSound(Do(s, i, Unlink), i)
  {
    assert JobSound(s, i);
    hide Inv, StampOf, TargetName, IsTempName, TakenAs;
  }

  lemma UnlinkAside(s: System, i: nat, k: nat)
    requires Inv(s) && Can(s, i, Unlink) && Harmless(s, i, Unlink) && k < |s.jobs| && k != i
    ensures TargetName(s.prefix, s.jobs[k].stamp) != s.jobs[i].tmp
    ensures var s' := Do(s, i, Unlink);
      OwnsTemp(s.jobs[k]) ==>
        InPlace(s, s.jobs[k]) && InPlace(s', s.jobs[k]) &&
        s'.disk.files[s.jobs[k].ino] == s.disk.files[s.jobs[k].ino]
  {
    hide *;
    JobFacts(s, k);
    AtUnlink(s, i, k);
    JobFacts(s, i);
    TargetIsNoTemp(s, k, s.jobs[i].tmp);
    if OwnsTemp(s.jobs[k]) {
      UnlinkLeaves(s, i, s.jobs[k]);
    }
  }

  lemma AtUnlink(s: System, i: nat, k: nat)
    requires s.disk.past != [] && Can(s, i, Unlink) && Harmless(s, i, Unlink) && k < |s.jobs| && k != i
    ensures i < |s.jobs| && HoldsTemp(s.jobs[i])
    ensures OwnsTemp(s.jobs[k]) ==> s.jobs[k].tmp != s.jobs[i].tmp
  {
  }

  lemma UnlinkLeaves(s: System, i: nat, job: Job)
    requires s.disk.past != [] && Can(s, i, Unlink) && InPlace(s, job) && job.tmp != s.jobs[i].tmp
    ensures InPlace(Do(s, i, Unlink), job) && Do(s, i, Unlink).disk.files[job.ino] == s.disk.files[job.ino]
  {
  }

  lemma UnlinkTargetKept(s: System, i: nat, target: string)
    requires s.disk.past != [] && Can(s, i, Unlink) && target != s.jobs[i].tmp
    ensures TargetKept(s, Do(s, i, Unlink), target)
  {
  }

  lemma UnlinkPrivate(s: System, i: nat, k: nat)
    requires Inv(s) && Can(s, i, Unlink) && k < |s.jobs|
    ensures Private(Do(s, i, Unlink), k)
  {
    assert Private(s, k);
    UnlinkEffect(s, i);
    hide Inv, StampOf, Can, Do;
    var s' := Do(s, i, Unlink);
    if OwnsTemp(s'.jobs[k]) {
      forall j, n | 0 <= j < |s'.disk.past| && n in s'.disk.past[j] && StampOf(s.prefix, n).Some?
        ensures s'.disk.past[j][n] != s.jobs[k].ino
      {
        assert n in s.disk.past[Place(s, j)] && s.disk.past[Place(s, j)][n] == s'.disk.past[j][n];
      }
    }
  }

  lemma UnlinkEffect(s: System, i: nat)
    requires s.disk.past != [] && Can(s, i, Unlink)
    ensures var s' := Do(s, i, Unlink);
      && s'.prefix == s.prefix && |s'.jobs| == |s.jobs| && !OwnsTemp(s'.jobs[i])
      && (forall k | 0 <= k < |s.jobs| && k != i :: s'.jobs[k] == s.jobs[k])
      && s'.disk.past != []
      && (forall j: nat, n | j < |s'.disk.past| && n in s'.disk.past[j] ::
            n in s.disk.past[Place(s, j)] && s'.disk.past[j][n] == s.disk.past[Place(s, j)][n])
  {
  }

  lemma QuietKeeps(s: System, i: nat, c: Call)
    requires Inv(s) && Can(s, i, c)
    requires c.CloseFile? || c.OpenDir? || c.FsyncDir? || c.CloseDir? || c.Fail? || c.UnlinkFails?
    ensures Inv(Do(s, i, c))
  {
    hide StampOf, TargetName, IsTempName, TakenSound, Serialised, IsOrderOf;
    var s' := Do(s, i, c);
    forall k: nat | k < |s'.jobs| ensures JobSound(s', k) && Private(s', k) {
      assert JobSound(s, k) && Private(s, k);
    }
  }

  /** No step of any job takes a snapshot's name out of the directory, harmless or not. */
  lemma SnapshotNamesStay(s: System, i: nat, c: Call, n: string)
    requires Inv(s) && Can(s, i, c) && StampOf(s.prefix, n).Some?
    requires forall j | 0 <= j < |s.disk.past| :: n in s.disk.past[j]
    ensures var s' := Do(s, i, c);
      s'.prefix == s.prefix && forall j | 0 <= j < |s'.disk.past| :: n in s'.disk.past[j]
  {
    if c.Rename? || c.Unlink? {
      assert JobSound(s, i);
      TempHasNoStamp(s.prefix, s.jobs[i].tmp);
    }
    hide StampOf, TargetName, IsTempName, TakenSound, Serialised, IsOrderOf, JobSound, Private, DirSound;
  }

  // ---- Runs, crashes and restores ----

  /** The snapshots a directory holds, by name. */
  function Held(prefix: string, files: map<nat, File>, dir: Dir): set<(string, string)> {
    set n | n in dir && dir[n] in files && StampOf(prefix, n).Some? :: (n, files[dir[n]].bytes)
  }

  /** A process that starts on a disk left behind by earlier ones. */
  ghost predicate IsStart(s: System) {
    && |s.disk.past| == 1 && s.jobs == [] && s.taken == {}
    && s.found == Held(s.prefix, s.disk.files, s.disk.past[0])
    && TakenSound(s.found)
    && DirSound(s.prefix, s.disk.files, s.disk.past[0], s.found)
  }

  ghost predicate Next(s: System, s': System) {
    s.disk.past != [] && exists i, c :: Can(s, i, c) && Harmless(s, i, c) && s' == Do(s, i, c)
  }

  ghost predicate IsRun(run: seq<System>) {
    run != [] && IsStart(run[0]) && forall j | 0 <= j < |run| - 1 :: Next(run[j], run[j + 1])
  }

  /** A call of job `job`; a `Begin` is the server's own and starts a new job. */
  datatype Step = Step(job: nat, call: Call)

  ghost predicate Takes(s: System, step: Step, s': System) {
    s.disk.past != [] && Can(s, step.job, step.call) && Harmless(s, step.job, step.call) &&
    s' == Do(s, step.job, step.call)
  }

  /** The run together with the calls made in it. */
  ghost predicate IsTrace(run: seq<System>, calls: seq<Step>) {
    && |run| == |calls| + 1 && IsStart(run[0])
    && forall j | 0 <= j < |calls| :: Takes(run[j], calls[j], run[j + 1])
  }

  lemma TraceIsRun(run: seq<System>, calls: seq<Step>)
    requires IsTrace(run, calls)
    ensures IsRun(run)
  {
    hide Can, Do, Harmless;
    forall j | 0 <= j < |run| - 1 ensures Next(run[j], run[j + 1]) {
      assert Takes(run[j], calls[j], run[j + 1]);
    }
  }

  /** The call that leads to the `k`-th state. */
  lemma StepTo(run: seq<System>, k: nat) returns (i: nat, c: Call)
    requires IsRun(run) && 0 < k < |run|
    ensures run[k - 1].disk.past != [] && Can(run[k - 1], i, c) && Harmless(run[k - 1], i, c)
    ensures run[k] == Do(run[k - 1], i, c)
  {
    hide Can, Do, Harmless, IsStart;
    assert Next(run[k - 1], run[k - 1 + 1]);
    i, c :| Can(run[k - 1], i, c) && Harmless(run[k - 1], i, c) && run[k] == Do(run[k - 1], i, c);
  }

  lemma {:induction false} RunInv(run: seq<System>, k: nat)
    requires IsRun(run) && k < |run|
    ensures Inv(run[k])
  {
    if k > 0 {
      RunInv(run, k - 1);
      var i, c := StepTo(run, k);
      hide Inv, Do, Can, Harmless, IsRun;
      DoKeeps(run[k - 1], i, c);
    } else {
      StartInv(run[0]);
    }
  }

  lemma StartInv(s: System)
    requires IsStart(s)
    ensures Inv(s)
  {
    hide StampOf, IsTextOf, Held;
    assert Known(s) == s.found;
  }

  lemma StartFacts(run: seq<System>)
    requires IsRun(run)
    ensures run != [] && |run[0].disk.past| == 1
  {
    hide Next, StampOf;
  }

  /** A snapshot's name in the directory at the start is there at every later moment. */
  lemma {:induction false} StartNamesStay(run: seq<System>, k: nat, n: string)
    requires IsRun(run) && k < |run| && StampOf(run[0].prefix, n).Some? && n in run[0].disk.past[0]
    ensures run[k].prefix == run[0].prefix
    ensures forall j | 0 <= j < |run[k].disk.past| :: n in run[k].disk.past[j]
  {
    hide *;
    StartFacts(run);
    if k > 0 {
      RunInv(run, k - 1);
      StartNamesStay(run, k - 1, n);
      var i, c := StepTo(run, k);
      SnapshotNamesStay(run[k - 1], i, c, n);
    }
  }

  // ---- Which store a snapshot holds, by the calls made ----

  /** Beginning a snapshot adds a job whose text restores, into an empty store, exactly
      the store handed over; nothing is on disk yet. */
  lemma BeginTakesTheStore(s: System, i: nat, stamp: int, data: Data, pairs: Pairs)
    requires s.disk.past != [] && Can(s, i, Begin(stamp, data, pairs))
    ensures var s' := Do(s, i, Begin(stamp, data, pairs));
      && s'.disk == s.disk && |s'.jobs| == |s.jobs| + 1 && s'.jobs[..|s.jobs|] == s.jobs
      && var job := s'.jobs[|s.jobs|];
      && job.stamp == stamp && job.pc == Creating
      && Deserialised(job.bytes, map[]) == (data, true)
  {
    hide Deserialised, TargetName;
    RestoreIsExact(data, pairs);
  }

  /** Among the first `k` calls is one that began a snapshot to be named `name`, of the very
      store that `text` restores to. */
  ghost predicate Begun(prefix: string, calls: seq<Step>, k: nat, name: string, text: string)
    requires k <= |calls|
  {
    exists j :: 0 <= j < k && BegunBy(prefix, calls[j].call, name, text)
  }

  ghost predicate BegunBy(prefix: string, c: Call, name: string, text: string) {
    c.Begin? && name == TargetName(prefix, c.stamp) && IsInt64(c.stamp) &&
    Deserialised(text, map[]) == (c.data, true)
  }

  lemma {:induction false} TakenFromCalls(run: seq<System>, calls: seq<Step>, k: nat)
    requires IsTrace(run, calls) && k < |run|
    ensures run[k].prefix == run[0].prefix && run[k].found == run[0].found
    ensures forall x | x in run[k].taken :: Begun(run[0].prefix, calls, k, x.0, x.1)
  {
    if k > 0 {
      hide *;
      TraceStep(run, calls, k);
      TakenFromCalls(run, calls, k - 1);
      TakesKeeps(run[k - 1], calls[k - 1], run[k]);
      forall x | x in run[k].taken ensures Begun(run[0].prefix, calls, k, x.0, x.1) {
        if x in run[k - 1].taken {
          BegunEarlier(run[0].prefix, calls, k, x);
        } else {
          NewlyTaken(run[k - 1], calls[k - 1], run[k], x);
          BegunNow(run[0].prefix, calls, k, x);
        }
      }
    }
  }

  lemma TraceStep(run: seq<System>, calls: seq<Step>, k: nat)
    requires IsTrace(run, calls) && 0 < k < |run|
    ensures |run| == |calls| + 1 && Takes(run[k - 1], calls[k - 1], run[k])
  {
    hide Takes, IsStart;
    assert Takes(run[k - 1], calls[k - 1], run[k - 1 + 1]);
  }

  lemma BegunEarlier(prefix: string, calls: seq<Step>, k: nat, x: (string, string))
    requires 0 < k <= |calls| && Begun(prefix, calls, k - 1, x.0, x.1)
    ensures Begun(prefix, calls, k, x.0, x.1)
  {
    hide BegunBy;
  }

  lemma BegunNow(prefix: string, calls: seq<Step>, k: nat, x: (string, string))
    requires 0 < k <= |calls| && BegunBy(prefix, calls[k - 1].call, x.0, x.1)
    ensures Begun(prefix, calls, k, x.0, x.1)
  {
    hide BegunBy;
  }

  lemma TakesKeeps(s: System, step: Step, s': System)
    requires Takes(s, step, s')
    ensures s'.prefix == s.prefix && s'.found == s.found
  {
    hide TargetName, Serialised, IsOrderOf, IsTempName, Harmless;
  }

  lemma NewlyTaken(s: System, step: Step, s': System, x: (string, string))
    requires Takes(s, step, s') && x in s'.taken && x !in s.taken
    ensures BegunBy(s.prefix, step.call, x.0, x.1)
  {
    hide TargetName, Deserialised, Serialised, IsTempName, Harmless;
    assert step.call.Begin?;
    RestoreIsExact(step.call.data, step.call.pairs);
  }

  // ---- A crash ----

  /** A disk that a crash of `d` may leave: each name as it was at some moment since the
      last directory sync, each file whole if it was synced and anything otherwise. */
  ghost predicate MayLeave(d: Disk, dir: Dir, content: map<nat, string>) {
    && (forall n | n in dir :: exists j :: 0 <= j < |d.past| && n in d.past[j] && d.past[j][n] == dir[n])
    && (forall n: string | n !in dir :: exists j :: 0 <= j < |d.past| && n !in d.past[j])
    && (forall n | n in dir :: dir[n] in content &&
          (dir[n] in d.files && d.files[dir[n]].synced ==> content[dir[n]] == d.files[dir[n]].bytes))
  }

  /** After a crash, everything named as a snapshot is one, whole. */
  lemma CrashedSnapshotsAreWhole(s: System, dir: Dir, content: map<nat, string>, n: string)
    requires Inv(s) && MayLeave(s.disk, dir, content)
    requires n in dir && StampOf(s.prefix, n).Some?
    ensures (n, content[dir[n]]) in Known(s)
  {
    hide StampOf;
    var j :| 0 <= j < |s.disk.past| && n in s.disk.past[j] && s.disk.past[j][n] == dir[n];
    assert DirSound(s.prefix, s.disk.files, s.disk.past[j], Known(s));
  }

  /** A snapshot whose write has returned survives under its own name, and what is there
      was taken under that name since the start. */
  lemma ReturnedSurvives(s: System, dir: Dir, content: map<nat, string>, i: nat)
    requires Inv(s) && MayLeave(s.disk, dir, content)
    requires i < |s.jobs| && s.jobs[i].pc.Returned?
    ensures var target := TargetName(s.prefix, s.jobs[i].stamp);
      && target in dir && (target, content[dir[target]]) in s.taken
      && StampOf(s.prefix, target) == Some(s.jobs[i].stamp)
  {
    assert JobSound(s, i);
    var target := TargetName(s.prefix, s.jobs[i].stamp);
    TargetHasStamp(s.prefix, s.jobs[i].stamp);
    hide StampOf, TargetName, JobSound, Private, TakenSound;
    assert target in dir;
    var j :| 0 <= j < |s.disk.past| && target in s.disk.past[j] && s.disk.past[j][target] == dir[target];
    assert TakenAs(s.disk.files, s.disk.past[j], target, s.taken);
    assert DirSound(s.prefix, s.disk.files, s.disk.past[j], Known(s));
  }

  /** Crash at any step of any run, with any number of snapshots under way. Whatever file
      `LatestSnapshot` then picks either restores, into an empty store, exactly the store
      that some snapshot with its timestamp was begun of in this run, or holds what it held
      at the start. It is at least as new as every snapshot whose write had returned and
      every one found at the start, and if none is picked there were none. Under the name of
      a returned snapshot is a store begun under that name in this run. */
  lemma CrashIsSafe(run: seq<System>, calls: seq<Step>, k: nat, dir: Dir, content: map<nat, string>,
                    names: seq<string>, best: Option<string>)
    requires IsTrace(run, calls) && k < |run| && MayLeave(run[k].disk, dir, content)
    requires forall n :: n in names <==> n in dir
    requires best.None? <==>
      forall n | n in names :: StampOf(run[k].prefix, n).None? || StampOf(run[k].prefix, n).value < 0
    requires best.Some? ==> IsLatest(run[k].prefix, names, best.value)
    ensures run[k].prefix == run[0].prefix
    ensures forall i | 0 <= i < |run[k].jobs| && run[k].jobs[i].pc.Returned? ::
      SurvivesAsBegun(run[0].prefix, calls, k, dir, content, run[k].jobs[i].stamp)
    ensures best.None? ==>
      && (forall i | 0 <= i < |run[k].jobs| :: !run[k].jobs[i].pc.Returned?)
      && (forall m | m in run[0].disk.past[0] && StampOf(run[0].prefix, m).Some? ::
            StampOf(run[0].prefix, m).value < 0)
    ensures best.Some? ==>
      && best.value in dir && StampOf(run[0].prefix, best.value).Some?
      && var n, stamp := best.value, StampOf(run[0].prefix, best.value).value;
      && (Begun(run[0].prefix, calls, k, n, content[dir[n]]) || HeldAtStart(run[0], n, content[dir[n]]))
      && (forall i | 0 <= i < |run[k].jobs| && run[k].jobs[i].pc.Returned? :: run[k].jobs[i].stamp <= stamp)
      && (forall m | m in run[0].disk.past[0] && StampOf(run[0].prefix, m).Some? ::
            StampOf(run[0].prefix, m).value <= stamp)
  {
    var s := run[k];
    TraceIsRun(run, calls);
    RunInv(run, k);
    TakenFromCalls(run, calls, k);
    hide StampOf, TargetName, IsTrace, IsRun, Inv, MayLeave, Begun, HeldAtStart;
    forall i: nat | i < |s.jobs| && s.jobs[i].pc.Returned?
      ensures SurvivesAsBegun(run[0].prefix, calls, k, dir, content, s.jobs[i].stamp)
      ensures best.Some? && s.jobs[i].stamp <= StampOf(s.prefix, best.value).value
    {
      ReturnedSurvives(s, dir, content, i);
      assert TargetName(s.prefix, s.jobs[i].stamp) in names;
      JobStamp(s, i);
    }
    forall m | m in run[0].disk.past[0] && StampOf(run[0].prefix, m).Some? ensures m in names {
      StillThere(run, k, dir, content, m);
    }
    if best.Some? {
      CrashedSnapshotsAreWhole(s, dir, content, best.value);
      if (best.value, content[dir[best.value]]) in s.found {
        FoundIsHeld(run, best.value, content[dir[best.value]]);
      }
    }
  }

  /** The name of the snapshot with this timestamp is there, with a store begun for it. */
  ghost predicate SurvivesAsBegun(prefix: string, calls: seq<Step>, k: nat, dir: Dir, content: map<nat, string>,
                                  stamp: int)
    requires k <= |calls|
  {
    var name := TargetName(prefix, stamp);
    name in dir && dir[name] in content && Begun(prefix, calls, k, name, content[dir[name]])
  }

  /** The name held that text when the process started, and it restores whole. */
  ghost predicate HeldAtStart(s: System, name: string, text: string)
    requires s.disk.past != []
  {
    && name in s.disk.past[0] && s.disk.past[0][name] in s.disk.files
    && s.disk.files[s.disk.past[0][name]].bytes == text
    && exists data :: Deserialised(text, map[]) == (data, true)
  }

  lemma JobStamp(s: System, i: nat)
    requires Inv(s) && i < |s.jobs|
    ensures 0 <= s.jobs[i].stamp && IsInt64(s.jobs[i].stamp)
  {
    assert JobSound(s, i);
  }

  lemma StillThere(run: seq<System>, k: nat, dir: Dir, content: map<nat, string>, m: string)
    requires IsRun(run) && k < |run| && MayLeave(run[k].disk, dir, content)
    requires m in run[0].disk.past[0] && StampOf(run[0].prefix, m).Some?
    ensures m in dir
  {
    StartNamesStay(run, k, m);
    hide StampOf, IsRun;
  }

  lemma FoundIsHeld(run: seq<System>, n: string, text: string)
    requires IsRun(run) && (n, text) in run[0].found
    ensures HeldAtStart(run[0], n, text)
  {
    hide StampOf, Deserialised, Next;
    var data :| IsTextOf((n, text).1, data);
    var pairs :| IsOrderOf(pairs, data) && text == Serialised(pairs);
    RestoreIsExact(data, pairs);
  }

  // ---- Any number of crashes ----

  /** A process from its start to the crash that ends it. */
  datatype Life = Life(run: seq<System>, calls: seq<Step>, dir: Dir, content: map<nat, string>)

  ghost predicate IsLife(life: Life) {
    IsTrace(life.run, life.calls) && MayLeave(Last(life).disk, life.dir, life.content)
  }

  function Last(life: Life): System
    requires life.run != []
  {
    life.run[|life.run| - 1]
  }

  /** The next process finds what the crash left. */
  function After(life: Life): System
    requires life.run != []
  {
    var files := map ino | ino in life.content :: File(life.content[ino], true);
    System(Last(life).prefix, Disk(files, [life.dir]), [], Held(Last(life).prefix, files, life.dir), {})
  }

  ghost predicate IsHistory(lives: seq<Life>) {
    && (forall j | 0 <= j < |lives| :: IsLife(lives[j]))
    && (forall j | 0 <= j < |lives| - 1 :: lives[j + 1].run[0] == After(lives[j]))
  }

  /** The disk left by a crash is again a good place to start. */
  lemma CrashThenStart(life: Life)
    requires IsLife(life)
    ensures IsStart(After(life))
  {
    var s := Last(life);
    TraceIsRun(life.run, life.calls);
    RunInv(life.run, |life.run| - 1);
    hide StampOf, IsTextOf, IsTrace, IsRun;
    forall n | n in life.dir && StampOf(s.prefix, n).Some?
      ensures (n, life.content[life.dir[n]]) in Known(s)
    {
      CrashedSnapshotsAreWhole(s, life.dir, life.content, n);
    }
    hide MayLeave;
    forall x | x in After(life).found ensures x in Known(s) {
    }
  }

  /** What a snapshot's name holds after a crash was begun in that life or was found
      under that name when it started. */
  lemma AfterALife(life: Life, n: string)
    requires IsLife(life) && n in life.dir && StampOf(life.run[0].prefix, n).Some?
    ensures Last(life).prefix == life.run[0].prefix && life.dir[n] in life.content
    ensures var text := life.content[life.dir[n]];
      || Begun(life.run[0].prefix, life.calls, |life.calls|, n, text)
      || HeldAtStart(life.run[0], n, text)
  {
    var s := Last(life);
    TraceIsRun(life.run, life.calls);
    RunInv(life.run, |life.run| - 1);
    TakenFromCalls(life.run, life.calls, |life.calls|);
    CrashedSnapshotsAreWhole(s, life.dir, life.content, n);
    hide StampOf, IsRun, IsTrace, Begun, HeldAtStart, Inv;
    if (n, life.content[life.dir[n]]) in s.found {
      FoundIsHeld(life.run, n, life.content[life.dir[n]]);
    }
  }

  /** A snapshot's name on disk when a process starts is there after every later crash. */
  lemma {:induction false} NameOutlivesCrashes(lives: seq<Life>, a: nat, b: nat, n: string)
    requires IsHistory(lives) && a <= b < |lives|
    requires n in lives[a].run[0].disk.past[0] && StampOf(lives[a].run[0].prefix, n).Some?
    ensures n in lives[b].dir && n in lives[b].run[0].disk.past[0]
    ensures Last(lives[b]).prefix == lives[a].run[0].prefix == lives[b].run[0].prefix
  {
    hide StampOf, Takes, IsStart, Held;
    TraceIsRun(lives[b].run, lives[b].calls);
    if a < b {
      NameOutlivesCrashes(lives, a, b - 1, n);
      assert lives[b - 1 + 1].run[0] == After(lives[b - 1]);
    }
    StartNamesStay(lives[b].run, |lives[b].run| - 1, n);
  }

  lemma {:induction false} SamePrefix(lives: seq<Life>, a: nat, b: nat)
    requires IsHistory(lives) && a <= b < |lives|
    ensures lives[a].run[0].prefix == lives[b].run[0].prefix == Last(lives[b]).prefix
  {
    hide StampOf, Takes, IsStart, Held;
    TakenFromCalls(lives[b].run, lives[b].calls, |lives[b].calls|);
    if a < b {
      SamePrefix(lives, a, b - 1);
      assert lives[b - 1 + 1].run[0] == After(lives[b - 1]);
    }
  }

  lemma Started(lives: seq<Life>)
    requires IsHistory(lives)
    ensures forall j | 0 <= j < |lives| ::
      IsLife(lives[j]) && lives[j].run != [] && lives[j].run[0].disk.past != []
  {
    hide StampOf, Takes, DirSound, TakenSound, Held, MayLeave;
    forall j | 0 <= j < |lives| ensures lives[j].run != [] && lives[j].run[0].disk.past != [] {
      assert IsLife(lives[j]);
    }
  }

  /** The text was begun under that name in life `c`. */
  ghost predicate BegunIn(lives: seq<Life>, c: nat, name: string, text: string)
    requires c < |lives| && lives[c].run != []
  {
    Begun(lives[c].run[0].prefix, lives[c].calls, |lives[c].calls|, name, text)
  }

  /** From a life on in which a name's text was begun, what the name holds after every later
      crash was begun under that name in that life or a later one. */
  lemma {:induction false} HeldSince(lives: seq<Life>, a: nat, b: nat, n: string) returns (c: nat)
    requires IsHistory(lives) && a <= b < |lives|
    requires StampOf(lives[a].run[0].prefix, n).Some?
    requires n in lives[a].dir && lives[a].dir[n] in lives[a].content
    requires BegunIn(lives, a, n, lives[a].content[lives[a].dir[n]])
    ensures n in lives[b].dir && lives[b].dir[n] in lives[b].content
    ensures a <= c <= b && BegunIn(lives, c, n, lives[b].content[lives[b].dir[n]])
  {
    hide *;
    Started(lives);
    if a == b {
      c := a;
    } else {
      c := HeldSince(lives, a, b - 1, n);
      SamePrefix(lives, a, b - 1);
      OneLifeMore(lives, b, n);
      if BegunIn(lives, b, n, lives[b].content[lives[b].dir[n]]) {
        c := b;
      }
    }
  }

  lemma OneLifeMore(lives: seq<Life>, b: nat, n: string)
    requires IsHistory(lives) && 0 < b < |lives|
    requires StampOf(lives[b - 1].run[0].prefix, n).Some? && n in lives[b - 1].dir
    ensures lives[b - 1].dir[n] in lives[b - 1].content
    ensures n in lives[b].dir && lives[b].dir[n] in lives[b].content
    ensures var text := lives[b].content[lives[b].dir[n]];
      BegunIn(lives, b, n, text) || text == lives[b - 1].content[lives[b - 1].dir[n]]
  {
    SamePrefix(lives, b - 1, b);
    assert lives[b - 1 + 1].run[0] == After(lives[b - 1]);
    hide StampOf, IsStart, Takes, Held, Begun, Deserialised;
    NameOutlivesCrashes(lives, b, b, n);
    AfterALife(lives[b], n);
  }

  /** Over any number of crashes and restarts: a snapshot whose write returned in life `a` is
      still there under its name after every later crash, holding a store begun under that
      name in that life or a later one. Whatever file is then the newest is at least as new,
      and restores a store begun under its name in some life, or holds what it held before
      the first. */
  lemma NoReturnedSnapshotIsLost(lives: seq<Life>, a: nat, b: nat, i: nat, names: seq<string>, best: string)
    returns (own: nat, newest: nat)
    requires IsHistory(lives) && a <= b < |lives|
    requires i < |Last(lives[a]).jobs| && Last(lives[a]).jobs[i].pc.Returned?
    requires forall n :: n in names <==> n in lives[b].dir
    requires IsLatest(Last(lives[b]).prefix, names, best)
    ensures var prefix, stamp := Last(lives[b]).prefix, Last(lives[a]).jobs[i].stamp;
      var target := TargetName(prefix, stamp);
      && target in lives[b].dir && lives[b].dir[target] in lives[b].content
      && a <= own <= b && BegunIn(lives, own, target, lives[b].content[lives[b].dir[target]])
      && stamp <= StampOf(prefix, best).value
    ensures best in lives[b].dir && lives[b].dir[best] in lives[b].content && newest <= b
    ensures var text := lives[b].content[lives[b].dir[best]];
      BegunIn(lives, newest, best, text) || HeldAtStart(lives[0].run[0], best, text)
  {
    var earlier := Last(lives[a]);
    var target := TargetName(earlier.prefix, earlier.jobs[i].stamp);
    SamePrefix(lives, a, a);
    SamePrefix(lives, a, b);
    ReturnedWasBegun(lives[a], i);
    hide StampOf, TargetName, IsHistory, IsLife, HeldAtStart, Begun;
    own := HeldSince(lives, a, b, target);
    assert target in names;
    newest := Origin(lives, b, best);
  }

  lemma ReturnedWasBegun(life: Life, i: nat)
    requires IsLife(life) && i < |Last(life).jobs| && Last(life).jobs[i].pc.Returned?
    ensures var target := TargetName(Last(life).prefix, Last(life).jobs[i].stamp);
      && target in life.dir && life.dir[target] in life.content
      && StampOf(Last(life).prefix, target) == Some(Last(life).jobs[i].stamp)
      && Begun(life.run[0].prefix, life.calls, |life.calls|, target, life.content[life.dir[target]])
  {
    hide IsRun, Inv, IsStart, Takes, TargetName, StampOf, Begun;
    TraceIsRun(life.run, life.calls);
    RunInv(life.run, |life.run| - 1);
    TakenFromCalls(life.run, life.calls, |life.calls|);
    ReturnedSurvives(Last(life), life.dir, life.content, i);
  }

  /** Where the text under a snapshot's name comes from. */
  lemma {:induction false} Origin(lives: seq<Life>, b: nat, n: string) returns (c: nat)
    requires IsHistory(lives) && b < |lives| && n in lives[b].dir
    requires StampOf(lives[b].run[0].prefix, n).Some?
    ensures c <= b && lives[b].dir[n] in lives[b].content
    ensures var text := lives[b].content[lives[b].dir[n]];
      BegunIn(lives, c, n, text) || HeldAtStart(lives[0].run[0], n, text)
  {
    hide *;
    Started(lives);
    AfterALife(lives[b], n);
    NamedIn(lives, b, n, lives[b].content[lives[b].dir[n]]);
    c := b;
    if b > 0 && !BegunIn(lives, b, n, lives[b].content[lives[b].dir[n]]) {
      SamePrefix(lives, b - 1, b);
      HeldFromBefore(lives, b, n, lives[b].content[lives[b].dir[n]]);
      c := Origin(lives, b - 1, n);
    }
  }

  lemma NamedIn(lives: seq<Life>, c: nat, name: string, text: string)
    requires c < |lives| && lives[c].run != []
    ensures BegunIn(lives, c, name, text)
      <==> Begun(lives[c].run[0].prefix, lives[c].calls, |lives[c].calls|, name, text)
  {
  }

  lemma HeldFromBefore(lives: seq<Life>, b: nat, n: string, text: string)
    requires IsHistory(lives) && 0 < b < |lives| && lives[b].run != [] && lives[b].run[0].disk.past != []
    requires HeldAtStart(lives[b].run[0], n, text)
    ensures n in lives[b - 1].dir && lives[b - 1].dir[n] in lives[b - 1].content
    ensures lives[b - 1].content[lives[b - 1].dir[n]] == text
  {
    hide StampOf, Takes, IsStart, Held, Deserialised, MayLeave;
    assert lives[b - 1 + 1].run[0] == After(lives[b - 1]);
  }

  /** `Restore`: load the newest snapshot, if there is one. `entries` is the directory in
      the order it is listed, `opens` whether the file picked can be opened. */
  method Restore(store: Store, prefix: string, entries: seq<Listed>, dir: Dir, content: map<nat, string>,
                 opens: bool)
    returns (ok: bool)
    requires forall n :: n in Regular(entries) <==> n in dir
    requires forall n | n in dir :: dir[n] in content
    modifies store
    ensures (forall n | n in dir :: StampOf(prefix, n).None? || StampOf(prefix, n).value < 0) ==>
      ok && store.data == old(store.data)
    ensures (exists n :: n in dir && StampOf(prefix, n).Some? && StampOf(prefix, n).value >= 0) ==>
      if opens then
        exists n :: IsLatest(prefix, Regular(entries), n) &&
          (store.data, ok) == Deserialised(content[dir[n]], old(store.data))
      else !ok && store.data == old(store.data)
  {
    var path := LatestSnapshot(prefix, entries);
    if path.None? {
      return true;
    }
    if !opens {
      return false;
    }
    ok := DeserialiseFromJson(store, content[dir[path.value]]);
  }
}
