/**
 Upload sessions under any interleaving of requests and of the stale-upload cleaner: starting a session
 (count and create under one mutex), chunks, commits, deletes and cleanup, all under the lock of the upload
 (internal/httpserver/server.go:374-560, internal/storage/filesystem.go:482-667).
 */
module UploadSessions {
  import opened Wrappers
  import opened UploadAppend
  import L = UploadLocks

  datatype Config = Config(maxSessions: nat, maxBytes: nat, matches: (string, Bytes) -> bool)

  datatype Request =
    | Start(path: string, whole: Option<(Bytes, string)>)
    | Chunk(path: string, range: string, body: Bytes, digest: Option<string>)
    | Delete(path: string)
    | Clean(path: string, cutoff: int)

  /** How far the holder of an upload's lock has come. */
  datatype Job =
    | Begun
    | Counting
    | MayCreate(counted: nat)
    | Sized(size: nat)
    | Complete
    | Broken
    | Expired
    | Finished

  datatype File = File(content: Bytes, modified: int)

  datatype State = State(
    locks: L.Locks,
    requests: map<nat, Request>,
    jobs: map<nat, Job>,
    uploadMu: Option<nat>,
    files: map<string, File>,
    blobs: map<string, Bytes>,
    clock: int)

  const IDLE := State(L.UNUSED, map[], map[], None, map[], map[], 0)

  datatype Step =
    | Arrive(p: nat, request: Request)
    | GetLock(p: nat)
    | LockUploadMu(p: nat)
    | Count(p: nat)
    | Create(p: nat)
    | GiveUp(p: nat)
    | ReadSize(p: nat)
    | Append(p: nat, after: Bytes, r: Appended, touched: bool)
    | Commit(p: nat)
    | RemoveFile(p: nat)
    | FindExpired(p: nat)
    | ReleaseLock(p: nat)
    | Depart(p: nat)
    | Tick(clock: int)

  /** filepath.Dir: the directory the uploads of one repository and owner share. */
  function Dir(path: string): string {
    if path == "" || path[|path| - 1] == '/' then path else Dir(path[..|path| - 1])
  }

  /** CountUploads: the upload files of that directory. */
  function Active(files: map<string, File>, dir: string): set<string> {
    set path | path in files && Dir(path) == dir
  }

  predicate Busy(s: State, p: nat) {
    p in s.jobs && p in s.requests
  }

  predicate InCountSection(job: Job) {
    job.Counting? || job.MayCreate?
  }

  function BodyOf(request: Request): Bytes
    requires request.Chunk? || (request.Start? && request.whole.Some?)
  {
    if request.Chunk? then request.body else request.whole.value.0
  }

  function DigestOf(request: Request): Option<string> {
    match request
    case Start(path, Some(whole)) => Some(whole.1)
    case Chunk(path, range, body, digest) => digest
    case _ => None
  }

  predicate LockStep(step: Step) {
    step.Arrive? || step.GetLock? || step.ReleaseLock? || step.Depart?
  }

  predicate LockEnabled(s: State, step: Step)
    requires LockStep(step)
  {
    match step
    case Arrive(p, request) => p !in s.requests && L.Enabled(s.locks, L.Register(p, request.path))
    case GetLock(p) => p in s.requests && L.Enabled(s.locks, L.Acquire(p))
    case ReleaseLock(p) => Busy(s, p) && !InCountSection(s.jobs[p]) && L.Enabled(s.locks, L.Unlock(p))
    case Depart(p) => L.Enabled(s.locks, L.Unregister(p))
  }

  function LockApply(s: State, step: Step): State
    requires LockStep(step) && LockEnabled(s, step)
  {
    match step
    case Arrive(p, request) =>
      s.(locks := L.Apply(s.locks, L.Register(p, request.path)), requests := s.requests[p := request])
    case GetLock(p) => s.(locks := L.Apply(s.locks, L.Acquire(p)), jobs := s.jobs[p := Begun])
    case ReleaseLock(p) => s.(locks := L.Apply(s.locks, L.Unlock(p)), jobs := s.jobs - {p})
    case Depart(p) => s.(locks := L.Apply(s.locks, L.Unregister(p)), requests := s.requests - {p})
  }

  ghost predicate FileEnabled(config: Config, s: State, step: Step)
    requires !LockStep(step)
  {
    if step.Tick? then step.clock >= s.clock
    else
      && Busy(s, step.p)
      && var request, job := s.requests[step.p], s.jobs[step.p];
         match step
         case LockUploadMu(p) => request.Start? && job.Begun? && s.uploadMu.None?
         case Count(p) => job.Counting?
         case Create(p) => job.MayCreate? && job.counted < config.maxSessions && request.path !in s.files
         case GiveUp(p) => InCountSection(job)
         case ReadSize(p) =>
           && request.Chunk? && job.Begun? && request.path in s.files
           && ValidRange(request.range, |s.files[request.path].content|)
         case Append(p, after, r, touched) =>
           && job.Sized? && (request.Chunk? || (request.Start? && request.whole.Some?)) && request.path in s.files
           && AppendOutcome(s.files[request.path].content, BodyOf(request), config.maxBytes, after, r)
         case Commit(p) =>
           && job.Complete? && DigestOf(request).Some? && request.path in s.files
           && config.matches(DigestOf(request).value, s.files[request.path].content)
         case RemoveFile(p) =>
           (request.Delete? && job.Begun?) || (request.Start? && job.Broken?) || (request.Clean? && job.Expired?)
         case FindExpired(p) =>
           && request.Clean? && job.Begun?
           && (request.path in s.files ==> s.files[request.path].modified <= request.cutoff)
  }

  ghost function FileApply(config: Config, s: State, step: Step): State
    requires !LockStep(step) && FileEnabled(config, s, step)
  {
    if step.Tick? then s.(clock := step.clock)
    else
      var p := step.p;
      var path := s.requests[p].path;
      match step
      case LockUploadMu(_) => s.(uploadMu := Some(p), jobs := s.jobs[p := Counting])
      case Count(_) => s.(jobs := s.jobs[p := MayCreate(|Active(s.files, Dir(path))|)])
      case Create(_) =>
        s.(files := s.files[path := File([], s.clock)], uploadMu := None, jobs := s.jobs[p := Sized(0)])
      case GiveUp(_) => s.(uploadMu := None, jobs := s.jobs[p := Finished])
      case ReadSize(_) =>
        s.(jobs := s.jobs[p := Sized(|s.files[path].content|)])
      case Append(_, after, r, touched) =>
        s.(files := s.files[path := File(after, if touched then s.clock else s.files[path].modified)],
           jobs := s.jobs[p := if r.Done? then Complete else Broken])
      case Commit(_) =>
        s.(files := s.files - {path}, blobs := s.blobs[DigestOf(s.requests[p]).value := s.files[path].content],
           jobs := s.jobs[p := Finished])
      case RemoveFile(_) => s.(files := s.files - {path}, jobs := s.jobs[p := Finished])
      case FindExpired(_) => s.(jobs := s.jobs[p := Expired])
  }

  ghost predicate Enabled(config: Config, s: State, step: Step) {
    if LockStep(step) then LockEnabled(s, step) else FileEnabled(config, s, step)
  }

  ghost function Apply(config: Config, s: State, step: Step): State
    requires Enabled(config, s, step)
  {
    if LockStep(step) then LockApply(s, step) else FileApply(config, s, step)
  }

  // ---------------------------------------------------------------- who may touch a file

  /** The users of the locks, the requests in flight and the jobs of the lock holders tell the same story. */
  ghost predicate SameStory(s: State) {
    && s.requests.Keys == s.locks.users.Keys
    && (forall p :: p in s.requests ==> s.locks.users[p].path == s.requests[p].path)
    && (forall p :: p in s.jobs ==> p in s.requests)
    && (forall p :: p in s.requests ==> (p in s.jobs <==> s.locks.users[p].phase == L.Holding))
  }

  ghost predicate Tracked(s: State) {
    L.Inv(s.locks) && SameStory(s)
  }

  /** Two goroutines busy on one upload are the same goroutine. */
  lemma OneHolder(s: State, p: nat, q: nat)
    requires Tracked(s) && p in s.jobs && q in s.jobs && s.requests[p].path == s.requests[q].path
    ensures p == q
  {
    assert s.locks.users[p].entry == s.locks.users[q].entry;
  }

  function LockStepOf(step: Step): L.Step
    requires LockStep(step)
  {
    match step
    case Arrive(p, request) => L.Register(p, request.path)
    case GetLock(p) => L.Acquire(p)
    case ReleaseLock(p) => L.Unlock(p)
    case Depart(p) => L.Unregister(p)
  }

  lemma LockStepIs(s: State, step: Step)
    requires LockStep(step) && LockEnabled(s, step)
    ensures L.Enabled(s.locks, LockStepOf(step))
    ensures LockApply(s, step).locks == L.Apply(s.locks, LockStepOf(step))
  {
    hide L.Enabled;
    hide L.Apply;
  }

  lemma SameStoryNext(s: State, step: Step)
    requires SameStory(s) && LockStep(step) && LockEnabled(s, step)
    ensures SameStory(LockApply(s, step))
  {
    hide L.Enabled;
    hide L.Apply;
    LockStepIs(s, step);
    L.UsersAfter(s.locks, LockStepOf(step));
    SameStoryAfter(s, step, LockApply(s, step));
  }

  /** The users after a lock step, and the requests and jobs it leaves. */
  lemma SameStoryAfter(s: State, step: Step, k: State)
    requires LockStep(step) && LockEnabled(s, step) && k == LockApply(s, step)
    requires k.locks == L.Apply(s.locks, LockStepOf(step))
    requires k.locks.users.Keys == if step.Depart? then s.locks.users.Keys - {step.p} else s.locks.users.Keys + {step.p}
    requires forall q :: q in s.locks.users && q != step.p ==> q in k.locks.users && k.locks.users[q] == s.locks.users[q]
    requires step.Arrive? ==> k.locks.users[step.p].path == step.request.path && k.locks.users[step.p].phase == L.Waiting
    requires step.GetLock? || step.ReleaseLock? ==>
      && step.p in s.locks.users && k.locks.users[step.p].path == s.locks.users[step.p].path
      && k.locks.users[step.p].phase == if step.GetLock? then L.Holding else L.Leaving
    requires step.Depart? ==> step.p in s.locks.users && s.locks.users[step.p].phase == L.Leaving
    requires SameStory(s)
    ensures SameStory(k)
  {
    hide L.Enabled;
    hide L.Apply;
  }

  lemma TrackedLockStep(s: State, step: Step)
    requires Tracked(s) && LockStep(step) && LockEnabled(s, step)
    ensures Tracked(LockApply(s, step))
  {
    hide L.Enabled;
    hide L.Apply;
    hide L.Inv;
    LockStepIs(s, step);
    L.StepKeeps(s.locks, LockStepOf(step));
    SameStoryNext(s, step);
  }

  // ---------------------------------------------------------------- the invariant

  /** What a job may rely on while it runs. */
  ghost predicate JobHolds(config: Config, s: State, p: nat)
    requires Busy(s, p)
  {
    var path := s.requests[p].path;
    match s.jobs[p]
    case MayCreate(counted) => s.requests[p].Start? && |Active(s.files, Dir(path))| <= counted
    case Counting => s.requests[p].Start?
    case Sized(size) => path in s.files && |s.files[path].content| == size
    case Complete => path in s.files && |s.files[path].content| <= config.maxBytes
    case Expired => s.requests[p].Clean? && (path in s.files ==> s.files[path].modified <= s.requests[p].cutoff)
    case _ => true
  }

  /** Only the holder of uploadMu is between counting and creating. */
  ghost predicate OneCounter(s: State) {
    forall p :: p in s.jobs && InCountSection(s.jobs[p]) ==> s.uploadMu == Some(p)
  }

  ghost predicate Bounded(config: Config, s: State) {
    && (forall path :: path in s.files ==> |s.files[path].content| <= config.maxBytes + 1)
    && (forall dir :: |Active(s.files, dir)| <= config.maxSessions)
    && (forall digest :: digest in s.blobs ==>
          |s.blobs[digest]| <= config.maxBytes && config.matches(digest, s.blobs[digest]))
  }

  ghost predicate JobsHold(config: Config, s: State)
    requires forall p :: p in s.jobs ==> p in s.requests
  {
    forall p :: p in s.jobs ==> JobHolds(config, s, p)
  }

  ghost predicate Inv(config: Config, s: State) {
    Tracked(s) && OneCounter(s) && Bounded(config, s) && JobsHold(config, s)
  }

  lemma {:induction false} ActiveRises(files: map<string, File>, path: string, file: File, dir: string)
    ensures |Active(files[path := file], dir)| <= |Active(files, dir)| + if path !in files && Dir(path) == dir then 1 else 0
    ensures path in files ==> Active(files[path := file], dir) == Active(files, dir)
  {
    var a, b := Active(files, dir), Active(files[path := file], dir);
    if path in files || Dir(path) != dir {
      assert b == a;
    } else {
      assert b == a + {path};
    }
  }

  lemma ActiveFalls(files: map<string, File>, path: string, dir: string)
    ensures |Active(files - {path}, dir)| <= |Active(files, dir)|
  {
    var a, b := Active(files, dir), Active(files - {path}, dir);
    assert b == a - {path};
  }

  // ---------------------------------------------------------------- what every step keeps

  /** From `s` to `k`, goroutine p alone moved on: at most its own file changed, and only a counter adds one. */
  ghost predicate OnlyMoved(s: State, k: State, p: nat) {
    && Busy(s, p)
    && k.locks == s.locks && k.requests == s.requests && k.jobs.Keys == s.jobs.Keys
    && (forall q :: q in s.jobs && q != p ==> k.jobs[q] == s.jobs[q])
    && (forall path :: path != s.requests[p].path ==> Get(k.files, path) == Get(s.files, path))
    && (InCountSection(s.jobs[p]) || forall dir :: |Active(k.files, dir)| <= |Active(s.files, dir)|)
  }

  lemma OthersStillHold(config: Config, s: State, k: State, p: nat)
    requires Tracked(s) && OneCounter(s) && JobsHold(config, s) && OnlyMoved(s, k, p)
    ensures Tracked(k)
    ensures forall q :: q in k.jobs && q != p ==> JobHolds(config, k, q)
  {
    hide L.Inv;
    hide Active;
    forall q | q in k.jobs && q != p ensures JobHolds(config, k, q) {
      if s.requests[q].path == s.requests[p].path {
        OneHolder(s, p, q);
      }
      var path := s.requests[q].path;
      assert JobHolds(config, s, q);
      assert Get(k.files, path) == Get(s.files, path);
    }
  }

  /** One goroutine's own move keeps everything if its own job, the mutex and the limits are in order after it. */
  lemma MoveKeeps(config: Config, s: State, k: State, p: nat)
    requires Inv(config, s) && OnlyMoved(s, k, p)
    requires Bounded(config, k) && p in k.jobs && p in k.requests && JobHolds(config, k, p)
    requires InCountSection(k.jobs[p]) ==> k.uploadMu == Some(p)
    requires k.uploadMu == s.uploadMu || s.uploadMu.None? || InCountSection(s.jobs[p])
    ensures Inv(config, k)
  {
    hide L.Inv;
    hide Active;
    hide Bounded;
    OthersStillHold(config, s, k, p);
    hide JobHolds;
  }

  /** A step that leaves the files alone. */
  lemma QuietKeeps(config: Config, s: State, k: State, p: nat)
    requires Busy(s, p) && p in k.jobs
    requires k == s.(jobs := s.jobs[p := k.jobs[p]], uploadMu := k.uploadMu)
    requires JobHolds(config, k, p)
    requires InCountSection(k.jobs[p]) ==> k.uploadMu == Some(p)
    requires k.uploadMu == s.uploadMu || s.uploadMu.None? || InCountSection(s.jobs[p])
    requires Inv(config, s)
    ensures Inv(config, k)
  {
    hide L.Inv;
    hide Active;
    hide JobHolds;
    MoveKeeps(config, s, k, p);
  }

  lemma {:induction false} CreateCounts(files: map<string, File>, path: string, file: File, after: map<string, File>, max: nat)
    requires path !in files && |Active(files, Dir(path))| < max && after == files[path := file]
    requires forall dir :: |Active(files, dir)| <= max
    ensures forall dir :: |Active(after, dir)| <= max
  {
    forall dir ensures |Active(after, dir)| <= max {
      ActiveRises(files, path, file, dir);
    }
  }

  lemma CreateKeeps(config: Config, s: State, p: nat, k: State)
    requires Busy(s, p) && s.jobs[p].MayCreate? && s.jobs[p].counted < config.maxSessions
    requires s.requests[p].path !in s.files
    requires k == s.(files := s.files[s.requests[p].path := File([], s.clock)], uploadMu := None, jobs := s.jobs[p := Sized(0)])
    requires Inv(config, s)
    ensures Inv(config, k)
  {
    hide L.Inv;
    hide Active;
    assert JobHolds(config, s, p) && OnlyMoved(s, k, p) && JobHolds(config, k, p);
    hide Inv;
    assert Bounded(config, k) by {
      InvMeans(config, s);
      CreateCounts(s.files, s.requests[p].path, File([], s.clock), k.files, config.maxSessions);
    }
    hide *;
    MoveKeeps(config, s, k, p);
  }

  lemma InvMeans(config: Config, s: State)
    requires Inv(config, s)
    ensures Bounded(config, s)
  {
  }

  lemma AppendKeeps(config: Config, s: State, p: nat, k: State, after: Bytes, r: Appended, modified: int)
    requires config.maxBytes <= MAX_INT64 && Busy(s, p) && s.jobs[p].Sized?
    requires s.requests[p].Chunk? || (s.requests[p].Start? && s.requests[p].whole.Some?)
    requires s.requests[p].path in s.files
    requires AppendOutcome(s.files[s.requests[p].path].content, BodyOf(s.requests[p]), config.maxBytes, after, r)
    requires k == s.(files := s.files[s.requests[p].path := File(after, modified)],
                     jobs := s.jobs[p := if r.Done? then Complete else Broken])
    requires Inv(config, s)
    ensures Inv(config, k)
  {
    hide Inv;
    InvMeans(config, s);
    var path := s.requests[p].path;
    AppendKeepsBounds(s.files[path].content, BodyOf(s.requests[p]), config.maxBytes, after, r);
    forall dir ensures Active(k.files, dir) == Active(s.files, dir) {
      ActiveRises(s.files, path, k.files[path], dir);
    }
    hide Active;
    hide AppendOutcome;
    assert OnlyMoved(s, k, p) && JobHolds(config, k, p) && Bounded(config, k);
    assert !InCountSection(k.jobs[p]);
    hide *;
    MoveKeeps(config, s, k, p);
  }

  lemma RemovalKeeps(config: Config, s: State, p: nat, k: State)
    requires Busy(s, p) && !InCountSection(s.jobs[p])
    requires k == s.(files := s.files - {s.requests[p].path}, blobs := k.blobs, jobs := s.jobs[p := Finished])
    requires forall digest :: digest in k.blobs ==>
               |k.blobs[digest]| <= config.maxBytes && config.matches(digest, k.blobs[digest])
    requires Inv(config, s)
    ensures Inv(config, k)
  {
    hide Inv;
    InvMeans(config, s);
    forall dir ensures |Active(k.files, dir)| <= |Active(s.files, dir)| {
      ActiveFalls(s.files, s.requests[p].path, dir);
    }
    hide Active;
    assert OnlyMoved(s, k, p) && JobHolds(config, k, p) && Bounded(config, k);
    assert !InCountSection(k.jobs[p]);
    hide *;
    MoveKeeps(config, s, k, p);
  }

  /** A lock step starts a job, ends one, or leaves them all alone; it moves no file. */
  ghost predicate OnlyLocked(s: State, k: State) {
    && k.files == s.files && k.blobs == s.blobs && k.uploadMu == s.uploadMu
    && (forall q :: q in k.jobs ==> k.jobs[q] == Begun || (q in s.jobs && k.jobs[q] == s.jobs[q]))
    && (forall q :: q in k.jobs && q in s.jobs ==> q in k.requests && q in s.requests && k.requests[q] == s.requests[q])
  }

  lemma LockStepMoves(s: State, step: Step)
    requires LockStep(step) && LockEnabled(s, step)
    requires Tracked(s)
    ensures OnlyLocked(s, LockApply(s, step))
  {
    hide L.Inv;
    hide L.Enabled;
    hide L.Apply;
    LockStepIs(s, step);
    L.UsersAfter(s.locks, LockStepOf(step));
  }

  lemma LockStepKeeps(config: Config, s: State, step: Step)
    requires LockStep(step) && LockEnabled(s, step)
    requires Inv(config, s)
    ensures Inv(config, LockApply(s, step))
  {
    hide L.Inv;
    hide L.Enabled;
    hide L.Apply;
    hide Active;
    hide LockEnabled;
    hide LockApply;
    hide SameStory;
    hide OnlyLocked;
    TrackedLockStep(s, step);
    LockStepMoves(s, step);
    StillInv(config, s, LockApply(s, step));
  }

  lemma StillInv(config: Config, s: State, k: State)
    requires Tracked(k) && OnlyLocked(s, k)
    requires Inv(config, s)
    ensures Inv(config, k)
  {
    hide L.Inv;
    hide Active;
    hide JobHolds;
    JobsStillHold(config, s, k);
  }

  lemma JobsStillHold(config: Config, s: State, k: State)
    requires Tracked(k) && OnlyLocked(s, k)
    requires Tracked(s) && JobsHold(config, s)
    ensures JobsHold(config, k)
  {
    hide L.Inv;
    hide Active;
    forall q | q in k.jobs ensures JobHolds(config, k, q) {
      if q in s.jobs && k.jobs[q] == s.jobs[q] {
        assert JobHolds(config, s, q);
      }
    }
  }

  lemma FileStepKeeps(config: Config, s: State, step: Step)
    requires config.maxBytes <= MAX_INT64 && !LockStep(step) && FileEnabled(config, s, step)
    requires Inv(config, s)
    ensures Inv(config, FileApply(config, s, step))
  {
    var k := FileApply(config, s, step);
    hide L.Inv;
    hide Active;
    hide AppendOutcome;
    hide ValidRange;
    if step.Tick? {
      TickKeeps(config, s, step);
    } else if step.Create? {
      hide Inv;
      CreateKeeps(config, s, step.p, k);
    } else if step.Append? {
      hide Inv;
      AppendKeeps(config, s, step.p, k, step.after, step.r, k.files[s.requests[step.p].path].modified);
    } else if step.Commit? || step.RemoveFile? {
      RemovalStepKeeps(config, s, step);
    } else {
      QuietStepKeeps(config, s, step);
    }
  }

  lemma RemovalStepKeeps(config: Config, s: State, step: Step)
    requires (step.Commit? || step.RemoveFile?) && FileEnabled(config, s, step)
    requires Inv(config, s)
    ensures Inv(config, FileApply(config, s, step))
  {
    hide L.Inv;
    hide Active;
    assert JobHolds(config, s, step.p);
    RemovalKeeps(config, s, step.p, FileApply(config, s, step));
  }

  lemma QuietStepKeeps(config: Config, s: State, step: Step)
    requires step.LockUploadMu? || step.Count? || step.GiveUp? || step.ReadSize? || step.FindExpired?
    requires FileEnabled(config, s, step)
    requires Inv(config, s)
    ensures Inv(config, FileApply(config, s, step))
  {
    hide L.Inv;
    hide Active;
    hide ValidRange;
    assert JobHolds(config, s, step.p);
    hide Inv;
    QuietKeeps(config, s, FileApply(config, s, step), step.p);
  }

  lemma StepKeeps(config: Config, s: State, step: Step)
    requires config.maxBytes <= MAX_INT64 && Inv(config, s) && Enabled(config, s, step)
    ensures Inv(config, Apply(config, s, step))
  {
    hide Inv;
    if LockStep(step) {
      LockStepKeeps(config, s, step);
    } else {
      FileStepKeeps(config, s, step);
    }
  }

  lemma TickKeeps(config: Config, s: State, step: Step)
    requires Inv(config, s) && step.Tick? && FileEnabled(config, s, step)
    ensures Inv(config, FileApply(config, s, step))
  {
    var k := FileApply(config, s, step);
    forall q | q in k.jobs ensures JobHolds(config, k, q) {
      assert JobHolds(config, s, q);
    }
  }

  // ---------------------------------------------------------------- whole runs

  ghost predicate Runs(config: Config, s: State, steps: seq<Step>, k: State)
    decreases steps
  {
    if steps == [] then s == k
    else Enabled(config, s, steps[0]) && Runs(config, Apply(config, s, steps[0]), steps[1..], k)
  }

  lemma {:induction false} RunKeeps(config: Config, s: State, steps: seq<Step>, k: State)
    requires config.maxBytes <= MAX_INT64 && Inv(config, s) && Runs(config, s, steps, k)
    ensures Inv(config, k)
    decreases steps
  {
    if steps != [] {
      hide Inv;
      hide Apply;
      StepKeeps(config, s, steps[0]);
      RunKeeps(config, Apply(config, s, steps[0]), steps[1..], k);
    }
  }

  /** A server that starts up: nobody in flight, the files and blobs of the last run within the limits. */
  ghost predicate Startup(config: Config, s: State) {
    && s.locks == L.UNUSED && s.requests == map[] && s.jobs == map[] && s.uploadMu.None?
    && Bounded(config, s)
  }

  lemma StartupHolds(config: Config, s: State)
    requires Startup(config, s)
    ensures Inv(config, s)
  {
    assert L.Inv(L.UNUSED);
  }

  /**
   The session cap: however starts, chunks, commits, deletes and cleanup interleave, one repository and owner
   never has more upload files than allowed.
   */
  lemma {:induction false} SessionsWithinCap(config: Config, s: State, steps: seq<Step>, k: State, dir: string)
    requires config.maxBytes <= MAX_INT64 && Startup(config, s) && Runs(config, s, steps, k)
    ensures |Active(k.files, dir)| <= config.maxSessions
  {
    StartupHolds(config, s);
    RunKeeps(config, s, steps, k);
  }

  /**
   The size bounds: whatever reads and truncations fail, a session is at most one byte over the limit, and
   every committed blob is within it and matches its digest.
   */
  lemma {:induction false} SizesWithinLimit(config: Config, s: State, steps: seq<Step>, k: State)
    requires config.maxBytes <= MAX_INT64 && Startup(config, s) && Runs(config, s, steps, k)
    ensures forall path :: path in k.files ==> |k.files[path].content| <= config.maxBytes + 1
    ensures forall digest :: digest in k.blobs ==>
              |k.blobs[digest]| <= config.maxBytes && config.matches(digest, k.blobs[digest])
  {
    StartupHolds(config, s);
    RunKeeps(config, s, steps, k);
  }

  lemma RemovalIsDue(config: Config, k: State, step: Step)
    requires step.RemoveFile? && FileEnabled(config, k, step) && k.requests[step.p].Clean?
    requires Inv(config, k)
    ensures
      var path, after := k.requests[step.p].path, FileApply(config, k, step);
      && (path in k.files ==> k.files[path].modified <= k.requests[step.p].cutoff)
      && path !in after.files
      && forall q :: q != path ==> Get(after.files, q) == Get(k.files, q)
  {
    hide L.Inv;
    hide Active;
    assert JobHolds(config, k, step.p);
  }

  /**
   Cleanup never removes a file that was refreshed past its cutoff: at the very step that removes a file on the
   cleaner's behalf, the file is no younger than the cutoff, although the walk saw it at some earlier time.
   */
  lemma {:induction false} CleanupSparesFreshFiles(config: Config, s: State, steps: seq<Step>, k: State, step: Step)
    requires config.maxBytes <= MAX_INT64 && Startup(config, s) && Runs(config, s, steps, k)
    requires step.RemoveFile? && Enabled(config, k, step) && k.requests[step.p].Clean?
    ensures
      var path, after := k.requests[step.p].path, Apply(config, k, step);
      && (path in k.files ==> k.files[path].modified <= k.requests[step.p].cutoff)
      && path !in after.files
      && forall q :: q != path ==> Get(after.files, q) == Get(k.files, q)
  {
    hide Inv;
    hide Runs;
    hide FileEnabled;
    hide FileApply;
    StartupHolds(config, s);
    RunKeeps(config, s, steps, k);
    RemovalIsDue(config, k, step);
  }

  /** The size a request read before it appends is still the size of the session when it does. */
  lemma {:induction false} SizeReadIsCurrent(config: Config, s: State, steps: seq<Step>, k: State, p: nat)
    requires config.maxBytes <= MAX_INT64 && Startup(config, s) && Runs(config, s, steps, k)
    requires p in k.jobs && k.jobs[p].Sized?
    ensures p in k.requests && k.requests[p].path in k.files
    ensures |k.files[k.requests[p].path].content| == k.jobs[p].size
  {
    StartupHolds(config, s);
    RunKeeps(config, s, steps, k);
    assert JobHolds(config, k, p);
  }

  // ---------------------------------------------------------------- chunks of one blob

  /** The request sends bytes of the blob its client is uploading there, from where its range says. */
  ghost predicate Faithful(blob: map<string, Bytes>, request: Request) {
    match request
    case Start(path, Some(whole)) => path in blob && whole.0 <= blob[path]
    case Chunk(path, range, body, digest) =>
      && range != "" && path in blob
      && (DeclaredRange(range).Some? ==>
            var start := DeclaredRange(range).value.0;
            start <= |blob[path]| && body <= blob[path][start..])
    case _ => true
  }

  ghost predicate FaithfulRun(blob: map<string, Bytes>, steps: seq<Step>) {
    forall i :: 0 <= i < |steps| && steps[i].Arrive? ==> Faithful(blob, steps[i].request)
  }

  ghost predicate AllFaithful(blob: map<string, Bytes>, s: State) {
    forall p :: p in s.requests ==> Faithful(blob, s.requests[p])
  }

  ghost predicate FilesPrefixed(blob: map<string, Bytes>, s: State) {
    forall path :: path in s.files && path in blob ==> s.files[path].content <= blob[path]
  }

  /** A request that has read the size of its session was checked against it. */
  ghost predicate SizesChecked(s: State) {
    forall p :: p in s.jobs && p in s.requests && s.jobs[p].Sized? ==>
      match s.requests[p]
      case Start(_, _) => s.jobs[p].size == 0
      case Chunk(_, range, _, _) => ValidRange(range, s.jobs[p].size)
      case _ => true
  }

  /** Every session is a prefix of its blob, and a request about to append continues it exactly where it ends. */
  ghost predicate Prefixed(blob: map<string, Bytes>, s: State) {
    AllFaithful(blob, s) && FilesPrefixed(blob, s) && SizesChecked(s)
  }

  lemma PrefixedAppend(config: Config, blob: map<string, Bytes>, s: State, p: nat, k: State,
                       after: Bytes, r: Appended, modified: int)
    requires Busy(s, p) && s.jobs[p].Sized? && s.requests[p].path in s.files
    requires s.requests[p].Chunk? || (s.requests[p].Start? && s.requests[p].whole.Some?)
    requires AppendOutcome(s.files[s.requests[p].path].content, BodyOf(s.requests[p]), config.maxBytes, after, r)
    requires k == s.(files := s.files[s.requests[p].path := File(after, modified)],
                     jobs := s.jobs[p := if r.Done? then Complete else Broken])
    requires Prefixed(blob, s)
    requires JobHolds(config, s, p)
    ensures Prefixed(blob, k)
  {
    hide AppendOutcome;
    hide Faithful;
    hide ValidRange;
    hide BodyOf;
    var request := s.requests[p];
    FaithfulContinues(blob, s, p);
    AppendKeepsPrefix(blob[request.path], s.files[request.path].content, BodyOf(request), config.maxBytes, after, r);
  }

  /** The body of a faithful request continues the blob exactly where the session ends. */
  lemma FaithfulContinues(blob: map<string, Bytes>, s: State, p: nat)
    requires Busy(s, p) && s.jobs[p].Sized? && s.requests[p].path in s.files
    requires s.requests[p].Chunk? || (s.requests[p].Start? && s.requests[p].whole.Some?)
    requires |s.files[s.requests[p].path].content| == s.jobs[p].size
    requires Prefixed(blob, s)
    ensures
      var request := s.requests[p];
      && request.path in blob
      && s.files[request.path].content <= blob[request.path]
      && BodyOf(request) <= blob[request.path][|s.files[request.path].content|..]
  {
    hide DeclaredRange;
    assert Faithful(blob, s.requests[p]);
  }

  lemma PrefixedStep(config: Config, blob: map<string, Bytes>, s: State, step: Step)
    requires Inv(config, s) && Prefixed(blob, s) && Enabled(config, s, step)
    requires step.Arrive? ==> Faithful(blob, step.request)
    ensures Prefixed(blob, Apply(config, s, step))
  {
    hide L.Inv;
    hide Active;
    hide AppendOutcome;
    hide Prefixed;
    if LockStep(step) {
      PrefixedLockStep(config, blob, s, step);
    } else if step.Append? {
      var k := FileApply(config, s, step);
      assert JobHolds(config, s, step.p);
      PrefixedAppend(config, blob, s, step.p, k, step.after, step.r, k.files[s.requests[step.p].path].modified);
    } else {
      assert step.Tick? || JobHolds(config, s, step.p);
      PrefixedFileStep(config, blob, s, step);
    }
  }

  lemma FileStepKeepsFiles(config: Config, blob: map<string, Bytes>, s: State, step: Step)
    requires !LockStep(step) && !step.Append? && FileEnabled(config, s, step)
    requires FilesPrefixed(blob, s)
    ensures FilesPrefixed(blob, FileApply(config, s, step))
  {
    hide ValidRange;
    hide Active;
  }

  lemma FileStepKeepsSizes(config: Config, s: State, step: Step)
    requires !LockStep(step) && !step.Append? && FileEnabled(config, s, step)
    requires step.Tick? || JobHolds(config, s, step.p)
    requires SizesChecked(s)
    ensures SizesChecked(FileApply(config, s, step))
  {
    hide ValidRange;
    hide Active;
  }

  lemma PrefixedFileStep(config: Config, blob: map<string, Bytes>, s: State, step: Step)
    requires !LockStep(step) && !step.Append? && FileEnabled(config, s, step)
    requires step.Tick? || JobHolds(config, s, step.p)
    requires Prefixed(blob, s)
    ensures Prefixed(blob, FileApply(config, s, step))
  {
    hide JobHolds;
    hide FilesPrefixed;
    hide SizesChecked;
    FileStepKeepsFiles(config, blob, s, step);
    FileStepKeepsSizes(config, s, step);
    hide Faithful;
  }

  lemma PrefixedLockStep(config: Config, blob: map<string, Bytes>, s: State, step: Step)
    requires Tracked(s) && Prefixed(blob, s) && LockStep(step) && LockEnabled(s, step)
    requires step.Arrive? ==> Faithful(blob, step.request)
    ensures Prefixed(blob, LockApply(s, step))
  {
    hide Tracked;
    hide Faithful;
    hide L.Enabled;
    hide L.Apply;
    hide FilesPrefixed;
    hide SizesChecked;
    hide OnlyLocked;
    LockStepMoves(s, step);
    StillPrefixed(blob, s, LockApply(s, step));
  }

  lemma StillPrefixed(blob: map<string, Bytes>, s: State, k: State)
    requires OnlyLocked(s, k) && FilesPrefixed(blob, s) && SizesChecked(s)
    ensures FilesPrefixed(blob, k) && SizesChecked(k)
  {
    hide ValidRange;
  }

  lemma {:induction false} RunPrefixed(config: Config, blob: map<string, Bytes>, s: State, steps: seq<Step>, k: State)
    requires config.maxBytes <= MAX_INT64 && Inv(config, s) && Prefixed(blob, s)
    requires Runs(config, s, steps, k) && FaithfulRun(blob, steps)
    ensures Prefixed(blob, k)
    decreases steps
  {
    if steps != [] {
      assert FaithfulRun(blob, steps[1..]);
      hide Inv;
      hide Apply;
      hide Prefixed;
      StepKeeps(config, s, steps[0]);
      PrefixedStep(config, blob, s, steps[0]);
      RunPrefixed(config, blob, Apply(config, s, steps[0]), steps[1..], k);
    }
  }

  /**
   Chunked upload keeps a prefix: if every chunk sent declares its range and carries the bytes of the blob from
   there, then after any reordering, duplication, cut connection, failed truncation or refusal the session holds
   a prefix of the blob, and one as long as the blob is the blob.
   */
  lemma {:induction false} ChunksKeepPrefix(config: Config, blob: map<string, Bytes>, s: State, steps: seq<Step>, k: State, path: string)
    requires config.maxBytes <= MAX_INT64 && Startup(config, s) && s.files == map[]
    requires Runs(config, s, steps, k) && FaithfulRun(blob, steps) && path in blob && path in k.files
    ensures k.files[path].content <= blob[path]
    ensures |k.files[path].content| == |blob[path]| ==> k.files[path].content == blob[path]
  {
    StartupHolds(config, s);
    RunPrefixed(config, blob, s, steps, k);
  }
}
