/**
 The upload handlers and the cleaner as code (internal/httpserver/server.go:374-541, internal/storage/filesystem.go:520-610).
 Each method is one uninterrupted execution; its ghost results are the steps of the session machine it takes,
 so what holds for every interleaving of those steps holds for the handlers.
 */
module UploadServer {
  import opened Wrappers
  import opened UploadAppend
  import opened UploadSessions
  import L = UploadLocks

  // ---------------------------------------------------------------- steps as continuations of a run

  lemma {:induction false} RunsConcat(config: Config, s: State, steps: seq<Step>, m: State, more: seq<Step>, k: State)
    requires Runs(config, s, steps, m) && Runs(config, m, more, k)
    ensures Runs(config, s, steps + more, k)
    decreases steps
  {
    if steps == [] {
      assert steps + more == more;
    } else {
      RunsConcat(config, Apply(config, s, steps[0]), steps[1..], m, more, k);
      assert (steps + more)[1..] == steps[1..] + more;
    }
  }

  lemma Extend(config: Config, s: State, steps: seq<Step>, m: State, step: Step) returns (more: seq<Step>, k: State)
    requires Enabled(config, m, step)
    requires Runs(config, s, steps, m)
    ensures more == steps + [step] && k == Apply(config, m, step) && Runs(config, s, more, k)
  {
    hide Enabled;
    hide Apply;
    more, k := steps + [step], Apply(config, m, step);
    assert [step][1..] == [];
    assert Runs(config, m, [step], k);
    RunsConcat(config, s, steps, m, [step], k);
  }

  lemma DoLockUploadMu(config: Config, s: State, steps: seq<Step>, m: State, p: nat) returns (more: seq<Step>, k: State)
    requires Busy(m, p) && m.requests[p].Start? && m.jobs[p].Begun? && m.uploadMu.None?
    requires Runs(config, s, steps, m)
    ensures Runs(config, s, more, k) && k == m.(uploadMu := Some(p), jobs := m.jobs[p := Counting])
  {
    hide Runs;
    more, k := Extend(config, s, steps, m, LockUploadMu(p));
  }

  lemma DoCount(config: Config, s: State, steps: seq<Step>, m: State, p: nat) returns (more: seq<Step>, k: State)
    requires Busy(m, p) && m.jobs[p].Counting?
    requires Runs(config, s, steps, m)
    ensures Runs(config, s, more, k)
    ensures k == m.(jobs := m.jobs[p := MayCreate(|Active(m.files, Dir(m.requests[p].path))|)])
  {
    hide Runs;
    hide Active;
    more, k := Extend(config, s, steps, m, Count(p));
  }

  lemma DoCreate(config: Config, s: State, steps: seq<Step>, m: State, p: nat) returns (more: seq<Step>, k: State)
    requires Busy(m, p) && m.jobs[p].MayCreate? && m.jobs[p].counted < config.maxSessions && m.requests[p].path !in m.files
    requires Runs(config, s, steps, m)
    ensures Runs(config, s, more, k)
    ensures k == m.(files := m.files[m.requests[p].path := File([], m.clock)], uploadMu := None, jobs := m.jobs[p := Sized(0)])
  {
    hide Runs;
    more, k := Extend(config, s, steps, m, Create(p));
  }

  lemma DoGiveUp(config: Config, s: State, steps: seq<Step>, m: State, p: nat) returns (more: seq<Step>, k: State)
    requires Busy(m, p) && InCountSection(m.jobs[p])
    requires Runs(config, s, steps, m)
    ensures Runs(config, s, more, k) && k == m.(uploadMu := None, jobs := m.jobs[p := Finished])
  {
    hide Runs;
    more, k := Extend(config, s, steps, m, GiveUp(p));
  }

  lemma DoReadSize(config: Config, s: State, steps: seq<Step>, m: State, p: nat) returns (more: seq<Step>, k: State)
    requires Busy(m, p) && m.requests[p].Chunk? && m.jobs[p].Begun? && m.requests[p].path in m.files
    requires ValidRange(m.requests[p].range, |m.files[m.requests[p].path].content|)
    requires Runs(config, s, steps, m)
    ensures Runs(config, s, more, k)
    ensures k == m.(jobs := m.jobs[p := Sized(|m.files[m.requests[p].path].content|)])
  {
    hide Runs;
    hide ValidRange;
    more, k := Extend(config, s, steps, m, ReadSize(p));
  }

  lemma DoAppend(config: Config, s: State, steps: seq<Step>, m: State, p: nat, after: Bytes, r: Appended)
    returns (more: seq<Step>, k: State)
    requires Busy(m, p) && m.jobs[p].Sized? && m.requests[p].path in m.files
    requires m.requests[p].Chunk? || (m.requests[p].Start? && m.requests[p].whole.Some?)
    requires AppendOutcome(m.files[m.requests[p].path].content, BodyOf(m.requests[p]), config.maxBytes, after, r)
    requires Runs(config, s, steps, m)
    ensures Runs(config, s, more, k)
    ensures k == m.(files := m.files[m.requests[p].path := File(after, m.clock)],
                    jobs := m.jobs[p := if r.Done? then Complete else Broken])
  {
    hide Runs;
    hide AppendOutcome;
    more, k := Extend(config, s, steps, m, Append(p, after, r, true));
  }

  lemma DoCommit(config: Config, s: State, steps: seq<Step>, m: State, p: nat) returns (more: seq<Step>, k: State)
    requires Busy(m, p) && m.jobs[p].Complete? && DigestOf(m.requests[p]).Some? && m.requests[p].path in m.files
    requires config.matches(DigestOf(m.requests[p]).value, m.files[m.requests[p].path].content)
    requires Runs(config, s, steps, m)
    ensures Runs(config, s, more, k)
    ensures k == m.(files := m.files - {m.requests[p].path}, jobs := m.jobs[p := Finished],
                    blobs := m.blobs[DigestOf(m.requests[p]).value := m.files[m.requests[p].path].content])
  {
    hide Runs;
    more, k := Extend(config, s, steps, m, Commit(p));
  }

  lemma DoRemoveFile(config: Config, s: State, steps: seq<Step>, m: State, p: nat) returns (more: seq<Step>, k: State)
    requires Busy(m, p)
    requires
      || (m.requests[p].Delete? && m.jobs[p].Begun?) || (m.requests[p].Start? && m.jobs[p].Broken?)
      || (m.requests[p].Clean? && m.jobs[p].Expired?)
    requires Runs(config, s, steps, m)
    ensures Runs(config, s, more, k) && k == m.(files := m.files - {m.requests[p].path}, jobs := m.jobs[p := Finished])
  {
    hide Runs;
    more, k := Extend(config, s, steps, m, RemoveFile(p));
  }

  lemma DoFindExpired(config: Config, s: State, steps: seq<Step>, m: State, p: nat) returns (more: seq<Step>, k: State)
    requires Busy(m, p) && m.requests[p].Clean? && m.jobs[p].Begun?
    requires m.requests[p].path in m.files ==> m.files[m.requests[p].path].modified <= m.requests[p].cutoff
    requires Runs(config, s, steps, m)
    ensures Runs(config, s, more, k) && k == m.(jobs := m.jobs[p := Expired])
  {
    hide Runs;
    more, k := Extend(config, s, steps, m, FindExpired(p));
  }

  /** Nobody is in flight, so whoever comes gets the lock. */
  ghost predicate Alone(s: State) {
    Tracked(s) && s.requests == map[] && s.jobs == map[]
  }

  lemma DoEnter(config: Config, s: State, steps: seq<Step>, m: State, p: nat, request: Request)
    returns (more: seq<Step>, k: State)
    requires Alone(m)
    requires Runs(config, s, steps, m)
    ensures Runs(config, s, more, k) && Tracked(k)
    ensures k == m.(locks := k.locks, requests := map[p := request], jobs := map[p := Begun])
  {
    hide Runs;
    var mid;
    LockIsFree(m, p, request);
    more, mid := Extend(config, s, steps, m, Arrive(p, request));
    TrackedLockStep(m, Arrive(p, request));
    more, k := Extend(config, s, more, mid, GetLock(p));
    TrackedLockStep(mid, GetLock(p));
    assert map[][p := request] == map[p := request] && map[][p := Begun] == map[p := Begun];
  }

  lemma LockIsFree(m: State, p: nat, request: Request)
    requires Alone(m)
    ensures LockEnabled(m, Arrive(p, request)) && LockEnabled(LockApply(m, Arrive(p, request)), GetLock(p))
  {
    TrackedLockStep(m, Arrive(p, request));
    var k := LockApply(m, Arrive(p, request)).locks;
    var e := k.users[p].entry;
    assert e < |k.entries|;
    assert k.users.Keys == {p};
    assert k.users[p].phase == L.Waiting;
    assert k.entries[e].holder.None?;
  }

  lemma DoLeave(config: Config, s: State, steps: seq<Step>, m: State, p: nat) returns (more: seq<Step>, k: State)
    requires Tracked(m) && p in m.jobs && !InCountSection(m.jobs[p])
    requires m.requests.Keys == {p} && m.jobs.Keys == {p}
    requires Runs(config, s, steps, m)
    ensures Runs(config, s, more, k) && Alone(k)
    ensures k == m.(locks := k.locks, requests := map[], jobs := map[])
  {
    hide Runs;
    hide Tracked;
    hide LockEnabled;
    hide LockApply;
    var mid;
    ReleaseThenDepart(m, p);
    more, mid := Extend(config, s, steps, m, ReleaseLock(p));
    more, k := Extend(config, s, more, mid, Depart(p));
    assert m.jobs - {p} == map[] && m.requests - {p} == map[];
  }

  lemma ReleaseThenDepart(m: State, p: nat)
    requires Tracked(m) && p in m.jobs && !InCountSection(m.jobs[p])
    ensures LockEnabled(m, ReleaseLock(p)) && LockEnabled(LockApply(m, ReleaseLock(p)), Depart(p))
    ensures
      var mid := LockApply(m, ReleaseLock(p));
      var k := LockApply(mid, Depart(p));
      Tracked(k) && k == m.(locks := k.locks, requests := m.requests - {p}, jobs := m.jobs - {p})
  {
    hide L.Enabled;
    hide L.Apply;
    hide L.Inv;
    hide SameStory;
    LockIsHeld(m, p);
    TrackedLockStep(m, ReleaseLock(p));
    TrackedLockStep(LockApply(m, ReleaseLock(p)), Depart(p));
  }

  lemma LockIsHeld(m: State, p: nat)
    requires Tracked(m) && p in m.jobs && !InCountSection(m.jobs[p])
    ensures LockEnabled(m, ReleaseLock(p)) && LockEnabled(LockApply(m, ReleaseLock(p)), Depart(p))
  {
    assert p in m.requests && m.locks.users[p].phase == L.Holding;
    hide SameStory;
    assert m.locks.users[p].entry < |m.locks.entries|;
  }

  // ---------------------------------------------------------------- the code

  datatype Reply =
    | Accepted(size: nat)
    | Created(digest: string)
    | NoContent
    | NotFound
    | BadRequest
    | RangeNotSatisfiable
    | TooManySessions
    | TooLarge
    | Failed

  class Uploads {
    const config: Config
    var files: map<string, File>
    var blobs: map<string, Bytes>

    constructor (config: Config)
      ensures this.config == config && files == map[] && blobs == map[]
    {
      this.config, files, blobs := config, map[], map[];
    }

    ghost predicate Mirrors(s: State)
      reads this
    {
      files == s.files && blobs == s.blobs
    }

    /** Goroutine p has the lock of its upload and has done nothing yet. */
    ghost predicate Ready(s: State, p: nat, request: Request)
      reads this
    {
      Mirrors(s) && Busy(s, p) && s.requests[p] == request && s.jobs[p] == Begun
    }

    /** requestExceedsLimit: a declared length that does not fit into what is left. */
    static predicate ExceedsLimit(length: Option<nat>, remaining: int) {
      length.Some? && (remaining < 0 || length.value > remaining)
    }

    /** CountUploads: the entries of the directory, one by one, if it can be listed. */
    method CountUploads(dir: string) returns (r: Result<nat>)
      ensures r.Ok? ==> r.value == |Active(files, dir)|
      ensures r.Err? ==> r.error == Io
    {
      var lists: bool := *;
      if !lists {
        return Err(Io);
      }
      var left := files.Keys;
      var count := 0;
      ghost var seen: set<string> := {};
      hide Dir;
      while left != {}
        invariant left <= files.Keys && seen !! left && seen + left == files.Keys
        invariant count == |SeenIn(seen, dir)|
        decreases |left|
      {
        var path :| path in left;
        left := left - {path};
        SeenMore(seen, path, dir);
        seen := seen + {path};
        if Dir(path) == dir {
          count := count + 1;
        }
      }
      assert Active(files, dir) == SeenIn(seen, dir);
      r := Ok(count);
    }

    static ghost function SeenIn(seen: set<string>, dir: string): set<string> {
      set path | path in seen && Dir(path) == dir
    }

    static lemma {:induction false} SeenMore(seen: set<string>, path: string, dir: string)
      requires path !in seen
      ensures |SeenIn(seen + {path}, dir)| == |SeenIn(seen, dir)| + if Dir(path) == dir then 1 else 0
    {
      hide Dir;
      var a, b := SeenIn(seen, dir), SeenIn(seen + {path}, dir);
      assert b == if Dir(path) == dir then a + {path} else a;
    }

    /** appendUpload on the file at the path, which the caller has locked and measured. */
    method AppendAt(path: string, body: Bytes, size: nat, now: int) returns (r: Appended)
      requires path in files && size == |files[path].content| <= MAX_INT64 && config.maxBytes <= MAX_INT64
      modifies this`files
      ensures
        && path in files && files == old(files)[path := files[path]] && files[path].modified == now
        && AppendOutcome(old(files)[path].content, body, config.maxBytes, files[path].content, r)
    {
      var file := new UploadFile(files[path].content);
      var reader := new Body(body);
      r := UploadAppend.AppendUpload(file, reader, size, config.maxBytes);
      files := files[path := File(file.content, now)];
    }

    /** commitBlobUpload, up to the rename, which the disk may refuse: the upload becomes the blob, or stays where it is. */
    method CommitAt(path: string, digest: string, renames: bool) returns (ok: bool)
      requires path in files
      modifies this
      ensures ok <==> renames && config.matches(digest, old(files)[path].content)
      ensures if ok then files == old(files) - {path} && blobs == old(blobs)[digest := old(files)[path].content]
              else files == old(files) && blobs == old(blobs)
    {
      ok := config.matches(digest, files[path].content) && renames;
      if ok {
        files, blobs := files - {path}, blobs[digest := files[path].content];
      }
    }

    /** What every handler leaves: a run of the machine, and the uploads of everyone else as they were. */
    twostate predicate Handled(s: State, p: nat, path: string, steps: seq<Step>, k: State)
      reads this
    {
      && Runs(config, s, steps, k) && Mirrors(k)
      && k == s.(files := k.files, blobs := k.blobs, jobs := k.jobs)
      && p in k.jobs && k.jobs == s.jobs[p := k.jobs[p]] && !InCountSection(k.jobs[p])
      && forall q :: q != path ==> Get(files, q) == Get(old(files), q)
    }

    /**
     The start of an upload: count and create in one section; with a digest the body is the whole blob and is
     committed at once.
     */
    method HandleUploadStart(path: string, whole: Option<(Bytes, string)>, length: Option<nat>, now: int, renames: bool,
                             ghost s: State, ghost p: nat)
      returns (r: Reply, ghost steps: seq<Step>, ghost k: State)
      requires config.maxBytes <= MAX_INT64 && s.uploadMu.None? && now == s.clock
      requires Ready(s, p, Start(path, whole))
      modifies this
      ensures Handled(s, p, path, steps, k)
      ensures r.TooManySessions? || |Active(old(files), Dir(path))| >= config.maxSessions ==> Mirrors(s)
      ensures r.TooManySessions? ==> |Active(old(files), Dir(path))| >= config.maxSessions
      ensures r.Accepted? ==>
        && r.size == 0 && whole.None? && path !in old(files) && path in files && files[path].content == []
        && |Active(files, Dir(path))| <= config.maxSessions
      ensures r.Created? ==>
        && whole.Some? && r.digest == whole.value.1 && path !in old(files) && path !in files
        && r.digest in blobs && config.matches(r.digest, blobs[r.digest]) && |blobs[r.digest]| <= config.maxBytes
        && blobs == old(blobs)[r.digest := blobs[r.digest]]
        && (config.maxBytes < MAX_INT64 ==> blobs[r.digest] == whole.value.0)
      ensures !r.Created? ==> blobs == old(blobs)
      ensures length.Some? && length.value > config.maxBytes ==> r.TooLarge? && Mirrors(s)
      ensures r.TooLarge? ==>
        || (length.Some? && length.value > config.maxBytes)
        || (whole.Some? && |whole.value.0| > config.maxBytes)
      ensures r.BadRequest? ==>
        && whole.Some? && path in files && (config.maxBytes < MAX_INT64 ==> files[path].content == whole.value.0)
        && (renames ==> !config.matches(whole.value.1, files[path].content))
    {
      hide Runs;
      hide Active;
      hide AppendOutcome;
      steps, k := [], s;
      NoSteps(config, s);
      if ExceedsLimit(length, config.maxBytes) {
        return Reply.TooLarge, steps, k;
      }
      var refusal;
      refusal, steps, k := CountAndCreate(path, now, s, p);
      if refusal.Some? {
        return refusal.value, steps, k;
      }
      if whole.None? {
        return Accepted(0), steps, k;
      }
      r, steps, k := StoreWhole(path, whole.value.0, whole.value.1, now, renames, s, steps, k, p);
    }

    /** The section under the upload mutex: counts the sessions of the directory and makes one more if the cap allows it. */
    method CountAndCreate(path: string, now: int, ghost s: State, ghost p: nat)
      returns (refusal: Option<Reply>, ghost steps: seq<Step>, ghost k: State)
      requires Mirrors(s) && Busy(s, p) && s.requests[p].Start? && s.requests[p].path == path && s.jobs[p] == Begun
      requires s.uploadMu.None? && now == s.clock
      modifies this`files
      ensures Runs(config, s, steps, k) && Mirrors(k)
      ensures
        var count := |Active(old(files), Dir(path))|;
        if refusal.Some? then
          && files == old(files) && k == s.(jobs := s.jobs[p := Finished])
          && (refusal == Some(Reply.Failed) || (refusal == Some(TooManySessions) && count >= config.maxSessions))
        else
          && path !in old(files) && files == old(files)[path := File([], now)] && count < config.maxSessions
          && |Active(files, Dir(path))| <= config.maxSessions && k == s.(files := files, jobs := s.jobs[p := Sized(0)])
    {
      hide Runs;
      hide Active;
      steps, k := [], s;
      NoSteps(config, s);
      steps, k := DoLockUploadMu(config, s, steps, k, p);
      var active := CountUploads(Dir(path));
      if active.Err? {
        steps, k := DoGiveUp(config, s, steps, k, p);
        return Some(Reply.Failed), steps, k;
      }
      steps, k := DoCount(config, s, steps, k, p);
      if active.value >= config.maxSessions {
        steps, k := DoGiveUp(config, s, steps, k, p);
        return Some(TooManySessions), steps, k;
      }
      var creates: bool := *;
      if path in files || !creates {
        steps, k := DoGiveUp(config, s, steps, k, p);
        return Some(Reply.Failed), steps, k;
      }
      ActiveRises(files, path, File([], s.clock), Dir(path));
      files := files[path := File([], now)];
      steps, k := DoCreate(config, s, steps, k, p);
      refusal := None;
    }

    /** The monolithic upload, once its session is there: a body that was not taken takes its session with it. */
    method StoreWhole(path: string, body: Bytes, digest: string, now: int, renames: bool,
                      ghost s: State, ghost steps0: seq<Step>, ghost m: State, ghost p: nat)
      returns (r: Reply, ghost steps: seq<Step>, ghost k: State)
      requires config.maxBytes <= MAX_INT64 && Runs(config, s, steps0, m) && Mirrors(m) && now == m.clock
      requires Busy(m, p) && m.requests[p] == Start(path, Some((body, digest))) && m.jobs[p] == Sized(0)
      requires path in files && files[path].content == []
      modifies this
      ensures Runs(config, s, steps, k) && Mirrors(k)
      ensures k == m.(files := k.files, blobs := k.blobs, jobs := k.jobs)
      ensures p in k.jobs && k.jobs == m.jobs[p := k.jobs[p]] && !InCountSection(k.jobs[p])
      ensures forall q :: q != path ==> Get(files, q) == Get(old(files), q)
      ensures !r.TooManySessions? && !r.Accepted? && (r.TooLarge? ==> |body| > config.maxBytes)
      ensures r.BadRequest? ==>
        && path in files && (config.maxBytes < MAX_INT64 ==> files[path].content == body)
        && (renames ==> !config.matches(digest, files[path].content))
      ensures r.Created? ==>
        && r.digest == digest && path !in files
        && digest in blobs && config.matches(digest, blobs[digest]) && |blobs[digest]| <= config.maxBytes
        && blobs == old(blobs)[digest := blobs[digest]]
        && (config.maxBytes < MAX_INT64 ==> blobs[digest] == body)
      ensures !r.Created? ==> blobs == old(blobs)
    {
      hide Runs;
      var appended := AppendAt(path, body, 0, now);
      AppendKeepsBounds([], body, config.maxBytes, files[path].content, appended);
      WholeTaken([], body, config.maxBytes, files[path].content, appended);
      RefusedIsTooLong([], body, config.maxBytes, files[path].content, appended);
      hide AppendOutcome;
      steps, k := DoAppend(config, s, steps0, m, p, files[path].content, appended);
      if !appended.Done? {
        var removes: bool := *;
        if removes {
          files := files - {path};
          steps, k := DoRemoveFile(config, s, steps, k, p);
        }
        return if appended.TooLarge? then Reply.TooLarge else Reply.Failed, steps, k;
      }
      var ok := CommitAt(path, digest, renames);
      if ok {
        steps, k := DoCommit(config, s, steps, k, p);
        return Created(digest), steps, k;
      }
      r := BadRequest;
    }

    /** A successful append under a limit below 2^63-1 has taken the whole body. */
    lemma WholeTaken(before: Bytes, body: Bytes, max: nat, after: Bytes, r: Appended)
      requires max <= MAX_INT64 && AppendOutcome(before, body, max, after, r)
      ensures r.Done? && max < MAX_INT64 ==> after == before + body
    {
      if body != [] {
        SuccessIsCompleteExactly(before, body, max);
      } else {
        assert before + [] == before;
        assert body[..0] == [];
      }
    }

    /**
     A chunk: PATCH sends no digest, PUT sends the digest to commit under, "" if the query has none. Whatever
     happens, the session never loses a byte it had.
     */
    method HandleChunk(path: string, range: string, body: Bytes, length: Option<nat>, digest: Option<string>, now: int,
                       renames: bool, ghost s: State, ghost p: nat)
      returns (r: Reply, ghost steps: seq<Step>, ghost k: State)
      requires config.maxBytes <= MAX_INT64 && (path in files ==> |files[path].content| <= MAX_INT64)
      requires Ready(s, p, Chunk(path, range, body, digest)) && now == s.clock
      modifies this
      ensures Handled(s, p, path, steps, k)
      ensures r.NotFound? || r.RangeNotSatisfiable? || path !in old(files) ==> Mirrors(s)
      ensures path in old(files) && !ValidRange(range, |old(files)[path].content|) ==> r.NotFound? || r.RangeNotSatisfiable?
      ensures r.RangeNotSatisfiable? ==> path in old(files) && !ValidRange(range, |old(files)[path].content|)
      ensures r.TooLarge? ==> path in old(files) && path in files && files[path].content == old(files)[path].content
      ensures r.Accepted? ==>
        && digest.None? && path in old(files) && path in files && r.size == |files[path].content| <= config.maxBytes
        && (config.maxBytes < MAX_INT64 ==> files[path].content == old(files)[path].content + body)
      ensures r.Created? ==>
        && digest == Some(r.digest) && path in old(files) && path !in files
        && r.digest in blobs && config.matches(r.digest, blobs[r.digest]) && |blobs[r.digest]| <= config.maxBytes
        && blobs == old(blobs)[r.digest := blobs[r.digest]]
        && (config.maxBytes < MAX_INT64 ==> blobs[r.digest] == old(files)[path].content + body)
      ensures !r.Created? ==> blobs == old(blobs)
      ensures !r.Created? && path in old(files) ==> path in files && old(files)[path].content <= files[path].content
      ensures path in old(files) && length.Some? && |old(files)[path].content| + length.value > config.maxBytes ==>
        Mirrors(s) && (r.TooLarge? || r.NotFound? || r.RangeNotSatisfiable?)
      ensures r.TooLarge? ==>
        var size := |old(files)[path].content|;
        (length.Some? && size + length.value > config.maxBytes) || size + |body| > config.maxBytes
      ensures r.BadRequest? ==>
        && digest.Some? && path in old(files) && path in files
        && (config.maxBytes < MAX_INT64 ==> files[path].content == old(files)[path].content + body)
        && (digest.value != "" && renames ==> !config.matches(digest.value, files[path].content))
    {
      hide Runs;
      hide ValidRange;
      steps, k := [], s;
      NoSteps(config, s);
      var stats: bool := *;
      if path !in files || !stats {
        return Reply.NotFound, steps, k;
      }
      var size := |files[path].content|;
      if !ValidRange(range, size) {
        return RangeNotSatisfiable, steps, k;
      }
      if ExceedsLimit(length, config.maxBytes - size) {
        return Reply.TooLarge, steps, k;
      }
      ghost var before := files[path].content;
      steps, k := DoReadSize(config, s, steps, k, p);
      var appended := AppendAt(path, body, size, now);
      AppendNeverLoses(before, body, config.maxBytes, files[path].content, appended);
      WholeTaken(before, body, config.maxBytes, files[path].content, appended);
      RefusedIsTooLong(before, body, config.maxBytes, files[path].content, appended);
      hide AppendOutcome;
      steps, k := DoAppend(config, s, steps, k, p, files[path].content, appended);
      if !appended.Done? {
        return if appended.TooLarge? then Reply.TooLarge else Reply.Failed, steps, k;
      }
      if digest.None? {
        return Accepted(appended.size), steps, k;
      }
      if digest.value == "" {
        return BadRequest, steps, k;
      }
      var ok := CommitAt(path, digest.value, renames);
      if ok {
        steps, k := DoCommit(config, s, steps, k, p);
        return Created(digest.value), steps, k;
      }
      r := BadRequest;
    }

    /** An append is refused only for a body that does not fit. */
    lemma RefusedIsTooLong(before: Bytes, body: Bytes, max: nat, after: Bytes, r: Appended)
      requires AppendOutcome(before, body, max, after, r)
      ensures r.TooLarge? ==> |before| + |body| > max
    {
    }

    lemma AppendNeverLoses(before: Bytes, body: Bytes, max: nat, after: Bytes, r: Appended)
      requires max <= MAX_INT64 && AppendOutcome(before, body, max, after, r)
      ensures before <= after && (r.TooLarge? ==> after == before)
      ensures r.Done? ==> |after| <= max && r.size == |after|
    {
    }

    /** DELETE of an upload. */
    method HandleDelete(path: string, ghost s: State, ghost p: nat)
      returns (r: Reply, ghost steps: seq<Step>, ghost k: State)
      requires Ready(s, p, Request.Delete(path))
      modifies this
      ensures Handled(s, p, path, steps, k) && blobs == old(blobs)
      ensures r.NoContent? ==> path in old(files) && path !in files
      ensures !r.NoContent? ==> Mirrors(s)
      ensures path !in old(files) ==> r.NotFound?
    {
      hide Runs;
      steps, k := [], s;
      NoSteps(config, s);
      if path !in files {
        return Reply.NotFound, steps, k;
      }
      var removes: bool := *;
      if !removes {
        return Reply.Failed, steps, k;
      }
      files := files - {path};
      steps, k := DoRemoveFile(config, s, steps, k, p);
      r := NoContent;
    }

    // ---------------------------------------------------------------- cleanup

    ghost function ExpiredIn(was: map<string, File>, walk: seq<string>, cutoff: int): set<string> {
      set path | path in walk && path in was && was[path].modified <= cutoff
    }

    /** One file of the walk: looked at again, and removed if it is still expired, under its lock. */
    method CleanOne(path: string, cutoff: int, ghost s: State, ghost steps0: seq<Step>, ghost m: State, ghost p: nat)
      returns (ok: bool, removed: bool, ghost steps: seq<Step>, ghost k: State)
      requires Runs(config, s, steps0, m) && Alone(m) && Mirrors(m)
      modifies this`files
      ensures Runs(config, s, steps, k) && Alone(k) && Mirrors(k)
      ensures k == m.(files := k.files, locks := k.locks)
      ensures files == if removed then old(files) - {path} else old(files)
      ensures removed ==> path in old(files) && old(files)[path].modified <= cutoff
      ensures ok && path in old(files) && old(files)[path].modified <= cutoff ==> removed
    {
      hide Runs;
      hide Tracked;
      removed := false;
      var stats, removes: bool := *, *;
      steps, k := DoEnter(config, s, steps0, m, p, Clean(path, cutoff));
      ghost var entered := k;
      if path in files && stats && files[path].modified > cutoff {
        ok := true;
      } else if path in files && !stats {
        ok := false;
      } else {
        steps, k := DoFindExpired(config, s, steps, k, p);
        ok := path !in files || removes;
        if path in files && removes {
          removed := true;
          files := files - {path};
          steps, k := DoRemoveFile(config, s, steps, k, p);
        }
      }
      TrackedStill(entered, k);
      steps, k := DoLeave(config, s, steps, k, p);
    }

    lemma TrackedStill(m: State, k: State)
      requires Tracked(m) && k.locks == m.locks && k.requests == m.requests && k.jobs.Keys == m.jobs.Keys
      ensures Tracked(k)
    {
      hide L.Inv;
    }

    /** From `was` to `now` exactly the files in `gone` went, and that many were counted. */
    ghost predicate Cleaned(was: map<string, File>, now: map<string, File>, gone: set<string>, deleted: nat) {
      now == was - gone && gone <= was.Keys && deleted == |gone|
    }

    lemma CleanedNext(was: map<string, File>, walk: seq<string>, i: nat, cutoff: int, before: map<string, File>,
                      removed: bool, now: map<string, File>, deleted: nat)
      requires i < |walk| && Cleaned(was, before, ExpiredIn(was, walk[..i], cutoff), deleted)
      requires now == if removed then before - {walk[i]} else before
      requires removed ==> walk[i] in before && before[walk[i]].modified <= cutoff
      ensures
        var gone := ExpiredIn(was, walk[..i], cutoff) + if removed then {walk[i]} else {};
        && Cleaned(was, now, gone, deleted + if removed then 1 else 0)
        && gone <= ExpiredIn(was, walk[..i + 1], cutoff) <= ExpiredIn(was, walk, cutoff)
        && ((walk[i] in before && before[walk[i]].modified <= cutoff ==> removed) ==>
              gone == ExpiredIn(was, walk[..i + 1], cutoff))
    {
      assert walk[..i + 1] == walk[..i] + [walk[i]];
      var gone := ExpiredIn(was, walk[..i], cutoff);
      if removed {
        assert was - (gone + {walk[i]}) == was - gone - {walk[i]};
        assert |gone + {walk[i]}| == |gone| + 1;
      } else {
        assert gone + {} == gone;
      }
      assert walk[i] in before <==> walk[i] in was && walk[i] !in gone;
    }

    /**
     CleanupStaleUploads, over the files in the order the walk came by them: everything expired goes, nothing else
     does, and exactly as many are reported; a failure stops it before it is through.
     */
    method CleanupStaleUploads(walk: seq<string>, cutoff: int, ghost s: State, ghost p: nat)
      returns (ok: bool, deleted: nat, ghost gone: set<string>, ghost steps: seq<Step>, ghost k: State)
      requires Alone(s) && Mirrors(s)
      modifies this`files
      ensures Runs(config, s, steps, k) && Alone(k) && Mirrors(k)
      ensures Cleaned(old(files), files, gone, deleted)
      ensures if ok then gone == ExpiredIn(old(files), walk, cutoff) else gone <= ExpiredIn(old(files), walk, cutoff)
    {
      hide Runs;
      hide Alone;
      steps, k, deleted, gone := [], s, 0, {};
      NoSteps(config, s);
      assert ExpiredIn(files, [], cutoff) == {} && files - {} == files;
      hide Cleaned;
      hide ExpiredIn;
      for i := 0 to |walk|
        invariant Runs(config, s, steps, k) && Alone(k) && Mirrors(k)
        invariant gone == ExpiredIn(old(files), walk[..i], cutoff) && Cleaned(old(files), files, gone, deleted)
      {
        ghost var before := files;
        var removed;
        ok, removed, steps, k := CleanOne(walk[i], cutoff, s, steps, k, p);
        CleanedNext(old(files), walk, i, cutoff, before, removed, files, deleted);
        gone := gone + if removed then {walk[i]} else {};
        if removed {
          deleted := deleted + 1;
        }
        if !ok {
          return;
        }
      }
      assert walk[..|walk|] == walk;
      ok := true;
    }

    lemma {:induction false} NoSteps(config: Config, s: State)
      ensures Runs(config, s, [], s)
    {
    }
  }
}
