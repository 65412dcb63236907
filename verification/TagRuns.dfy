/**
 All repositories together: any number of lock sections, interleaved with each other and with the
 operations that take no lock, in runs of any length. Files and the repository lock go by directory,
 database rows by the name as the request spelled it.
 */
module TagRuns {
  import opened Wrappers
  import opened Names
  import opened ReadModel
  import opened TagMachine
  import opened TagInvariants
  import Layout

  datatype Holder = Holder(name: string, job: Job)

  datatype State = State(
    files: map<string, Files>, rows: map<string, Rows>, jobs: map<string, Holder>, faults: map<string, Faults>)

  const EMPTY := State(map[], map[], map[], map[])

  datatype Action = On(name: string, event: Event)

  function GetOr<V>(m: map<string, V>, k: string, default: V): V {
    if k in m then m[k] else default
  }

  function View(s: State, name: string, path: string): Local {
    Local(name, GetOr(s.files, path, NO_FILES), GetOr(s.rows, name, NO_ROWS),
          if path in s.jobs then Some(s.jobs[path].job) else None, GetOr(s.faults, path, NO_FAULTS))
  }

  predicate Can(env: Env, s: State, a: Action) {
    if Unlocked(a.event) then Enabled(env, View(s, a.name, a.name), a.event)
    else
      && RepositoryPath(a.name).Some?
      && var path := RepositoryPath(a.name).value;
         && Enabled(env, View(s, a.name, path), a.event)
         && (path in s.jobs ==> s.jobs[path].name == a.name)
  }

  ghost function Step(env: Env, s: State, a: Action): State
    requires Can(env, s, a)
  {
    if Unlocked(a.event) then
      var k := Apply(env, View(s, a.name, a.name), a.event);
      s.(rows := s.rows[a.name := k.rows], faults := s.faults[a.name := k.faults])
    else
      var path := RepositoryPath(a.name).value;
      var k := Apply(env, View(s, a.name, path), a.event);
      State(s.files[path := k.files], s.rows[a.name := k.rows],
            if k.job.Some? then s.jobs[path := Holder(a.name, k.job.value)] else s.jobs - {path},
            s.faults[path := k.faults])
  }

  ghost predicate ValidRun(env: Env, s: State, run: seq<Action>)
    decreases run
  {
    run != [] ==> Can(env, s, run[0]) && ValidRun(env, Step(env, s, run[0]), run[1..])
  }

  /** The states of a run, from the first to the last. */
  ghost function Trace(env: Env, s: State, run: seq<Action>): (states: seq<State>)
    requires ValidRun(env, s, run)
    ensures |states| == |run| + 1 && states[0] == s
    decreases run
  {
    if run == [] then [s] else [s] + Trace(env, Step(env, s, run[0]), run[1..])
  }

  /** Every request that takes the lock spells its repository the way its directory is spelled. */
  predicate CanonicalAction(a: Action) {
    Unlocked(a.event) || Canonical(a.name)
  }

  ghost predicate GlobalInv(env: Env, s: State) {
    && (forall p :: Inv(env, View(s, p, p)))
    && (forall p :: p in s.jobs ==> s.jobs[p].name == p)
  }

  lemma {:induction false} EmptyInv(env: Env)
    ensures GlobalInv(env, EMPTY)
  {
  }

  lemma {:induction false} UnlockedLeavesFiles(env: Env, l: Local, e: Event)
    requires Enabled(env, l, e) && Unlocked(e)
    ensures Apply(env, l, e) == l.(rows := Apply(env, l, e).rows, faults := Apply(env, l, e).faults)
  {
  }

  lemma {:induction false} ApplyKeepsName(env: Env, l: Local, e: Event)
    requires Enabled(env, l, e)
    ensures Apply(env, l, e).name == l.name
  {
  }

  /** A step changes the view of the repository it names and of no other. */
  lemma {:induction false} StepViews(env: Env, s: State, a: Action, p: string)
    requires Can(env, s, a) && CanonicalAction(a)
    ensures View(Step(env, s, a), p, p) ==
      if p == a.name then Apply(env, View(s, p, p), a.event) else View(s, p, p)
  {
    hide Enabled;
    hide Apply;
    var l := View(s, a.name, a.name);
    ApplyKeepsName(env, l, a.event);
    if Unlocked(a.event) {
      UnlockedLeavesFiles(env, l, a.event);
    }
  }

  lemma {:induction false} StepKeepsGlobal(env: Env, s: State, a: Action)
    requires Sound(env) && GlobalInv(env, s) && Can(env, s, a) && CanonicalAction(a)
    ensures GlobalInv(env, Step(env, s, a))
  {
    var t := Step(env, s, a);
    forall p ensures Inv(env, View(t, p, p)) {
      StepViews(env, s, a, p);
      if p == a.name {
        StepKeeps(env, View(s, p, p), a.event);
      }
    }
  }

  lemma {:induction false} TraceKeeps(env: Env, s: State, run: seq<Action>, i: nat)
    requires Sound(env) && GlobalInv(env, s) && ValidRun(env, s, run) && i <= |run|
    requires forall a :: a in run ==> CanonicalAction(a)
    ensures GlobalInv(env, Trace(env, s, run)[i])
    ensures i < |run| ==> Can(env, Trace(env, s, run)[i], run[i])
                          && Trace(env, s, run)[i + 1] == Step(env, Trace(env, s, run)[i], run[i])
    decreases run
  {
    if i > 0 {
      StepKeepsGlobal(env, s, run[0]);
      TraceKeeps(env, Step(env, s, run[0]), run[1..], i - 1);
    }
  }

  // ---------------------------------------------------------------- files and rows at rest

  function TagFiles(s: State, path: string): map<string, string> {
    GetOr(s.files, path, NO_FILES).tags
  }

  function RecordedTags(s: State, name: string): map<string, string> {
    var rows := GetOr(s.rows, name, NO_ROWS);
    map t | t in rows.tags :: rows.tags[t].digest
  }

  /** Every tag names a manifest whose two files are there. */
  ghost predicate TagsResolve(s: State, path: string) {
    var files := GetOr(s.files, path, NO_FILES);
    forall t :: t in files.tags ==> Complete(files, files.tags[t])
  }

  /** All stored content hashes to the digest it is stored under. */
  ghost predicate ContentsHash(env: Env, s: State, path: string) {
    Hashed(env, GetOr(s.files, path, NO_FILES))
  }

  predicate HasTagRow(s: State, path: string) {
    GetOr(s.rows, path, NO_ROWS).tags != map[]
  }

  ghost predicate PolicyHasRepository(s: State, path: string) {
    PolicyRooted(GetOr(s.rows, path, NO_ROWS))
  }

  /** The directories of the repositories that a run speaks of. */
  function Directories(run: seq<Action>): set<string> {
    set a | a in run && RepositoryPath(a.name).Some? :: RepositoryPath(a.name).value
  }

  /**
   The repositories of the run keep their files apart: none of their directories continues along a file or a manifest
   of another, and where garbage is collected none has a component that the collector takes for manifests.
   */
  ghost predicate Independent(run: seq<Action>) {
    && (forall p, q :: p in Directories(run) && q in Directories(run) ==> Layout.Apart(p, q))
    && (forall a, p :: a in run && a.event.BeginCollect? && p in Directories(run) ==> Layout.NoManifests(Split(p, '/')))
  }

  /**
   A run from the empty registry, over repositories that keep their files apart, in which requests that take a lock use
   canonical names.
   */
  ghost predicate Sensible(env: Env, run: seq<Action>) {
    Sound(env) && ValidRun(env, EMPTY, run) && Independent(run) && forall a :: a in run ==> CanonicalAction(a)
  }

  lemma {:induction false} InvAt(env: Env, run: seq<Action>, i: nat, path: string)
    requires Sensible(env, run) && i <= |run|
    ensures Inv(env, View(Trace(env, EMPTY, run)[i], path, path))
  {
    hide Can;
    hide Step;
    EmptyInv(env);
    TraceKeeps(env, EMPTY, run, i);
  }

  /**
   Whenever the lock of a repository is free: its tag files are a sub-map of its rows unless a rollback write failed or
   an unlocked delete took tag rows; and its rows are a sub-map of its tag files unless a rollback, a removal or a
   delete's database write failed.
   */
  lemma {:induction false} FilesMatchRowsAtRest(env: Env, run: seq<Action>, i: nat, path: string)
    requires Sensible(env, run) && i <= |run|
    requires path !in Trace(env, EMPTY, run)[i].jobs
    ensures
      var s := Trace(env, EMPTY, run)[i];
      var faults := GetOr(s.faults, path, NO_FAULTS);
      && (!faults.undo && !faults.dropped ==> TagFiles(s, path).Items <= RecordedTags(s, path).Items)
      && (NoFaults(faults) ==> RecordedTags(s, path).Items <= TagFiles(s, path).Items)
  {
    InvAt(env, run, i, path);
    hide Sensible;
    hide ValidRun;
    hide Trace;
    var s := Trace(env, EMPTY, run)[i];
    var l := View(s, path, path);
    assert Inv(env, l) && Settled(l, l.files.tags);
    hide Inv;
    if !l.faults.undo && !l.faults.dropped {
      forall x | x in TagFiles(s, path).Items ensures x in RecordedTags(s, path).Items {
        assert x.0 in RecordedTags(s, path) && RecordedTags(s, path)[x.0] == x.1;
      }
    }
    if NoFaults(l.faults) {
      forall x | x in RecordedTags(s, path).Items ensures x in TagFiles(s, path).Items {
        assert x.0 in TagFiles(s, path) && TagFiles(s, path)[x.0] == x.1;
      }
    }
  }

  // ---------------------------------------------------------------- faults and what they break

  /** The i-th action of the run, as a step of the repository, is of this kind. */
  ghost predicate Strands(env: Env, run: seq<Action>, i: nat, path: string) {
    && ValidRun(env, EMPTY, run) && i < |run| && run[i].name == path
    && StrandsTags(View(Trace(env, EMPTY, run)[i], path, path), run[i].event)
  }

  ghost predicate Tears(env: Env, run: seq<Action>, i: nat, path: string) {
    && ValidRun(env, EMPTY, run) && i < |run| && run[i].name == path
    && TearsContent(env, View(Trace(env, EMPTY, run)[i], path, path), run[i].event)
  }

  ghost predicate StoresStray(env: Env, run: seq<Action>, i: nat, path: string) {
    && ValidRun(env, EMPTY, run) && i < |run| && run[i].name == path
    && StoresStrayPolicy(View(Trace(env, EMPTY, run)[i], path, path), run[i].event)
  }

  ghost predicate ErasesAt(env: Env, run: seq<Action>, i: nat, path: string) {
    && ValidRun(env, EMPTY, run) && i < |run| && run[i].name == path
    && Erases(View(Trace(env, EMPTY, run)[i], path, path), run[i].event)
  }

  ghost predicate FailsUndo(run: seq<Action>, i: nat, path: string) {
    i < |run| && run[i].name == path && run[i].event.UndoFails?
  }

  /** The next state seen from one repository. */
  lemma {:induction false} StepAt(env: Env, run: seq<Action>, i: nat, path: string)
    requires Sensible(env, run) && i < |run|
    ensures Can(env, Trace(env, EMPTY, run)[i], run[i])
    ensures
      var l, k := View(Trace(env, EMPTY, run)[i], path, path), View(Trace(env, EMPTY, run)[i + 1], path, path);
      if run[i].name == path then Enabled(env, l, run[i].event) && k == Apply(env, l, run[i].event) else k == l
  {
    EmptyInv(env);
    TraceKeeps(env, EMPTY, run, i);
    var s := Trace(env, EMPTY, run)[i];
    StepViews(env, s, run[i], path);
    hide Step;
    hide Apply;
    hide Enabled;
  }

  lemma {:induction false} FaultsOfStep(env: Env, run: seq<Action>, n: nat, path: string)
    requires Sensible(env, run) && n < |run|
    ensures
      var before := View(Trace(env, EMPTY, run)[n], path, path).faults;
      var after := View(Trace(env, EMPTY, run)[n + 1], path, path).faults;
      && (after.undo <==> before.undo || FailsUndo(run, n, path))
      && (after.removal <==> before.removal || Strands(env, run, n, path))
      && (after.torn <==> before.torn || Tears(env, run, n, path))
      && (after.orphan <==> before.orphan || StoresStray(env, run, n, path))
      && (after.dropped <==> before.dropped || ErasesAt(env, run, n, path))
  {
    StepAt(env, run, n, path);
    hide Can;
    hide Enabled;
    hide Apply;
    hide Trace;
    hide StrandsTags;
    hide TearsContent;
    hide StoresStrayPolicy;
    hide Erases;
    if run[n].name == path {
      FaultsRecorded(env, View(Trace(env, EMPTY, run)[n], path, path), run[n].event);
    }
  }

  ghost function FaultsAt(env: Env, run: seq<Action>, n: nat, path: string): Faults {
    if ValidRun(env, EMPTY, run) && n <= |run| then View(Trace(env, EMPTY, run)[n], path, path).faults else NO_FAULTS
  }

  lemma {:induction false} FaultsAtNext(env: Env, run: seq<Action>, n: nat, path: string)
    requires Sensible(env, run) && n < |run|
    ensures
      var before, after := FaultsAt(env, run, n, path), FaultsAt(env, run, n + 1, path);
      && (after.undo <==> before.undo || FailsUndo(run, n, path))
      && (after.removal <==> before.removal || Strands(env, run, n, path))
      && (after.torn <==> before.torn || Tears(env, run, n, path))
      && (after.orphan <==> before.orphan || StoresStray(env, run, n, path))
      && (after.dropped <==> before.dropped || ErasesAt(env, run, n, path))
  {
    FaultsOfStep(env, run, n, path);
    hide Trace;
    hide View;
    hide FailsUndo;
    hide Strands;
    hide Tears;
    hide StoresStray;
    hide ErasesAt;
  }

  lemma {:induction false} NoFaultsAtFirst(env: Env, run: seq<Action>, path: string)
    ensures
      var faults := FaultsAt(env, run, 0, path);
      !faults.undo && !faults.removal && !faults.torn && !faults.orphan && !faults.dropped
  {
  }

  /** What starts out false and turns true for good at every step that sets it. */
  lemma {:induction false} Accumulates(on: nat -> bool, sets: nat -> bool, n: nat)
    requires !on(0)
    requires forall m: nat :: m < n ==> (on(m + 1) <==> on(m) || sets(m))
    ensures on(n) <==> exists i: nat :: i < n && sets(i)
  {
    if n > 0 {
      Accumulates(on, sets, n - 1);
      assert on(n - 1 + 1) <==> on(n - 1) || sets(n - 1);
    }
  }

  /** The faults on record at a moment of a run are those of its steps so far. */
  lemma {:induction false} FaultsOfRun(env: Env, run: seq<Action>, n: nat, path: string)
    requires Sensible(env, run) && n <= |run|
    ensures
      var faults := View(Trace(env, EMPTY, run)[n], path, path).faults;
      && (faults.undo <==> exists i :: 0 <= i < n && FailsUndo(run, i, path))
      && (faults.removal <==> exists i :: 0 <= i < n && Strands(env, run, i, path))
      && (faults.torn <==> exists i :: 0 <= i < n && Tears(env, run, i, path))
      && (faults.orphan <==> exists i :: 0 <= i < n && StoresStray(env, run, i, path))
      && (faults.dropped <==> exists i :: 0 <= i < n && ErasesAt(env, run, i, path))
  {
    FaultsAccumulate(env, run, n, path);
    hide Trace;
    hide View;
    hide FailsUndo;
    hide Strands;
    hide Tears;
    hide StoresStray;
    hide ErasesAt;
  }

  lemma {:induction false} FaultsAccumulate(env: Env, run: seq<Action>, n: nat, path: string)
    requires Sensible(env, run) && n <= |run|
    ensures FaultsAt(env, run, n, path).undo <==> exists i: nat :: i < n && FailsUndo(run, i, path)
    ensures FaultsAt(env, run, n, path).removal <==> exists i: nat :: i < n && Strands(env, run, i, path)
    ensures FaultsAt(env, run, n, path).torn <==> exists i: nat :: i < n && Tears(env, run, i, path)
    ensures FaultsAt(env, run, n, path).orphan <==> exists i: nat :: i < n && StoresStray(env, run, i, path)
    ensures FaultsAt(env, run, n, path).dropped <==> exists i: nat :: i < n && ErasesAt(env, run, i, path)
  {
    hide *;
    NoFaultsAtFirst(env, run, path);
    var undo: nat -> bool := (i: nat) => FaultsAt(env, run, i, path).undo;
    var removal: nat -> bool := (i: nat) => FaultsAt(env, run, i, path).removal;
    var torn: nat -> bool := (i: nat) => FaultsAt(env, run, i, path).torn;
    var orphan: nat -> bool := (i: nat) => FaultsAt(env, run, i, path).orphan;
    var undoes: nat -> bool := (i: nat) => FailsUndo(run, i, path);
    var strands: nat -> bool := (i: nat) => Strands(env, run, i, path);
    var tears: nat -> bool := (i: nat) => Tears(env, run, i, path);
    var strays: nat -> bool := (i: nat) => StoresStray(env, run, i, path);
    var dropped: nat -> bool := (i: nat) => FaultsAt(env, run, i, path).dropped;
    var erases: nat -> bool := (i: nat) => ErasesAt(env, run, i, path);
    forall m: nat | m < n
      ensures (undo(m + 1) <==> undo(m) || undoes(m)) && (removal(m + 1) <==> removal(m) || strands(m))
      ensures (torn(m + 1) <==> torn(m) || tears(m)) && (orphan(m + 1) <==> orphan(m) || strays(m))
      ensures dropped(m + 1) <==> dropped(m) || erases(m)
    {
      FaultsAtNext(env, run, m, path);
    }
    Accumulates(undo, undoes, n);
    Accumulates(removal, strands, n);
    Accumulates(torn, tears, n);
    Accumulates(orphan, strays, n);
    Accumulates(dropped, erases, n);
    assert forall i: nat :: undoes(i) == FailsUndo(run, i, path);
    assert forall i: nat :: strands(i) == Strands(env, run, i, path);
    assert forall i: nat :: tears(i) == Tears(env, run, i, path);
    assert forall i: nat :: strays(i) == StoresStray(env, run, i, path);
    assert forall i: nat :: erases(i) == ErasesAt(env, run, i, path);
  }

  ghost predicate ResolvesAtRest(env: Env, run: seq<Action>, i: nat, path: string) {
    ValidRun(env, EMPTY, run) && i <= |run| ==>
      var s := Trace(env, EMPTY, run)[i];
      path !in s.jobs ==> TagsResolve(s, path)
  }

  ghost predicate HashesAt(env: Env, run: seq<Action>, i: nat, path: string) {
    ValidRun(env, EMPTY, run) && i <= |run| ==> ContentsHash(env, Trace(env, EMPTY, run)[i], path)
  }

  ghost predicate RootedAt(env: Env, run: seq<Action>, i: nat, path: string) {
    ValidRun(env, EMPTY, run) && i <= |run| ==> PolicyHasRepository(Trace(env, EMPTY, run)[i], path)
  }

  /** What the n-th state shows of the three, given the faults before the last step. */
  lemma {:induction false} DamageAt(env: Env, run: seq<Action>, n: nat, path: string)
    requires Sensible(env, run) && 0 < n <= |run|
    ensures
      var before := View(Trace(env, EMPTY, run)[n - 1], path, path).faults;
      && (!before.removal ==> (ResolvesAtRest(env, run, n, path) <==> !Strands(env, run, n - 1, path)))
      && (!before.torn ==> (HashesAt(env, run, n, path) <==> !Tears(env, run, n - 1, path)))
      && (!before.orphan ==> (RootedAt(env, run, n, path) <==> !StoresStray(env, run, n - 1, path)))
  {
    var l, k := View(Trace(env, EMPTY, run)[n - 1], path, path), View(Trace(env, EMPTY, run)[n], path, path);
    StepAt(env, run, n - 1, path);
    InvAt(env, run, n - 1, path);
    InvAt(env, run, n, path);
    hide Can;
    hide Enabled;
    hide Apply;
    hide Trace;
    if run[n - 1].name == path {
      FaultsRecorded(env, l, run[n - 1].event);
      FaultsAreDamage(env, l, run[n - 1].event);
    }
    InvShows(env, k);
    hide StrandsTags;
    hide TearsContent;
    hide StoresStrayPolicy;
    hide Inv;
    hide Complete;
    hide Hashed;
    hide PolicyRooted;
  }

  lemma {:induction false} InvShows(env: Env, k: Local)
    requires Inv(env, k)
    ensures !k.faults.removal && k.job.None? ==> Resolves(k.files.tags, k.files)
    ensures !k.faults.torn ==> Hashed(env, k.files)
    ensures !k.faults.orphan ==> PolicyRooted(k.rows)
  {
  }

  lemma {:induction false} EmptyIsWhole(env: Env, run: seq<Action>, path: string)
    ensures ResolvesAtRest(env, run, 0, path) && HashesAt(env, run, 0, path) && RootedAt(env, run, 0, path)
  {
  }

  /** Without a step of the kind so far its fault is not on record. */
  lemma {:induction false} FaultlessSoFar(env: Env, run: seq<Action>, n: nat, path: string)
    requires Sensible(env, run) && n <= |run|
    ensures
      var faults := View(Trace(env, EMPTY, run)[n], path, path).faults;
      && ((forall i: nat :: i < n ==> !Strands(env, run, i, path)) ==> !faults.removal)
      && ((forall i: nat :: i < n ==> !Tears(env, run, i, path)) ==> !faults.torn)
      && ((forall i: nat :: i < n ==> !StoresStray(env, run, i, path)) ==> !faults.orphan)
  {
    hide *;
    FaultsOfRun(env, run, n, path);
  }

  // The first step of its kind is the first to show.

  lemma {:induction false} StrandingShows(env: Env, run: seq<Action>, n: nat, path: string)
    requires Sensible(env, run) && n < |run|
    requires forall i: nat :: i < n ==> !Strands(env, run, i, path)
    ensures ResolvesAtRest(env, run, n + 1, path) <==> !Strands(env, run, n, path)
  {
    hide *;
    FaultlessSoFar(env, run, n, path);
    DamageAt(env, run, n + 1, path);
  }

  lemma {:induction false} TearingShows(env: Env, run: seq<Action>, n: nat, path: string)
    requires Sensible(env, run) && n < |run|
    requires forall i: nat :: i < n ==> !Tears(env, run, i, path)
    ensures HashesAt(env, run, n + 1, path) <==> !Tears(env, run, n, path)
  {
    hide *;
    FaultlessSoFar(env, run, n, path);
    DamageAt(env, run, n + 1, path);
  }

  lemma {:induction false} StrayPolicyShows(env: Env, run: seq<Action>, n: nat, path: string)
    requires Sensible(env, run) && n < |run|
    requires forall i: nat :: i < n ==> !StoresStray(env, run, i, path)
    ensures RootedAt(env, run, n + 1, path) <==> !StoresStray(env, run, n, path)
  {
    hide *;
    FaultlessSoFar(env, run, n, path);
    DamageAt(env, run, n + 1, path);
  }

  /** If goodness starts out and is lost exactly at the first bad step, it lasts exactly while no step is bad. */
  lemma {:induction false} LastsExactly(good: nat -> bool, bad: nat -> bool, n: nat)
    requires good(0)
    requires forall m: nat :: m < n && (forall i: nat :: i < m ==> !bad(i)) ==> (good(m + 1) <==> !bad(m))
    ensures (forall i: nat :: i <= n ==> good(i)) <==> (forall i: nat :: i < n ==> !bad(i))
  {
    if n > 0 {
      LastsExactly(good, bad, n - 1);
      if forall i: nat :: i < n - 1 ==> !bad(i) {
        assert good(n - 1 + 1) <==> !bad(n - 1);
      }
    }
  }

  /**
   When no tag dangles: every tag of a repository resolves at every moment its lock is free, up to some moment of
   a run, if and only if no step until then stranded tags, that is, removed a manifest in part while tags named it
   or gave up removing the tags of a manifest it had removed.
   */
  lemma {:induction false} TagsResolveExactly(env: Env, run: seq<Action>, n: nat, path: string)
    requires Sensible(env, run) && n <= |run|
    ensures (forall i :: 0 <= i <= n ==> ResolvesAtRest(env, run, i, path)) <==>
            (forall i :: 0 <= i < n ==> !Strands(env, run, i, path))
  {
    hide *;
    EmptyIsWhole(env, run, path);
    var good: nat -> bool := (i: nat) => ResolvesAtRest(env, run, i, path);
    var bad: nat -> bool := (i: nat) => Strands(env, run, i, path);
    forall m: nat | m < n && (forall i: nat :: i < m ==> !bad(i)) ensures good(m + 1) <==> !bad(m) {
      assert forall i: nat :: i < m ==> bad(i) == Strands(env, run, i, path);
      StrandingShows(env, run, m, path);
    }
    LastsExactly(good, bad, n);
    assert forall i: nat :: good(i) == ResolvesAtRest(env, run, i, path);
    assert forall i: nat :: bad(i) == Strands(env, run, i, path);
  }

  /** Stored content hashes to its digest in every state if and only if no failed write tore it. */
  lemma {:induction false} ContentsHashExactly(env: Env, run: seq<Action>, n: nat, path: string)
    requires Sensible(env, run) && n <= |run|
    ensures (forall i :: 0 <= i <= n ==> HashesAt(env, run, i, path)) <==>
            (forall i :: 0 <= i < n ==> !Tears(env, run, i, path))
  {
    hide *;
    EmptyIsWhole(env, run, path);
    var good: nat -> bool := (i: nat) => HashesAt(env, run, i, path);
    var bad: nat -> bool := (i: nat) => Tears(env, run, i, path);
    forall m: nat | m < n && (forall i: nat :: i < m ==> !bad(i)) ensures good(m + 1) <==> !bad(m) {
      assert forall i: nat :: i < m ==> bad(i) == Tears(env, run, i, path);
      TearingShows(env, run, m, path);
    }
    LastsExactly(good, bad, n);
    assert forall i: nat :: good(i) == HashesAt(env, run, i, path);
    assert forall i: nat :: bad(i) == Tears(env, run, i, path);
  }

  /** A policy never stands without its repository if and only if none is ever stored after the repository has gone. */
  lemma {:induction false} PoliciesStayRootedExactly(env: Env, run: seq<Action>, n: nat, path: string)
    requires Sensible(env, run) && n <= |run|
    ensures (forall i :: 0 <= i <= n ==> RootedAt(env, run, i, path)) <==>
            (forall i :: 0 <= i < n ==> !StoresStray(env, run, i, path))
  {
    hide *;
    EmptyIsWhole(env, run, path);
    var good: nat -> bool := (i: nat) => RootedAt(env, run, i, path);
    var bad: nat -> bool := (i: nat) => StoresStray(env, run, i, path);
    forall m: nat | m < n && (forall i: nat :: i < m ==> !bad(i)) ensures good(m + 1) <==> !bad(m) {
      assert forall i: nat :: i < m ==> bad(i) == StoresStray(env, run, i, path);
      StrayPolicyShows(env, run, m, path);
    }
    LastsExactly(good, bad, n);
    assert forall i: nat :: good(i) == RootedAt(env, run, i, path);
    assert forall i: nat :: bad(i) == StoresStray(env, run, i, path);
  }

  /** So where nothing was stranded or torn, every tag names complete content that hashes to its digest. */
  lemma {:induction false} NoTagDangles(env: Env, run: seq<Action>, n: nat, path: string, tag: string)
    requires Sensible(env, run) && n <= |run| && path !in Trace(env, EMPTY, run)[n].jobs
    requires forall i :: 0 <= i < n ==> !Strands(env, run, i, path) && !Tears(env, run, i, path)
    requires tag in TagFiles(Trace(env, EMPTY, run)[n], path)
    ensures
      var files := GetOr(Trace(env, EMPTY, run)[n].files, path, NO_FILES);
      var digest := files.tags[tag];
      && Complete(files, digest) && ValidDigest(digest)
      && var algorithm := ParseDigest(digest).value.0;
         digest == algorithm + ":" + env.sum(algorithm, files.manifests[digest].content.value)
  {
    TagsResolveExactly(env, run, n, path);
    ContentsHashExactly(env, run, n, path);
    assert ResolvesAtRest(env, run, n, path) && HashesAt(env, run, n, path);
  }

  // ---------------------------------------------------------------- the tag "."

  lemma {:induction false} StepKeepsDotAlone(env: Env, l: Local, e: Event)
    requires Enabled(env, l, e)
    requires "." in l.files.tags ==> l.files.tags.Keys == {"."}
    ensures "." in Apply(env, l, e).files.tags ==> Apply(env, l, e).files.tags.Keys == {"."}
  {
  }

  /** The tag "." takes the place of the tag directory: while it is there no other tag has a file. */
  lemma {:induction false} DotTagIsAlone(env: Env, run: seq<Action>, i: nat, path: string)
    requires Sensible(env, run) && i <= |run|
    ensures
      var tags := TagFiles(Trace(env, EMPTY, run)[i], path);
      "." in tags ==> tags.Keys == {"."}
  {
    if i > 0 {
      DotTagIsAlone(env, run, i - 1, path);
      StepAt(env, run, i - 1, path);
      hide Can;
      hide Enabled;
      hide Apply;
      hide Sensible;
      if run[i - 1].name == path {
        StepKeepsDotAlone(env, View(Trace(env, EMPTY, run)[i - 1], path, path), run[i - 1].event);
      }
    }
  }

  // ---------------------------------------------------------------- overwrite protection

  ghost predicate MovesTag(s: State, t: State, path: string, tag: string) {
    && tag in TagFiles(s, path) && tag in TagFiles(t, path)
    && TagFiles(s, path)[tag] != TagFiles(t, path)[tag]
  }

  /** The policy in force keeps the tag where it is: Immutable every tag, a pattern those that match it. */
  ghost predicate ProtectsTag(env: Env, s: State, path: string, tag: string) {
    var policy := PolicyInForce(GetOr(s.rows, path, NO_ROWS));
    policy.mode == Immutable || (policy.mode == Pattern && env.compiles(policy.pattern) && env.matches(policy.pattern, tag))
  }

  /**
   The policy that was checked is still the one in force: the repository has a tag row, so its row cannot have gone
   in between, or no policy has ever stood without its repository.
   */
  ghost predicate PolicyIsFixed(env: Env, run: seq<Action>, k: nat, path: string)
    requires ValidRun(env, EMPTY, run) && k <= |run|
  {
    || HasTagRow(Trace(env, EMPTY, run)[k], path)
    || forall i :: 0 <= i <= k ==> RootedAt(env, run, i, path)
  }

  /** No step moves a protected tag while the policy is fixed. */
  lemma {:induction false} StepMovesUnprotected(env: Env, run: seq<Action>, k: nat, path: string, tag: string)
    requires Sensible(env, run) && k < |run| && PolicyIsFixed(env, run, k, path)
    requires MovesTag(Trace(env, EMPTY, run)[k], Trace(env, EMPTY, run)[k + 1], path, tag)
    ensures !ProtectsTag(env, Trace(env, EMPTY, run)[k], path, tag)
  {
    StepAt(env, run, k, path);
    InvAt(env, run, k, path);
    FaultsOfRun(env, run, k, path);
    PoliciesStayRootedExactly(env, run, k, path);
    hide Can;
    hide Trace;
    hide RootedAt;
    hide StoresStray;
    var l, next := View(Trace(env, EMPTY, run)[k], path, path), View(Trace(env, EMPTY, run)[k + 1], path, path);
    assert Moves(l, next, tag);
    MoveIsPermitted(env, l, run[k].event, tag);
  }

  /** A tag that is moved has its row, unless a rollback write failed or an unlocked delete took tag rows before. */
  lemma {:induction false} MovedTagsAreRecorded(env: Env, run: seq<Action>, k: nat, path: string, tag: string)
    requires Sensible(env, run) && k < |run|
    requires MovesTag(Trace(env, EMPTY, run)[k], Trace(env, EMPTY, run)[k + 1], path, tag)
    requires forall i :: 0 <= i < k ==> !FailsUndo(run, i, path) && !ErasesAt(env, run, i, path)
    ensures tag in RecordedTags(Trace(env, EMPTY, run)[k], path) && PolicyIsFixed(env, run, k, path)
  {
    StepAt(env, run, k, path);
    InvAt(env, run, k, path);
    FaultsOfRun(env, run, k, path);
    hide Can;
    hide Trace;
    hide Inv;
    hide Enabled;
    hide Apply;
    hide Strands;
    hide Tears;
    hide StoresStray;
    hide FailsUndo;
    hide ErasesAt;
    hide RootedAt;
    var l, next := View(Trace(env, EMPTY, run)[k], path, path), View(Trace(env, EMPTY, run)[k + 1], path, path);
    assert Moves(l, next, tag);
    MovedTagIsRecorded(env, l, run[k].event, tag);
  }

  /**
   Overwrite protection over whole runs, whatever failed in them: between two moments of a run at which a tag names
   different digests, with the tag never deleted in between, some step moved the tag; and the policy in force at that
   step did not protect it, unless the policy was not fixed there.
   */
  lemma {:induction false} OverwriteProtection(env: Env, run: seq<Action>, i: nat, j: nat, path: string, tag: string)
    requires Sensible(env, run) && i < j <= |run|
    requires forall k :: i <= k <= j ==> tag in TagFiles(Trace(env, EMPTY, run)[k], path)
    requires TagFiles(Trace(env, EMPTY, run)[i], path)[tag] != TagFiles(Trace(env, EMPTY, run)[j], path)[tag]
    ensures exists k :: (
      && i <= k < j
      && MovesTag(Trace(env, EMPTY, run)[k], Trace(env, EMPTY, run)[k + 1], path, tag)
      && (PolicyIsFixed(env, run, k, path) ==> !ProtectsTag(env, Trace(env, EMPTY, run)[k], path, tag)))
    decreases j - i
  {
    hide Can;
    hide Step;
    hide ValidRun;
    hide PolicyIsFixed;
    hide ProtectsTag;
    var states := Trace(env, EMPTY, run);
    if TagFiles(states[j - 1], path)[tag] != TagFiles(states[j], path)[tag] {
      assert MovesTag(states[j - 1], states[j - 1 + 1], path, tag);
      if PolicyIsFixed(env, run, j - 1, path) {
        StepMovesUnprotected(env, run, j - 1, path, tag);
      }
    } else {
      OverwriteProtection(env, run, i, j - 1, path, tag);
    }
  }
}
