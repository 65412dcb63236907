/**
 Runs that show that the conditions of the run theorems are needed: a policy stored after its repository has gone, tag
 rows taken by a delete that does not look again, tags stranded by a removal that stops half-way, and content torn by a
 write that fails. Every request in them uses a canonical name, the same in the whole run.
 */
module TagFailures {
  import opened Wrappers
  import opened Names
  import opened ReadModel
  import opened TagMachine
  import opened TagInvariants
  import opened TagRuns
  import opened TagNames
  import opened TagSteps

  /** Under a canonical name any steps at all, locked or not, are a run of the registry. */
  lemma {:induction false} EmbedCanonical(env: Env, s: State, path: string, es: seq<Event>, k: Local)
    requires Canonical(path) && (path in s.jobs ==> s.jobs[path].name == path)
    requires Runs(env, View(s, path, path), es, k)
    ensures ValidRun(env, s, Under(path, es))
    ensures
      var t := After(env, s, Under(path, es));
      View(t, path, path) == k && (path in t.jobs ==> t.jobs[path].name == path)
    decreases es
  {
    hide Enabled;
    hide Apply;
    var run := Under(path, es);
    if es != [] {
      CanHere(env, s, path, es[0]);
      StepViews(env, s, run[0], path);
      hide Can;
      hide Step;
      hide Enabled;
      hide Apply;
      EmbedCanonical(env, Step(env, s, run[0]), path, es[1..], k);
      assert run[1..] == Under(path, es[1..]);
    }
  }

  lemma {:induction false} CanHere(env: Env, s: State, path: string, e: Event)
    requires Canonical(path) && (path in s.jobs ==> s.jobs[path].name == path)
    requires Enabled(env, View(s, path, path), e)
    ensures Can(env, s, On(path, e))
    ensures
      var t := Step(env, s, On(path, e));
      path in t.jobs ==> t.jobs[path].name == path
  {
    hide Enabled;
    hide Apply;
  }

  lemma {:induction false} CanonicalStep(env: Env, s: State, path: string, e: Event)
    requires Canonical(path) && Can(env, s, On(path, e))
    ensures Enabled(env, View(s, path, path), e)
    ensures View(Step(env, s, On(path, e)), path, path) == Apply(env, View(s, path, path), e)
  {
    StepViews(env, s, On(path, e), path);
    hide Step;
    hide Apply;
    hide Enabled;
  }

  lemma {:induction false} OneRepository(run: seq<Action>, path: string)
    requires Canonical(path) && forall a :: a in run ==> a.name == path && !a.event.BeginCollect?
    ensures Independent(run)
  {
    OneDirectory(run, path);
    hide Independent;
  }

  /** The steps so far and one more: a run whose last step starts and ends in these states. */
  lemma {:induction false} RunAndStep(env: Env, path: string, es: seq<Event>, k: Local, e: Event) returns (run: seq<Action>, i: nat)
    requires Sound(env) && Canonical(path)
    requires Runs(env, View(EMPTY, path, path), es, k) && Enabled(env, k, e)
    requires Uncollected(es) && !e.BeginCollect?
    ensures Sensible(env, run) && i + 1 == |run| && run == Under(path, es) + [On(path, e)]
    ensures View(Trace(env, EMPTY, run)[i], path, path) == k
    ensures View(Trace(env, EMPTY, run)[i + 1], path, path) == Apply(env, k, e)
  {
    hide Runs;
    hide Can;
    hide Step;
    hide Enabled;
    hide Apply;
    hide Trace;
    hide Canonical;
    var first := Under(path, es);
    EmbedCanonical(env, EMPTY, path, es, k);
    var s := After(env, EMPTY, first);
    CanHere(env, s, path, e);
    CanonicalStep(env, s, path, e);
    var last := [On(path, e)];
    RunOne(env, s, last[0]);
    RunConcat(env, EMPTY, first, last);
    run, i := first + last, |first|;
    OneRepository(run, path);
    assert Trace(env, EMPTY, run)[i + 0] == s;
    assert Trace(env, EMPTY, run)[i + 1] == Step(env, s, last[0]);
  }

  // ---------------------------------------------------------------- a stray policy

  const STRAY := Policy(Immutable, "")

  /** A policy update looks its repository up, the repository is dropped without the lock, and the policy is stored. */
  lemma {:induction false} StrayPolicyStored(env: Env, l: Local) returns (es: seq<Event>, k: Local)
    requires l.job.None? && l.rows == NO_ROWS
    ensures NoneFails(es) && Uncollected(es)
    ensures Runs(env, l, es, k)
    ensures k == l.(rows := Rows(None, map[], Some(STRAY)), faults := k.faults)
  {
    NoSteps(env, l);
    hide Runs;
    es, k := Extend(env, l, [], l, PullManifest("", 0));
    assert k.rows.tags == map[];
    es, k := Extend(env, l, es, k, BeginPolicy(STRAY));
    es, k := DroppedUnderPolicy(env, l, es, k);
  }

  lemma {:induction false} DroppedUnderPolicy(env: Env, l: Local, es0: seq<Event>, m: Local) returns (es: seq<Event>, k: Local)
    requires Runs(env, l, es0, m) && m.job == Some(SettingPolicy(STRAY)) && m.rows.tags == map[] && m.rows.repository.Some?
    ensures (NoneFails(es0) ==> NoneFails(es)) && (Uncollected(es0) ==> Uncollected(es))
    ensures Runs(env, l, es, k)
    ensures k == m.(job := None, rows := Rows(None, map[], Some(STRAY)), faults := k.faults)
  {
    hide Runs;
    es, k := Extend(env, l, es0, m, DropRepository);
    es, k := Extend(env, l, es, k, StorePolicy);
  }

  /** A push whose database write fails, and whose rollback fails as well. */
  lemma {:induction false} PushLeftBehind(env: Env, l: Local, es0: seq<Event>, m: Local, content: Bytes) returns (es: seq<Event>, k: Local)
    requires Runs(env, l, es0, m) && m.job.None? && m.rows.repository.None? && m.files.tags == map[]
    ensures Uncollected(es0) ==> Uncollected(es)
    ensures Runs(env, l, es, k)
    ensures k.job.None? && k.rows == m.rows && k.name == m.name
    ensures k.files.tags == map[TAG := DigestOf(env, env.algorithm(content), content)]
  {
    hide Runs;
    var fs;
    fs, k := PushToLink(env, m, content);
    RunsConcat(env, l, es0, m, fs, k);
    es := es0 + fs;
    LastLink(env, k);
    es, k := Extend(env, l, es, k, LinkNext);
    assert k.job.value.Linking? && k.job.value.next == 1 == |k.job.value.link.tags|;
    es, k := DoStop(env, l, es, k);
    assert k.job.value.Undoing? && k.job.value.left == 1;
    es, k := LastUndoFails(env, l, es, k);
  }

  lemma {:induction false} LastUndoFails(env: Env, l: Local, es: seq<Event>, m: Local) returns (fs: seq<Event>, k: Local)
    requires Runs(env, l, es, m) && m.job.Some? && m.job.value.Undoing? && m.job.value.left == 1
    requires |m.job.value.link.saved| > 0
    ensures fs == es + [UndoFails]
    ensures Runs(env, l, fs, k) && k == m.(job := None, faults := k.faults)
  {
    fs, k := DoUndoFails(env, l, es, m);
  }

  /** The next push: it reads no policy, and before it links its tag a pull brings the repository row back. */
  lemma {:induction false} PushUnderStray(env: Env, l: Local, es0: seq<Event>, m: Local, content: Bytes) returns (es: seq<Event>, k: Local)
    requires Runs(env, l, es0, m) && m.job.None? && m.rows == Rows(None, map[], Some(STRAY)) && "." !in m.files.tags
    ensures (NoneFails(es0) ==> NoneFails(es)) && (Uncollected(es0) ==> Uncollected(es))
    ensures Runs(env, l, es, k) && Enabled(env, k, LinkNext)
    ensures k.files.tags == m.files.tags && k.rows.tags == map[] && PolicyInForce(k.rows) == STRAY
    ensures Apply(env, k, LinkNext).files.tags == m.files.tags[TAG := DigestOf(env, env.algorithm(content), content)]
  {
    hide Runs;
    var fs;
    fs, k := PushToLink(env, m, content);
    RunsConcat(env, l, es0, m, fs, k);
    var j := k;
    es, k := Extend(env, l, es0 + fs, k, PullManifest("", 0));
    assert k == j.(rows := Pulled(j.rows, "", 0));
    LastLink(env, k);
  }

  lemma {:induction false} StrayRun(env: Env, l: Local, one: Bytes, two: Bytes) returns (es: seq<Event>, k: Local)
    requires l.job.None? && l.rows == NO_ROWS && l.files == NO_FILES
    ensures Uncollected(es)
    ensures Runs(env, l, es, k) && Enabled(env, k, LinkNext)
    ensures k.files.tags == map[TAG := DigestOf(env, env.algorithm(one), one)]
    ensures k.rows.tags == map[] && PolicyInForce(k.rows) == STRAY
    ensures Apply(env, k, LinkNext).files.tags == k.files.tags[TAG := DigestOf(env, env.algorithm(two), two)]
  {
    es, k := StrayPolicyStored(env, l);
    es, k := PushLeftBehind(env, l, es, k, one);
    assert TAG != ".";
    es, k := PushUnderStray(env, l, es, k, two);
    hide *;
  }

  /**
   Where the policy is not fixed a protected tag can be moved, under every canonical name: a stray policy row, a push
   whose rollback fails, a push that reads no policy, and a pull that brings the stray policy into force before
   that push links the tag.
   */
  lemma {:induction false} StrayPolicyOverrides(env: Env, path: string, one: Bytes, two: Bytes) returns (run: seq<Action>, i: nat)
    requires Sound(env) && Canonical(path)
    requires DigestOf(env, env.algorithm(one), one) != DigestOf(env, env.algorithm(two), two)
    ensures Sensible(env, run) && i < |run|
    ensures MovesTag(Trace(env, EMPTY, run)[i], Trace(env, EMPTY, run)[i + 1], path, TAG)
    ensures ProtectsTag(env, Trace(env, EMPTY, run)[i], path, TAG)
    ensures !PolicyIsFixed(env, run, i, path)
  {
    var es, k := StrayRun(env, View(EMPTY, path, path), one, two);
    hide *;
    run, i := OverrideUnderStray(env, path, es, k);
  }

  /** A link that is about to move a tag under the stray policy, as the last step of a run. */
  lemma {:induction false} OverrideUnderStray(env: Env, path: string, es: seq<Event>, k: Local) returns (run: seq<Action>, i: nat)
    requires Sound(env) && Canonical(path) && Uncollected(es)
    requires Runs(env, View(EMPTY, path, path), es, k) && Enabled(env, k, LinkNext)
    requires TAG in k.files.tags && TAG in Apply(env, k, LinkNext).files.tags
    requires k.files.tags[TAG] != Apply(env, k, LinkNext).files.tags[TAG] && PolicyInForce(k.rows) == STRAY
    ensures Sensible(env, run) && i < |run| && (NoneFails(es) ==> NothingFails(run))
    ensures MovesTag(Trace(env, EMPTY, run)[i], Trace(env, EMPTY, run)[i + 1], path, TAG)
    ensures ProtectsTag(env, Trace(env, EMPTY, run)[i], path, TAG)
    ensures !PolicyIsFixed(env, run, i, path)
  {
    hide Runs;
    hide Enabled;
    hide Apply;
    hide Trace;
    hide Independent;
    run, i := RunAndStep(env, path, es, k, LinkNext);
    OverrideSeen(env, Trace(env, EMPTY, run)[i], Trace(env, EMPTY, run)[i + 1], path, k, Apply(env, k, LinkNext));
    LinkFailsNot(es, run, path);
    hide *;
    NotFixed(env, run, i, path, TAG);
  }

  lemma {:induction false} LinkFailsNot(es: seq<Event>, run: seq<Action>, path: string)
    requires run == Under(path, es) + [On(path, LinkNext)]
    ensures NoneFails(es) ==> NothingFails(run)
  {
  }

  lemma {:induction false} OverrideSeen(env: Env, s: State, t: State, path: string, l: Local, k: Local)
    requires View(s, path, path) == l && View(t, path, path) == k
    requires TAG in l.files.tags && TAG in k.files.tags && l.files.tags[TAG] != k.files.tags[TAG]
    requires PolicyInForce(l.rows) == STRAY
    ensures MovesTag(s, t, path, TAG) && ProtectsTag(env, s, path, TAG)
  {
  }

  lemma {:induction false} NotFixed(env: Env, run: seq<Action>, i: nat, path: string, tag: string)
    requires Sensible(env, run) && i < |run|
    requires MovesTag(Trace(env, EMPTY, run)[i], Trace(env, EMPTY, run)[i + 1], path, tag)
    requires ProtectsTag(env, Trace(env, EMPTY, run)[i], path, tag)
    ensures !PolicyIsFixed(env, run, i, path)
  {
    if PolicyIsFixed(env, run, i, path) {
      StepMovesUnprotected(env, run, i, path, tag);
    }
    hide *;
  }

  // ---------------------------------------------------------------- stranded tags and torn content

  /** A pushed tag, seen from its repository. */
  lemma {:induction false} Pushed(env: Env, l: Local, content: Bytes) returns (es: seq<Event>, k: Local)
    requires Sound(env) && Inv(env, l) && l.job.None? && l.rows == NO_ROWS && l.files == NO_FILES && l.faults == NO_FAULTS
    ensures Uncollected(es)
    ensures Runs(env, l, es, k) && Inv(env, k) && k.job.None?
    ensures TAG in k.files.tags && "." !in k.files.tags
    ensures k.files.tags[TAG] == DigestOf(env, env.algorithm(content), content) && k.files.tags[TAG] in k.files.manifests
  {
    es, k := PushRecorded(env, l, content);
    RunsKeep(env, l, es, k);
    assert TAG != ".";
  }

  lemma {:induction false} EmptyLocalInv(env: Env, path: string)
    ensures Inv(env, View(EMPTY, path, path))
  {
  }

  lemma {:induction false} HashesMeansValid(env: Env, content: Bytes)
    requires Sound(env)
    ensures
      var digest := DigestOf(env, env.algorithm(content), content);
      Hashes(env, digest, content) && ValidDigest(digest) && DigestReference(digest)
  {
    TagsAreNotDigests(DigestOf(env, env.algorithm(content), content));
  }

  lemma {:induction false} DeletedButTag(env: Env, l: Local, es0: seq<Event>, m: Local, digest: string) returns (es: seq<Event>, k: Local)
    requires Runs(env, l, es0, m) && m.job.None? && ValidDigest(digest) && DigestReference(digest)
    requires digest in m.files.manifests && TAG in m.files.tags && m.files.tags[TAG] == digest
    ensures Uncollected(es0) ==> Uncollected(es)
    ensures Runs(env, l, es, k)
    ensures k.job.Some? && k.job.value.Untagging? && k.job.value.reference == digest
    ensures k.files.tags == m.files.tags && digest !in k.files.manifests
  {
    hide Runs;
    assert TAG in Named(m.files, digest);
    es, k := Extend(env, l, es0, m, BeginDelete(digest));
    assert k == m.(job := Some(Removing(digest)));
    es, k := DoRemoveManifest(env, l, es, k);
  }

  lemma {:induction false} UntagStops(env: Env, k: Local)
    requires k.job.Some? && k.job.value.Untagging? && DigestReference(k.job.value.reference)
    ensures Enabled(env, k, UntagFails) && StrandsTags(k, UntagFails)
    ensures Apply(env, k, UntagFails) == k.(job := None, faults := k.faults.(removal := true))
  {
  }

  /** A manifest is deleted, and the tag that names it cannot be removed: with the lock free again, the tag dangles. */
  lemma {:induction false} StrandedTag(env: Env, path: string, content: Bytes) returns (run: seq<Action>, i: nat)
    requires Sound(env) && Canonical(path)
    ensures Sensible(env, run) && i < |run| && Strands(env, run, i, path)
    ensures
      var s := Trace(env, EMPTY, run)[i + 1];
      path !in s.jobs && !TagsResolve(s, path) && TAG in TagFiles(s, path)
  {
    var l := View(EMPTY, path, path);
    EmptyLocalInv(env, path);
    HashesMeansValid(env, content);
    var es, k := Pushed(env, l, content);
    hide Runs;
    var digest := k.files.tags[TAG];
    es, k := DeletedButTag(env, l, es, k, digest);
    UntagStops(env, k);
    hide Independent;
    hide Enabled;
    hide Apply;
    hide StrandsTags;
    run, i := RunAndStep(env, path, es, k, UntagFails);
    hide Trace;
    hide Sensible;
  }

  /**
   A manifest that a tag names is pushed again, and the write of its content stops at once: with the lock free again,
   the tag names content that does not hash to its digest.
   */
  lemma {:induction false} TornContent(env: Env, path: string, content: Bytes) returns (run: seq<Action>, i: nat)
    requires Sound(env) && Canonical(path) && !Hashes(env, DigestOf(env, env.algorithm(content), content), [])
    ensures Sensible(env, run) && i < |run| && Tears(env, run, i, path)
    ensures
      var s := Trace(env, EMPTY, run)[i + 1];
      var files := GetOr(s.files, path, NO_FILES);
      && path !in s.jobs && TAG in files.tags
      && files.tags[TAG] in files.manifests && files.manifests[files.tags[TAG]].content == Some([])
      && !ContentsHash(env, s, path)
  {
    var l := View(EMPTY, path, path);
    EmptyLocalInv(env, path);
    var es, k := Pushed(env, l, content);
    var digest := k.files.tags[TAG];
    es, k := PushedAgain(env, l, es, k, content);
    hide Runs;
    hide Inv;
    hide Independent;
    var fails := WriteContentFails(Some([]));
    WriteTears(env, k, digest);
    hide Enabled;
    hide Apply;
    hide TearsContent;
    run, i := RunAndStep(env, path, es, k, fails);
    hide Trace;
    hide Sensible;
  }

  lemma {:induction false} WriteTears(env: Env, l: Local, digest: string)
    requires l.job.Some? && l.job.value.Storing? && l.job.value.digest == digest && !l.job.value.written
    requires digest in l.files.manifests && !Hashes(env, digest, [])
    ensures
      var fails := WriteContentFails(Some([]));
      && Enabled(env, l, fails) && TearsContent(env, l, fails)
      && var k := Apply(env, l, fails);
         && k.job.None? && k.files.tags == l.files.tags
         && digest in k.files.manifests && k.files.manifests[digest].content == Some([])
  {
  }

  lemma {:induction false} PushedAgain(env: Env, l: Local, es0: seq<Event>, m: Local, content: Bytes) returns (es: seq<Event>, k: Local)
    requires Runs(env, l, es0, m) && m.job.None?
    ensures Uncollected(es0) ==> Uncollected(es)
    ensures Runs(env, l, es, k)
    ensures k == m.(job := Some(Storing(DigestOf(env, env.algorithm(content), content), "", content, [TAG], 0, false)))
  {
    hide Runs;
    TagIsStorable();
    es, k := Extend(env, l, es0, m, BeginPush(TAG, "", content, [TAG], 0));
  }

  // ---------------------------------------------------------------- files and rows that part

  /** The steps as a run of the registry, seen from its end. */
  lemma {:induction false} RunOf(env: Env, path: string, es: seq<Event>, k: Local) returns (run: seq<Action>)
    requires Sound(env) && Canonical(path) && Runs(env, View(EMPTY, path, path), es, k) && Uncollected(es)
    ensures run == Under(path, es)
    ensures Sensible(env, run) && View(Trace(env, EMPTY, run)[|run|], path, path) == k
  {
    hide Runs;
    hide Can;
    hide Step;
    hide Trace;
    hide Canonical;
    run := Under(path, es);
    EmbedCanonical(env, EMPTY, path, es, k);
    OneRepository(run, path);
  }

  predicate NothingFails(run: seq<Action>) {
    forall a :: a in run ==> !Failing(a.event)
  }

  /** A push whose database write and rollback both fail leaves a tag without a row, with the lock free again. */
  lemma {:induction false} UnrecordedTag(env: Env, path: string, content: Bytes) returns (run: seq<Action>)
    requires Sound(env) && Canonical(path)
    ensures Sensible(env, run)
    ensures
      var s := Trace(env, EMPTY, run)[|run|];
      path !in s.jobs && TAG in TagFiles(s, path) && TAG !in RecordedTags(s, path)
  {
    var l := View(EMPTY, path, path);
    NoSteps(env, l);
    hide Runs;
    var es, k := PushLeftBehind(env, l, [], l, content);
    run := RunOf(env, path, es, k);
    hide Sensible;
    hide Trace;
  }

  /** A push is recorded, and a delete of the repository that listed no tags before takes its row. */
  lemma {:induction false} RowsTaken(env: Env, l: Local, content: Bytes) returns (es: seq<Event>, k: Local)
    requires l.job.None? && l.rows == NO_ROWS && l.files == NO_FILES
    ensures Runs(env, l, es, k) && NoneFails(es) && Uncollected(es)
    ensures k.job.None? && k.rows == NO_ROWS && k.name == l.name
    ensures k.files.tags == map[TAG := DigestOf(env, env.algorithm(content), content)]
  {
    hide Runs;
    es, k := PushRecorded(env, l, content);
    assert k.files.tags == map[TAG := k.files.tags[TAG]];
    es, k := Extend(env, l, es, k, DropRepository);
  }

  /** Without any failure a tag can lose its row, with the lock free again: the delete does not look again. */
  lemma {:induction false} ErasedRow(env: Env, path: string, content: Bytes) returns (run: seq<Action>)
    requires Sound(env) && Canonical(path)
    ensures Sensible(env, run) && NothingFails(run)
    ensures
      var s := Trace(env, EMPTY, run)[|run|];
      path !in s.jobs && TAG in TagFiles(s, path) && TAG !in RecordedTags(s, path)
  {
    var l := View(EMPTY, path, path);
    hide Runs;
    var es, k := RowsTaken(env, l, content);
    run := RunOf(env, path, es, k);
    hide Sensible;
    hide Trace;
  }

  lemma {:induction false} ErasedRun(env: Env, l: Local, one: Bytes, two: Bytes) returns (es: seq<Event>, k: Local)
    requires l.job.None? && l.rows == NO_ROWS && l.files == NO_FILES
    ensures NoneFails(es) && Uncollected(es)
    ensures Runs(env, l, es, k) && Enabled(env, k, LinkNext)
    ensures k.files.tags == map[TAG := DigestOf(env, env.algorithm(one), one)]
    ensures k.rows.tags == map[] && PolicyInForce(k.rows) == STRAY
    ensures Apply(env, k, LinkNext).files.tags == k.files.tags[TAG := DigestOf(env, env.algorithm(two), two)]
  {
    hide Runs;
    es, k := RowsTaken(env, l, one);
    var m := k;
    var fs;
    fs, k := StrayPolicyStored(env, m);
    RunsConcat(env, l, es, m, fs, k);
    assert TAG != ".";
    es, k := PushUnderStray(env, l, es + fs, k, two);
    hide *;
  }

  /**
   Nor does it take a failure to move a protected tag: its row is taken, a pull brings the repository row back, a
   policy update finds that row, another delete takes it, the policy is stored, a push reads none, and a pull brings
   the policy into force before that push links the tag.
   */
  lemma {:induction false} ErasedRowOverrides(env: Env, path: string, one: Bytes, two: Bytes) returns (run: seq<Action>, i: nat)
    requires Sound(env) && Canonical(path)
    requires DigestOf(env, env.algorithm(one), one) != DigestOf(env, env.algorithm(two), two)
    ensures Sensible(env, run) && NothingFails(run) && i < |run|
    ensures MovesTag(Trace(env, EMPTY, run)[i], Trace(env, EMPTY, run)[i + 1], path, TAG)
    ensures ProtectsTag(env, Trace(env, EMPTY, run)[i], path, TAG)
    ensures !PolicyIsFixed(env, run, i, path)
  {
    var es, k := ErasedRun(env, View(EMPTY, path, path), one, two);
    hide *;
    run, i := OverrideUnderStray(env, path, es, k);
  }

  /** A tag that is deleted while the database write fails keeps its row without a file, with the lock free again. */
  lemma {:induction false} StaleRow(env: Env, path: string, content: Bytes) returns (run: seq<Action>)
    requires Sound(env) && Canonical(path)
    ensures Sensible(env, run)
    ensures
      var s := Trace(env, EMPTY, run)[|run|];
      path !in s.jobs && TAG !in TagFiles(s, path) && TAG in RecordedTags(s, path)
  {
    var l := View(EMPTY, path, path);
    hide Runs;
    var es, k := PushRecorded(env, l, content);
    es, k := DeletedButRow(env, l, es, k);
    run := RunOf(env, path, es, k);
    hide Sensible;
    hide Trace;
  }

  lemma {:induction false} DeletedButRow(env: Env, l: Local, es0: seq<Event>, m: Local) returns (es: seq<Event>, k: Local)
    requires Runs(env, l, es0, m) && m.job.None? && TAG in m.files.tags && TAG in m.rows.tags
    ensures Uncollected(es0) ==> Uncollected(es)
    ensures Runs(env, l, es, k)
    ensures k.job.None? && TAG !in k.files.tags && TAG in k.rows.tags
  {
    hide Runs;
    TagIsStorable();
    es, k := Extend(env, l, es0, m, BeginDelete(TAG));
    assert k == m.(job := Some(Untagging(TAG, m.files.tags[TAG], {TAG})));
    hide Enabled;
    hide Apply;
    es, k := DoUntag(env, l, es, k, TAG);
    es, k := DoUnrecordFails(env, l, es, k);
  }
}
