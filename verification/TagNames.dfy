/**
 The directory of a repository drops leading and trailing slashes of its name, while the policy is looked
 up under the name as it was spelled. Overwrite protection holds for requests under a name exactly when
 the two coincide.
 */
module TagNames {
  import opened Wrappers
  import opened Names
  import opened ReadModel
  import opened TagMachine
  import opened TagInvariants
  import opened TagRuns
  import opened TagSteps
  import Layout

  ghost predicate OnlyUnder(run: seq<Action>, name: string) {
    forall a :: a in run ==> CanonicalAction(a) || a.name == name
  }

  /** The step after `i` moves the tag although the policy of its repository protects it and is fixed. */
  ghost predicate Overrides(env: Env, run: seq<Action>, i: nat, path: string, tag: string)
    requires ValidRun(env, EMPTY, run) && i < |run|
  {
    var states := Trace(env, EMPTY, run);
    && PolicyIsFixed(env, run, i, path)
    && MovesTag(states[i], states[i + 1], path, tag)
    && ProtectsTag(env, states[i], path, tag)
  }

  /** No run with requests under canonical names and this one ever moves a protected tag. */
  ghost predicate Guarded(env: Env, name: string) {
    forall run: seq<Action>, i: nat, path: string, tag: string ::
      ValidRun(env, EMPTY, run) && Independent(run) && OnlyUnder(run, name) && i < |run| ==> !Overrides(env, run, i, path, tag)
  }

  // ---------------------------------------------------------------- building runs

  ghost function After(env: Env, s: State, run: seq<Action>): State
    requires ValidRun(env, s, run)
  {
    Trace(env, s, run)[|run|]
  }

  lemma {:induction false} RunConcat(env: Env, s: State, first: seq<Action>, second: seq<Action>)
    requires ValidRun(env, s, first) && ValidRun(env, After(env, s, first), second)
    ensures ValidRun(env, s, first + second)
    ensures After(env, s, first + second) == After(env, After(env, s, first), second)
    ensures forall j :: 0 <= j <= |second| ==>
      Trace(env, s, first + second)[|first| + j] == Trace(env, After(env, s, first), second)[j]
    decreases first
  {
    hide Can;
    hide Step;
    hide GetOr;
    if first == [] {
      assert first + second == second;
    } else {
      RunConcat(env, Step(env, s, first[0]), first[1..], second);
      assert (first + second)[1..] == first[1..] + second;
    }
  }

  lemma {:induction false} RunOne(env: Env, s: State, a: Action)
    requires Can(env, s, a)
    ensures ValidRun(env, s, [a]) && Trace(env, s, [a]) == [s, Step(env, s, a)]
  {
    hide Can;
    hide Step;
    assert [a][1..] == [];
  }

  function Under(name: string, es: seq<Event>): (run: seq<Action>)
    ensures |run| == |es| && forall i :: 0 <= i < |es| ==> run[i] == On(name, es[i])
  {
    seq(|es|, i requires 0 <= i < |es| => On(name, es[i]))
  }

  lemma {:induction false} StepUnder(env: Env, s: State, name: string, path: string, e: Event)
    requires RepositoryPath(name) == Some(path) && !Unlocked(e)
    requires path in s.jobs ==> s.jobs[path].name == name
    requires Enabled(env, View(s, name, path), e)
    ensures Can(env, s, On(name, e))
    ensures
      var t := Step(env, s, On(name, e));
      && View(t, name, path) == Apply(env, View(s, name, path), e)
      && (path in t.jobs ==> t.jobs[path].name == name)
      && (forall n :: n != name ==> GetOr(t.rows, n, NO_ROWS) == GetOr(s.rows, n, NO_ROWS))
  {
    hide Enabled;
    hide Apply;
    ApplyKeepsName(env, View(s, name, path), e);
  }

  /** The run of one lock section is a run of the registry that touches only its own directory and rows. */
  lemma {:induction false} Embed(env: Env, s: State, name: string, path: string, es: seq<Event>, k: Local)
    requires RepositoryPath(name) == Some(path)
    requires path in s.jobs ==> s.jobs[path].name == name
    requires forall e :: e in es ==> !Unlocked(e)
    requires Runs(env, View(s, name, path), es, k)
    ensures ValidRun(env, s, Under(name, es))
    ensures
      var t := After(env, s, Under(name, es));
      && View(t, name, path) == k
      && (path in t.jobs ==> t.jobs[path].name == name)
      && (forall n :: n != name ==> GetOr(t.rows, n, NO_ROWS) == GetOr(s.rows, n, NO_ROWS))
    decreases es
  {
    hide Enabled;
    hide Apply;
    var run := Under(name, es);
    if es != [] {
      var l := View(s, name, path);
      StepUnder(env, s, name, path, es[0]);
      hide Can;
      hide Step;
      hide Enabled;
      hide Apply;
      var t := Step(env, s, run[0]);
      Embed(env, t, name, path, es[1..], k);
      assert run[1..] == Under(name, es[1..]);
    }
  }

  const TAG := "t"

  lemma {:induction false} TagIsStorable()
    ensures ValidTag(TAG) && TAG != "." && !DigestReference(TAG)
  {
    assert TAG[0] == 't';
  }

  /** The manifest of a push is stored. */
  lemma {:induction false} PushStored(env: Env, l: Local, content: Bytes) returns (es: seq<Event>, k: Local)
    requires l.job.None?
    ensures Runs(env, l, es, k) && (forall e :: e in es ==> !Unlocked(e)) && NoneFails(es) && Uncollected(es)
    ensures k.name == l.name && k.files.tags == l.files.tags && k.rows == l.rows && k.faults == l.faults
    ensures
      var digest := DigestOf(env, env.algorithm(content), content);
      digest in k.files.manifests && k.job == Some(Starting(digest, "", env.estimate(content), [TAG], 0))
  {
    hide Runs;
    hide Enabled;
    hide Apply;
    hide Hashes;
    TagIsStorable();
    es, k := DoBeginPush(env, l, TAG, "", content, [TAG], 0);
    es, k := DoWriteContent(env, l, es, k);
    es, k := DoWriteMedia(env, l, es, k);
  }

  /** A push under a name without protection, up to the moment before its tag is linked. */
  lemma {:induction false} PushToLink(env: Env, l: Local, content: Bytes) returns (es: seq<Event>, k: Local)
    requires l.job.None? && PolicyInForce(l.rows) == DEFAULT_POLICY && "." !in l.files.tags
    ensures Runs(env, l, es, k) && (forall e :: e in es ==> !Unlocked(e)) && NoneFails(es) && Uncollected(es)
    ensures k.name == l.name && k.files.tags == l.files.tags && k.rows == l.rows && k.faults == l.faults
    ensures k.job.Some? && k.job.value.Linking? && k.job.value.next == 0 && k.job.value.link.tags == [TAG]
    ensures |k.job.value.link.saved| == 1
    ensures k.job.value.link.digest == DigestOf(env, env.algorithm(content), content)
    ensures k.job.value.link.digest in k.files.manifests
  {
    hide Runs;
    hide Enabled;
    hide Apply;
    hide Hashes;
    es, k := PushStored(env, l, content);
    TagIsStorable();
    es, k := DoReadPolicy(env, l, es, k);
    es, k := DoCheck(env, l, es, k);
  }

  lemma {:induction false} LastLink(env: Env, l: Local)
    requires l.job.Some? && l.job.value.Linking? && l.job.value.next == 0 && l.job.value.link.tags == [TAG]
    requires l.job.value.link.digest in l.files.manifests && "." !in l.files.tags
    ensures Enabled(env, l, LinkNext)
    ensures Apply(env, l, LinkNext) ==
      l.(files := TagLinked(l.files, TAG, l.job.value.link.digest), job := Some(Linking(l.job.value.link, 1)))
  {
  }

  lemma {:induction false} CommitEnds(env: Env, l: Local)
    requires l.job.Some? && l.job.value.Linking? && l.job.value.next == |l.job.value.link.tags| == 1
    ensures Enabled(env, l, Commit)
    ensures Apply(env, l, Commit) ==
      l.(rows := Upserted(l.rows, LinkParams(l.name, l.job.value.link), l.job.value.link.now), job := None)
  {
  }

  /** The tag of a push is linked and recorded. */
  lemma {:induction false} PushRecorded(env: Env, l: Local, content: Bytes) returns (es: seq<Event>, k: Local)
    requires l.job.None? && PolicyInForce(l.rows) == DEFAULT_POLICY && "." !in l.files.tags
    ensures Runs(env, l, es, k) && (forall e :: e in es ==> !Unlocked(e)) && NoneFails(es) && Uncollected(es)
    ensures k.job.None? && k.faults == l.faults && k.rows.repository.Some? && TAG in k.rows.tags
    ensures k.name == l.name && k.files.tags.Keys == l.files.tags.Keys + {TAG}
    ensures k.files.tags[TAG] in k.files.manifests
    ensures TAG in k.files.tags && k.files.tags[TAG] == DigestOf(env, env.algorithm(content), content)
  {
    hide Runs;
    hide Enabled;
    hide Apply;
    hide Upserted;
    es, k := PushToLink(env, l, content);
    var link := k.job.value.link;
    LastLink(env, k);
    es, k := Extend(env, l, es, k, LinkNext);
    CommitEnds(env, k);
    CommittedRows(k.name, link, k.rows);
    es, k := Extend(env, l, es, k, Commit);
    assert TAG in k.rows.tags;
  }

  /** A first push of a tag, then a policy that makes it immutable. */
  lemma {:induction false} PushAndProtect(env: Env, l: Local, content: Bytes) returns (es: seq<Event>, k: Local)
    requires l.job.None? && l.rows == NO_ROWS && "." !in l.files.tags
    ensures Runs(env, l, es, k) && (forall e :: e in es ==> !Unlocked(e)) && Uncollected(es)
    ensures k.job.None? && k.faults == l.faults && PolicyInForce(k.rows).mode == Immutable && k.rows.tags != map[]
    ensures "." !in k.files.tags
    ensures TAG in k.files.tags && k.files.tags[TAG] == DigestOf(env, env.algorithm(content), content)
  {
    es, k := PushRecorded(env, l, content);
    es, k := ProtectTags(env, l, es, k);
    hide *;
  }

  lemma {:induction false} ProtectTags(env: Env, l: Local, es0: seq<Event>, m: Local) returns (es: seq<Event>, k: Local)
    requires Runs(env, l, es0, m) && m.job.None? && m.rows.repository.Some?
    requires (forall e :: e in es0 ==> !Unlocked(e)) && Uncollected(es0)
    ensures Runs(env, l, es, k) && (forall e :: e in es ==> !Unlocked(e)) && Uncollected(es)
    ensures k.job.None? && k.faults == m.faults && k.files == m.files && k.rows.tags == m.rows.tags
    ensures PolicyInForce(k.rows).mode == Immutable
  {
    hide Runs;
    es, k := Extend(env, l, es0, m, BeginPolicy(Policy(Immutable, "")));
    es, k := Extend(env, l, es, k, StorePolicy);
  }

  /** The registry after a tag was pushed under a canonical name and made immutable. */
  lemma {:induction false} ProtectedTag(env: Env, path: string, content: Bytes) returns (run: seq<Action>)
    requires Canonical(path)
    ensures ValidRun(env, EMPTY, run) && forall a :: a in run ==> a.name == path && !a.event.BeginCollect?
    ensures
      var s := After(env, EMPTY, run);
      && path !in s.jobs && GetOr(s.faults, path, NO_FAULTS) == NO_FAULTS
      && PolicyInForce(GetOr(s.rows, path, NO_ROWS)).mode == Immutable && HasTagRow(s, path)
      && "." !in TagFiles(s, path)
      && (forall n :: n != path ==> GetOr(s.rows, n, NO_ROWS) == NO_ROWS)
      && TAG in TagFiles(s, path) && TagFiles(s, path)[TAG] == DigestOf(env, env.algorithm(content), content)
  {
    var es, k := PushAndProtect(env, View(EMPTY, path, path), content);
    Embed(env, EMPTY, path, path, es, k);
    run := Under(path, es);
    var s := After(env, EMPTY, run);
    assert View(s, path, path) == k;
  }

  /** A push of other content under another name of the same directory reaches its link step. */
  lemma {:induction false} PushUnder(env: Env, s: State, name: string, path: string, content: Bytes) returns (run: seq<Action>)
    requires RepositoryPath(name) == Some(path) && name != path && path !in s.jobs
    requires GetOr(s.rows, name, NO_ROWS) == NO_ROWS && "." !in TagFiles(s, path)
    ensures ValidRun(env, s, run) && forall a :: a in run ==> a.name == name && !a.event.BeginCollect?
    ensures
      var t := After(env, s, run);
      && Can(env, t, On(name, LinkNext))
      && GetOr(t.faults, path, NO_FAULTS) == GetOr(s.faults, path, NO_FAULTS)
      && GetOr(t.rows, path, NO_ROWS) == GetOr(s.rows, path, NO_ROWS)
      && TagFiles(t, path) == TagFiles(s, path)
      && TagFiles(Step(env, t, On(name, LinkNext)), path) ==
           TagFiles(s, path)[TAG := DigestOf(env, env.algorithm(content), content)]
  {
    hide Enabled;
    hide Apply;
    hide Runs;
    hide ValidRun;
    hide Trace;
    var es, k := PushToLink(env, View(s, name, path), content);
    Embed(env, s, name, path, es, k);
    run := Under(name, es);
    var t := After(env, s, run);
    assert View(t, name, path) == k;
    LastLink(env, k);
    StepUnder(env, t, name, path, LinkNext);
    assert View(Step(env, t, On(name, LinkNext)), name, path).files == TagLinked(k.files, TAG, k.job.value.link.digest);
  }

  /** A run that collects no garbage and speaks of one directory keeps its files apart. */
  lemma {:induction false} OneDirectory(run: seq<Action>, path: string)
    requires forall a :: a in run ==> RepositoryPath(a.name) == Some(path) && !a.event.BeginCollect?
    ensures Independent(run)
  {
    forall p, q | p in Directories(run) && q in Directories(run) ensures Layout.Apart(p, q) {
      assert p == q;
    }
  }

  /** Under a name that is not canonical, an immutable tag is moved. */
  lemma {:induction false} UncanonicalOverrides(env: Env, name: string, one: Bytes, two: Bytes)
    returns (run: seq<Action>, i: nat, path: string)
    requires RepositoryPath(name).Some? && !Canonical(name)
    requires DigestOf(env, env.algorithm(one), one) != DigestOf(env, env.algorithm(two), two)
    ensures ValidRun(env, EMPTY, run) && Independent(run) && OnlyUnder(run, name) && i < |run|
    ensures Overrides(env, run, i, path, TAG)
  {
    hide Can;
    hide Step;
    hide ValidRun;
    hide Trace;
    path := RepositoryPath(name).value;
    PathIsCanonical(name);
    var first := ProtectedTag(env, path, one);
    var s := After(env, EMPTY, first);
    var second := PushUnder(env, s, name, path, two);
    var t := After(env, s, second);
    RunConcat(env, EMPTY, first, second);
    var last := [On(name, LinkNext)];
    RunOne(env, t, last[0]);
    run, i := first + second + last, |first + second|;
    RunConcat(env, EMPTY, first + second, last);
    OneDirectory(run, path);
    assert Trace(env, EMPTY, run)[i + 0] == t;
    assert Trace(env, EMPTY, run)[i + 1] == Step(env, t, last[0]);
  }

  /** Requests under a name respect overwrite protection if and only if the name is canonical. */
  lemma {:induction false} GuardedExactlyWhenCanonical(env: Env, name: string, one: Bytes, two: Bytes)
    requires Sound(env) && RepositoryPath(name).Some?
    requires DigestOf(env, env.algorithm(one), one) != DigestOf(env, env.algorithm(two), two)
    ensures Guarded(env, name) <==> Canonical(name)
  {
    if Canonical(name) {
      forall run: seq<Action>, i: nat, path: string, tag: string
        | ValidRun(env, EMPTY, run) && Independent(run) && OnlyUnder(run, name) && i < |run|
        ensures !Overrides(env, run, i, path, tag)
      {
        if PolicyIsFixed(env, run, i, path) && MovesTag(Trace(env, EMPTY, run)[i], Trace(env, EMPTY, run)[i + 1], path, tag) {
          StepMovesUnprotected(env, run, i, path, tag);
        }
      }
    } else {
      var run, i, path := UncanonicalOverrides(env, name, one, two);
    }
  }
}
