/**
 The tag policy in force, over runs: which steps change it and to what, and what a policy that is not changed does for
 the tags it protects (internal/db/store.go:362-463, internal/httpserver/server.go:730-824).
 */
module TagPolicy {
  import opened Wrappers
  import opened Names
  import opened ReadModel
  import opened TagMachine
  import opened TagInvariants
  import opened TagRuns

  // ---------------------------------------------------------------- one step

  /** The row of a repository comes with a policy that was stored while the row was gone. */
  predicate BringsBack(l: Local, e: Event) {
    (e.PullManifest? || e.Commit?) && l.rows.repository.None? && l.rows.policy.Some?
  }

  lemma PolicyAfterCommit(env: Env, l: Local)
    requires Inv(env, l) && Enabled(env, l, Commit)
    ensures Apply(env, l, Commit).rows.repository.Some? && Apply(env, l, Commit).rows.policy == l.rows.policy
  {
    JobLink(env, l);
    LinkRecords(l.name, l.job.value.link, l.rows);
    hide Inv;
    hide LinkInv;
    hide Upserted;
  }

  lemma PolicyAfterUnrecord(env: Env, l: Local)
    requires Rooted(l.rows) && Enabled(env, l, Unrecord)
    ensures
      var rows := Apply(env, l, Unrecord).rows;
      if rows.tags == map[] then rows.repository.None? && rows.policy.None?
      else rows.repository.Some? && l.rows.repository.Some? && rows.policy == l.rows.policy
  {
    var job := l.job.value;
    var rows := ReferenceDeleted(l.rows, job.reference, job.digest);
    DeleteRecords(l.rows, job.reference, job.digest);
    assert Apply(env, l, Unrecord).rows == rows;
    hide ReferenceDeleted;
    hide Apply;
    if rows.tags != map[] {
      var t :| t in rows.tags;
      assert Get(rows.tags, t).Some? && t in l.rows.tags;
    }
  }

  lemma OtherStepsKeepPolicy(env: Env, l: Local, e: Event)
    requires Enabled(env, l, e) && !e.Commit? && !e.Unrecord?
    ensures
      var rows := Apply(env, l, e).rows;
      && (e.StorePolicy? ==> rows == l.rows.(policy := Some(l.job.value.policy)))
      && (e.DropRepository? ==> rows == if l.rows.repository.Some? then NO_ROWS else l.rows)
      && (e.PullManifest? ==> rows.repository.Some? && rows.policy == l.rows.policy)
      && (!e.StorePolicy? && !e.DropRepository? && !e.PullManifest? ==> rows == l.rows)
  {
  }

  /**
   The policy in force after a step, in terms of the rows before it: what is stored takes force if there is a repository
   row; a delete of the row, and the delete of the last tag, end it; a row that is made brings back a stray policy;
   and any other step leaves it.
   */
  lemma PolicyAfterStep(env: Env, l: Local, e: Event)
    requires Inv(env, l) && Enabled(env, l, e)
    ensures
      var before, after := PolicyInForce(l.rows), PolicyInForce(Apply(env, l, e).rows);
      after ==
        if e.StorePolicy? && l.rows.repository.Some? then l.job.value.policy
        else if e.DropRepository? || (e.Unrecord? && Apply(env, l, e).rows.tags == map[]) then Policy(Mutable, "")
        else if BringsBack(l, e) then l.rows.policy.value
        else before
  {
    if e.Commit? {
      PolicyAfterCommit(env, l);
    } else if e.Unrecord? {
      PolicyAfterUnrecord(env, l);
    } else {
      OtherStepsKeepPolicy(env, l, e);
    }
    hide Enabled;
    hide Apply;
    hide JobInv;
  }

  // ---------------------------------------------------------------- runs

  ghost predicate Reached(env: Env, run: seq<Action>, i: nat) {
    ValidRun(env, EMPTY, run) && i <= |run|
  }

  /** The policy in force for a repository before the i-th step of a run. */
  ghost function PolicyAt(env: Env, run: seq<Action>, i: nat, path: string): Policy
    requires Reached(env, run, i)
  {
    PolicyInForce(GetOr(Trace(env, EMPTY, run)[i].rows, path, NO_ROWS))
  }

  /**
   The steps that can change the policy in force: one that stores a policy, the delete of the repository row, the delete
   of the last tag, and a pull or a push that makes the row of a repository for which a policy was stored without one.
   */
  ghost predicate TouchesPolicy(env: Env, run: seq<Action>, i: nat, path: string)
    requires Reached(env, run, i + 1)
  {
    && run[i].name == path
    && var before, after := GetOr(Trace(env, EMPTY, run)[i].rows, path, NO_ROWS), GetOr(Trace(env, EMPTY, run)[i + 1].rows, path, NO_ROWS);
       var e := run[i].event;
       || e.StorePolicy?
       || (e.DropRepository? && before.repository.Some?)
       || (e.Unrecord? && after.tags == map[])
       || ((e.PullManifest? || e.Commit?) && before.repository.None? && before.policy.Some?)
  }

  /** No other step of a run changes the policy in force. */
  lemma {:induction false} PolicyStays(env: Env, run: seq<Action>, i: nat, path: string)
    requires Sensible(env, run) && i < |run| && Reached(env, run, i + 1) && !TouchesPolicy(env, run, i, path)
    ensures Reached(env, run, i) && PolicyAt(env, run, i + 1, path) == PolicyAt(env, run, i, path)
  {
    StepAt(env, run, i, path);
    InvAt(env, run, i, path);
    hide Can;
    hide Enabled;
    hide Apply;
    hide Trace;
    var l := View(Trace(env, EMPTY, run)[i], path, path);
    if run[i].name == path {
      PolicyAfterStep(env, l, run[i].event);
    }
    hide Inv;
  }

  /** Between two moments at which different policies are in force there was such a step. */
  lemma {:induction false} PolicyChangesOnlyBy(env: Env, run: seq<Action>, i: nat, j: nat, path: string)
    requires Sensible(env, run) && i < j && Reached(env, run, i) && Reached(env, run, j)
    requires PolicyAt(env, run, i, path) != PolicyAt(env, run, j, path)
    ensures exists k :: i <= k < j && Reached(env, run, k + 1) && TouchesPolicy(env, run, k, path)
    decreases j - i
  {
    hide TouchesPolicy;
    hide PolicyAt;
    assert Reached(env, run, j - 1 + 1) && Reached(env, run, j - 1);
    if !TouchesPolicy(env, run, j - 1, path) {
      PolicyStays(env, run, j - 1, path);
      if i < j - 1 {
        PolicyChangesOnlyBy(env, run, i, j - 1, path);
      }
    }
  }

  /** The policies stored, and about to be stored, are ones that can be enforced. */
  ghost predicate PolicyCompiles(env: Env, l: Local) {
    && (l.rows.policy.Some? && l.rows.policy.value.mode == Pattern ==>
          l.rows.policy.value.pattern != "" && env.compiles(l.rows.policy.value.pattern))
    && (l.job.Some? && l.job.value.SettingPolicy? && l.job.value.policy.mode == Pattern ==>
          l.job.value.policy.pattern != "" && env.compiles(l.job.value.policy.pattern))
  }

  lemma StepKeepsCompiling(env: Env, l: Local, e: Event)
    requires Inv(env, l) && Enabled(env, l, e) && PolicyCompiles(env, l)
    ensures PolicyCompiles(env, Apply(env, l, e))
  {
    if e.Commit? {
      PolicyAfterCommit(env, l);
    } else if e.Unrecord? {
      PolicyAfterUnrecord(env, l);
    } else {
      OtherStepsKeepPolicy(env, l, e);
    }
    OnlyBeginsSet(env, l, e);
    hide Inv;
    hide Enabled;
    hide Apply;
  }

  lemma OnlyBeginsSet(env: Env, l: Local, e: Event)
    requires Enabled(env, l, e)
    ensures
      var job := Apply(env, l, e).job;
      job.Some? && job.value.SettingPolicy? ==>
        job == l.job || (e.BeginPolicy? && job.value.policy == e.policy
                         && (e.policy.mode == Pattern ==> e.policy.pattern != "" && env.compiles(e.policy.pattern)))
    ensures e.StorePolicy? ==> l.job.Some? && l.job.value.SettingPolicy?
  {
  }

  /** Whatever runs, a policy in force that is a pattern is one that compiles, so no push fails for a bad pattern. */
  lemma {:induction false} PoliciesCompile(env: Env, run: seq<Action>, i: nat, path: string)
    requires Sensible(env, run) && Reached(env, run, i)
    ensures PolicyCompiles(env, View(Trace(env, EMPTY, run)[i], path, path))
    ensures PolicyAt(env, run, i, path).mode == Pattern ==>
              PolicyAt(env, run, i, path).pattern != "" && env.compiles(PolicyAt(env, run, i, path).pattern)
  {
    if i > 0 {
      PoliciesCompile(env, run, i - 1, path);
      StepAt(env, run, i - 1, path);
      InvAt(env, run, i - 1, path);
      hide Can;
      hide Enabled;
      hide Apply;
      hide Inv;
      if run[i - 1].name == path {
        StepKeepsCompiling(env, View(Trace(env, EMPTY, run)[i - 1], path, path), run[i - 1].event);
      }
    }
  }

  /**
   What a policy does for a tag: from a moment at which it protects the tag, the tag names what it names as long as
   it is not deleted and no step touches the policy. (The policy that is checked is the one in force in every state that
   has a tag row of the repository, or before which no policy was stored without one.)
   */
  lemma {:induction false} ProtectedTagStays(env: Env, run: seq<Action>, i: nat, j: nat, path: string, tag: string)
    requires Sensible(env, run) && i <= j && Reached(env, run, j)
    requires forall k :: i <= k <= j ==> tag in TagFiles(Trace(env, EMPTY, run)[k], path)
    requires
      var policy := PolicyAt(env, run, i, path);
      policy.mode == Immutable || (policy.mode == Pattern && env.compiles(policy.pattern) && env.matches(policy.pattern, tag))
    requires forall k :: i <= k < j ==> PolicyIsFixed(env, run, k, path) && !TouchesPolicy(env, run, k, path)
    ensures TagFiles(Trace(env, EMPTY, run)[j], path)[tag] == TagFiles(Trace(env, EMPTY, run)[i], path)[tag]
  {
    hide Trace;
    hide TouchesPolicy;
    hide PolicyIsFixed;
    hide PolicyAt;
    hide ProtectsTag;
    if i < j && TagFiles(Trace(env, EMPTY, run)[i], path)[tag] != TagFiles(Trace(env, EMPTY, run)[j], path)[tag] {
      OverwriteProtection(env, run, i, j, path, tag);
      var k :| i <= k < j
               && (PolicyIsFixed(env, run, k, path) ==> !ProtectsTag(env, Trace(env, EMPTY, run)[k], path, tag));
      StillProtected(env, run, i, k, path, tag);
    }
  }

  lemma {:induction false} StillProtected(env: Env, run: seq<Action>, i: nat, k: nat, path: string, tag: string)
    requires Sensible(env, run) && i <= k && Reached(env, run, k)
    requires
      var policy := PolicyAt(env, run, i, path);
      policy.mode == Immutable || (policy.mode == Pattern && env.compiles(policy.pattern) && env.matches(policy.pattern, tag))
    requires forall m :: i <= m < k ==> !TouchesPolicy(env, run, m, path)
    ensures ProtectsTag(env, Trace(env, EMPTY, run)[k], path, tag)
  {
    hide Trace;
    hide TouchesPolicy;
    if PolicyAt(env, run, i, path) != PolicyAt(env, run, k, path) {
      PolicyChangesOnlyBy(env, run, i, k, path);
    }
  }
}
