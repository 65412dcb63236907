/**
 The tag and manifest operations of internal/httpserver/server.go. Each method runs under the repository
 lock, so nothing but its own calls touches the files of the repository; the ghost results record the run
 of the tag protocol it performed.
 */
module TagServer {
  import opened Wrappers
  import opened Names
  import opened ReadModel
  import opened TagMachine
  import opened TagInvariants
  import opened TagSteps
  import opened ManifestStore
  import opened Database

  /** How linking ends: an error may leave the links rolled back, or a rollback call may have failed too. */
  datatype Outcome =
    | Linked
    | Refused(error: Error)
    | RolledBack(error: Error)
    | RollbackFailed(error: Error)

  /** How adding a tag ends: named and read back, named though the row could not be read, or not named at all. */
  datatype Added =
    | Named(row: TagRow)
    | Unread(error: Error)
    | NotNamed(outcome: Outcome)

  class Server {
    const registryFS: Filesystem
    const store: Store
    const env: Env

    constructor (registryFS: Filesystem, store: Store, env: Env)
      ensures this.registryFS == registryFS && this.store == store && this.env == env
    {
      this.registryFS, this.store, this.env := registryFS, store, env;
    }

    ghost predicate Holds(repository: string, path: string, k: Local)
      reads registryFS, store
    {
      k.name == repository && registryFS.At(path) == k.files && store.RowsOf(repository) == k.rows
    }

    twostate predicate OthersKept(repository: string, path: string)
      reads registryFS, store
    {
      && (forall p :: p != path ==> registryFS.At(p) == old(registryFS.At(p)))
      && (forall n :: n != repository ==> store.RowsOf(n) == old(store.RowsOf(n)))
    }

    /** One tag of the overwrite check: what it names now, unless the policy forbids moving it. */
    method CheckTag(repository: string, ghost path: string, digest: string, policy: Policy, tag: string)
      returns (r: Result<Saved>)
      requires RepositoryPath(repository) == Some(path)
      ensures r.Ok? ==>
        && r.value == Saved(tag, Get(registryFS.At(path).tags, tag))
        && ValidTag(tag) && Reaches(registryFS.At(path).tags.Keys, tag)
      ensures
        var tags := registryFS.At(path).tags;
        var overwrites :=
          && tag in tags && tags[tag] != digest
          && (policy.mode == Immutable
              || (policy.mode == Pattern && env.compiles(policy.pattern) && env.matches(policy.pattern, tag)));
        (overwrites ==> r.Err?) && (r == Err(TagOverwriteProtected) ==> overwrites)
      ensures !ValidTag(tag) ==> r == Err(InvalidReference)
      ensures r.Err? ==>
        || r.error == Io || r.error == TagOverwriteProtected || (r.error == InvalidReference && !ValidTag(tag))
        || (r.error == InvalidDigest && tag in registryFS.At(path).tags && !ValidDigest(registryFS.At(path).tags[tag]))
    {
      if !ValidTag(tag) {
        return Err(InvalidReference);
      }
      var current := registryFS.ManifestTagDigest(repository, tag);
      if current.Err? && current.error != NotFound {
        return Err(current.error);
      }
      var state := Saved(tag, if current.Ok? then Some(current.value) else None);
      if state.before.Some? && state.before.value != digest && Protects(env, policy, tag) {
        return Err(TagOverwriteProtected);
      }
      return Ok(state);
    }

    /** Linking the digest under the tag would move a tag the policy protects: any, or those its pattern matches. */
    predicate Overwrites(tags: map<string, string>, digest: string, policy: Policy, tag: string) {
      && tag in tags && tags[tag] != digest
      && (policy.mode == Immutable
          || (policy.mode == Pattern && env.compiles(policy.pattern) && env.matches(policy.pattern, tag)))
    }

    /** The check has passed for the first tags of the list. */
    ghost predicate Checked(m: Local, k: Local, states: seq<Saved>)
      requires m.job.Some? && m.job.value.Checking?
    {
      var link := m.job.value.link.(saved := states);
      && k == m.(job := Some(if |states| == |link.tags| then Linking(link, 0) else Checking(link)))
      && SavedWell(env, link)
      && (forall state :: state in states ==> ValidTag(state.tag))
      && forall i :: 0 <= i < |states| ==> !Overwrites(m.files.tags, link.digest, link.policy, link.tags[i])
    }

    lemma CheckedNext(m: Local, k: Local, states: seq<Saved>, state: Saved)
      requires m.job.Some? && m.job.value.Checking? && Checked(m, k, states)
      requires |states| < |m.job.value.link.tags|
      requires m.job.value.link.base == m.files.tags
      requires state == Saved(m.job.value.link.tags[|states|], Get(m.files.tags, m.job.value.link.tags[|states|]))
      requires ValidTag(state.tag) && Reaches(m.files.tags.Keys, state.tag)
      requires !Overwrites(m.files.tags, m.job.value.link.digest, m.job.value.link.policy, state.tag)
      ensures k.job.Some? && k.job.value.Checking? && CanCheck(env, k.files, k.job.value.link)
      ensures
        var link := k.job.value.link;
        var more := link.(saved := link.saved + [Saved(link.tags[|link.saved|], Get(k.files.tags, link.tags[|link.saved|]))]);
        Checked(m, k.(job := Some(if |more.saved| == |more.tags| then Linking(more, 0) else Checking(more))),
                states + [state])
    {
    }

    /** The overwrite check over all tags, before anything is linked. */
    method CheckTags(repository: string, ghost path: string, tags: seq<string>, digest: string, policy: Policy,
                     ghost l: Local, ghost es0: seq<Event>, ghost m: Local)
      returns (r: Result<seq<Saved>>, ghost es: seq<Event>, ghost k: Local)
      requires RepositoryPath(repository) == Some(path) && Runs(env, l, es0, m)
      requires registryFS.At(path) == m.files && m.job.Some? && m.job.value.Checking?
      requires
        var link := m.job.value.link;
        link.digest == digest && link.policy == policy && link.tags == tags && link.saved == [] && link.base == m.files.tags
      requires tags != []
      ensures Runs(env, l, es, k)
      ensures r.Err? ==> k == m.(job := None)
      ensures r == Err(TagOverwriteProtected) ==> exists t :: t in tags && Overwrites(m.files.tags, digest, policy, t)
      ensures r.Err? ==>
        || r.error == Io || r.error == TagOverwriteProtected
        || (r.error == InvalidReference && exists t :: t in tags && !ValidTag(t))
        || (r.error == InvalidDigest && exists t :: t in tags && t in m.files.tags && !ValidDigest(m.files.tags[t]))
      ensures r.Ok? ==> Checked(m, k, r.value) && |r.value| == |tags|
    {
      es, k := es0, m;
      var states: seq<Saved> := [];
      assert Checked(m, k, states);
      hide Runs;
      hide Checked;
      for i := 0 to |tags|
        invariant |states| == i && Runs(env, l, es, k) && Checked(m, k, states)
        invariant i < |tags| ==> k.job.Some? && k.job.value.Checking?
        invariant k == m.(job := k.job)
      {
        var state := CheckTag(repository, path, digest, policy, tags[i]);
        if state.Err? {
          assert tags[i] in tags && (state == Err(TagOverwriteProtected) ==> Overwrites(m.files.tags, digest, policy, tags[i]));
          es, k := DoAbandon(env, l, es, k);
          return Err(state.error), es, k;
        }
        CheckedNext(m, k, states, state.value);
        es, k := DoCheck(env, l, es, k);
        states := states + [state.value];
        CheckedMeans(m, k, states);
      }
      r := Ok(states);
    }

    lemma CheckedMeans(m: Local, k: Local, states: seq<Saved>)
      requires m.job.Some? && m.job.value.Checking? && Checked(m, k, states)
      ensures |states| < |m.job.value.link.tags| ==> k.job.Some? && k.job.value.Checking?
    {
    }

    lemma CheckedAll(m: Local, k: Local, states: seq<Saved>)
      requires m.job.Some? && m.job.value.Checking? && Checked(m, k, states)
      requires |states| == |m.job.value.link.tags|
      ensures
        var link := m.job.value.link.(saved := states);
        && k == m.(job := Some(Linking(link, 0))) && SavedWell(env, link)
        && (forall state :: state in states ==> ValidTag(state.tag))
        && forall t :: t in link.tags ==> !Overwrites(m.files.tags, link.digest, link.policy, t)
    {
    }

    // ---------------------------------------------------------------- rolling back

    /** Rolling back when the first `left` of the `linked` links are still to be undone. */
    ghost predicate Rolled(m: Local, k: Local, link: Link, left: nat, linked: nat, clean: bool) {
      && left <= linked <= |link.tags|
      && k == m.(files := k.files, job := Rolling(link, left, linked), faults := k.faults)
      && k.files.manifests == m.files.manifests
      && k.faults == (if clean then m.faults else m.faults.(undo := true))
      && (clean && Mixed(m.files.tags, link, Elements(link.tags[..linked])) ==>
            Mixed(k.files.tags, link, Elements(link.tags[..left]) - Elements(link.tags[left..linked])))
    }

    lemma RolledStart(m: Local, link: Link, linked: nat)
      requires linked <= |link.tags| && m.job == Rolling(link, linked, linked)
      ensures Rolled(m, m, link, linked, linked, true)
    {
      assert link.tags[linked..linked] == [];
      assert Elements(link.tags[..linked]) - Elements([]) == Elements(link.tags[..linked]);
    }

    lemma RolledNext(m: Local, k: Local, link: Link, left: nat, linked: nat, clean: bool)
      requires Rolled(m, k, link, left, linked, clean) && left > 0
      requires SavedWell(env, link) && |link.saved| == |link.tags|
      ensures k.job.Some? && k.job.value.Undoing?
      ensures Rolled(m, k.(files := TagRestored(k.files, link.saved[left - 1]), job := Rolling(link, left - 1, linked)),
                     link, left - 1, linked, clean)
      ensures Rolled(m, k.(job := Rolling(link, left - 1, linked), faults := k.faults.(undo := true)),
                     link, left - 1, linked, false)
    {
      MovedBack(link.tags, left, linked);
      if clean && Mixed(m.files.tags, link, Elements(link.tags[..linked])) {
        MixedRestored(k.files, link, Elements(link.tags[..left]) - Elements(link.tags[left..linked]), link.saved[left - 1]);
      }
    }

    lemma RolledEnd(m: Local, k: Local, link: Link, linked: nat, clean: bool)
      requires Rolled(m, k, link, 0, linked, clean)
      ensures k.job.None?
      ensures clean && Mixed(m.files.tags, link, Elements(link.tags[..linked])) ==> k.files.tags == link.base
    {
      if clean && Mixed(m.files.tags, link, Elements(link.tags[..linked])) {
        assert link.tags[..0] == [];
        assert forall t :: Get(k.files.tags, t) == Get(link.base, t);
        SameLookups(k.files.tags, link.base);
      }
    }

    /** Puts one tag back: to its old digest, or away. */
    method RestoreTag(repository: string, ghost path: string, state: Saved) returns (ok: bool)
      requires RepositoryPath(repository) == Some(path) && ValidTag(state.tag)
      modifies registryFS
      ensures ok ==> registryFS.At(path) == TagRestored(old(registryFS.At(path)), state)
      ensures ok ==> Reaches(old(registryFS.At(path)).tags.Keys, state.tag)
      ensures ok && state.before.Some? ==> state.before.value in old(registryFS.At(path)).manifests
      ensures !ok ==> registryFS.At(path) == old(registryFS.At(path))
      ensures forall p :: p != path ==> registryFS.At(p) == old(registryFS.At(p))
    {
      if state.before.Some? {
        var linked := registryFS.LinkManifestTag(repository, state.tag, state.before.value);
        ok := linked.Ok?;
      } else {
        TagsAreNotDigests(state.tag);
        ghost var files := registryFS.At(path);
        ghost var es, k;
        var removed;
        removed, es, k := registryFS.DeleteManifest(env, repository, state.tag,
                                                    Local(repository, registryFS.At(path), NO_ROWS, None, NO_FAULTS));
        ok := removed.Ok? || removed.error == NotFound;
        if removed == Err(NotFound) {
          assert files.tags - {state.tag} == files.tags;
        }
      }
    }

    /** rollbackManifestTags: in reverse order, going on past a call that fails. */
    method RollbackManifestTags(repository: string, ghost path: string, states: seq<Saved>, ghost link: Link,
                                ghost l: Local, ghost es0: seq<Event>, ghost m: Local)
      returns (clean: bool, ghost es: seq<Event>, ghost k: Local)
      requires RepositoryPath(repository) == Some(path) && Runs(env, l, es0, m) && registryFS.At(path) == m.files
      requires SavedWell(env, link) && |link.saved| == |link.tags|
      requires forall state :: state in states ==> ValidTag(state.tag)
      requires states <= link.saved && m.job == Rolling(link, |states|, |states|)
      modifies registryFS
      ensures Runs(env, l, es, k) && Rolled(m, k, link, 0, |states|, clean) && registryFS.At(path) == k.files
      ensures forall p :: p != path ==> registryFS.At(p) == old(registryFS.At(p))
    {
      hide Runs;
      hide RepositoryPath;
      hide SavedWell;
      es, k, clean := es0, m, true;
      RolledStart(m, link, |states|);
      hide *;
      var index := |states|;
      while index > 0
        invariant 0 <= index <= |states|
        invariant Runs(env, l, es, k) && Rolled(m, k, link, index, |states|, clean)
        invariant registryFS.At(path) == k.files
        invariant forall p :: p != path ==> registryFS.At(p) == old(registryFS.At(p))
      {
        index := index - 1;
        RolledNext(m, k, link, index + 1, |states|, clean);
        RolledJob(m, k, link, index + 1, |states|, clean);
        assert states[index] == link.saved[index] && states[index] in states;
        var ok := RestoreTag(repository, path, states[index]);
        if ok {
          es, k := DoUndo(env, l, es, k);
        } else {
          es, k := DoUndoFails(env, l, es, k);
          clean := false;
        }
      }
    }

    lemma RolledJob(m: Local, k: Local, link: Link, left: nat, linked: nat, clean: bool)
      requires Rolled(m, k, link, left, linked, clean) && left > 0
      ensures k.job == Some(Undoing(link, left, linked))
    {
    }

    // ---------------------------------------------------------------- linking

    /** The first `next` tags of the list are linked. */
    ghost predicate LinkedUpTo(m: Local, k: Local, link: Link, next: nat) {
      && next <= |link.tags|
      && k == m.(files := k.files, job := Some(Linking(link, next)))
      && k.files.manifests == m.files.manifests
      && Mixed(k.files.tags, link, Elements(link.tags[..next]))
    }

    lemma LinkedStart(m: Local, link: Link)
      requires m.job == Some(Linking(link, 0)) && link.base == m.files.tags
      ensures LinkedUpTo(m, m, link, 0)
    {
      assert link.tags[..0] == [];
    }

    lemma LinkedNext(m: Local, k: Local, link: Link, next: nat)
      requires LinkedUpTo(m, k, link, next) && next < |link.tags|
      ensures k.job.Some? && k.job.value == Linking(link, next)
      ensures LinkedUpTo(m, k.(files := TagLinked(k.files, link.tags[next], link.digest), job := Some(Linking(link, next + 1))),
                         link, next + 1)
    {
      MovedNext(link.tags, next);
      MixedLinked(k.files.tags, link, Elements(link.tags[..next]), link.tags[next]);
    }

    /** The link loop: stops at the first call that fails and says how far it came. */
    method LinkTags(repository: string, ghost path: string, tags: seq<string>, digest: string, ghost link: Link,
                    ghost l: Local, ghost es0: seq<Event>, ghost m: Local)
      returns (r: Result<()>, linked: nat, ghost es: seq<Event>, ghost k: Local)
      requires RepositoryPath(repository) == Some(path) && Runs(env, l, es0, m) && registryFS.At(path) == m.files
      requires m.job == Some(Linking(link, 0)) && link.base == m.files.tags
      requires link.tags == tags && link.digest == digest
      modifies registryFS
      ensures Runs(env, l, es, k) && LinkedUpTo(m, k, link, linked) && registryFS.At(path) == k.files
      ensures forall p :: p != path ==> registryFS.At(p) == old(registryFS.At(p))
      ensures r.Ok? ==> linked == |tags|
    {
      hide Runs;
      hide RepositoryPath;
      es, k, linked := es0, m, 0;
      LinkedStart(m, link);
      hide *;
      while linked < |tags|
        invariant Runs(env, l, es, k) && LinkedUpTo(m, k, link, linked) && registryFS.At(path) == k.files
        invariant forall p :: p != path ==> registryFS.At(p) == old(registryFS.At(p))
        invariant linked <= |tags|
      {
        LinkedNext(m, k, link, linked);
        r := registryFS.LinkManifestTag(repository, tags[linked], digest);
        if r.Err? {
          return r, linked, es, k;
        }
        es, k := DoLinkNext(env, l, es, k);
        linked := linked + 1;
      }
      r := Ok(());
    }

    /** A rollback that ran from the links done so far leaves the tag files of before. */
    lemma RollbackRestores(m: Local, j: Local, start: Local, k: Local, link: Link, linked: nat, clean: bool)
      requires LinkedUpTo(m, j, link, linked) && start == j.(job := Rolling(link, linked, linked))
      requires Rolled(start, k, link, 0, linked, clean)
      ensures k == m.(files := k.files, job := None, faults := k.faults)
      ensures clean ==> k.faults == m.faults && k.files.tags == link.base
      ensures k.files.manifests == m.files.manifests
    {
      RolledEnd(start, k, link, linked, clean);
    }

    /**
     Every listed tag names the digest, and its row says so with the media type, the size and the time of the push;
     a pull time is kept if the row named the digest before. Every other tag is as before, and the aggregates are exact.
     */
    ghost predicate AllLinked(m: Local, k: Local, tags: seq<string>, digest: string, mediaType: string, size: nat, now: int) {
      && (forall t :: Get(k.files.tags, t) == if t in tags then Some(digest) else Get(m.files.tags, t))
      && (forall t :: Get(k.rows.tags, t) ==
            if t in tags
            then Some(TagRow(digest, mediaType, size, now,
                             if t in m.rows.tags && m.rows.tags[t].digest == digest then m.rows.tags[t].pulledAt else None))
            else Get(m.rows.tags, t))
      && (if tags == [] then k.rows == m.rows else PushCounted(m.rows, now, k.rows))
    }

    lemma LinkedAll(m: Local, j: Local, k: Local, link: Link)
      requires LinkedUpTo(m, j, link, |link.tags|) && link.base == m.files.tags && link.tags != []
      requires k == j.(rows := Upserted(j.rows, LinkParams(j.name, link), link.now), job := None)
      ensures AllLinked(m, k, link.tags, link.digest, link.mediaType, link.size, link.now) && k == m.(files := k.files, rows := k.rows, job := None)
    {
      LinkRecords(j.name, link, j.rows);
      var rows := Upserted(j.rows, LinkParams(j.name, link), link.now);
      hide *;
      LinkedMeans(m, j, link, |link.tags|);
      LinkedFiles(m, j, link);
      RecordedAll(m, k, link);
    }

    lemma LinkedFiles(m: Local, j: Local, link: Link)
      requires LinkedUpTo(m, j, link, |link.tags|) && link.base == m.files.tags
      ensures forall t :: Get(j.files.tags, t) == if t in link.tags then Some(link.digest) else Get(m.files.tags, t)
    {
      assert link.tags[..|link.tags|] == link.tags;
    }

    lemma RecordedAll(m: Local, k: Local, link: Link)
      requires link.tags != []
      requires forall t :: Get(k.files.tags, t) == if t in link.tags then Some(link.digest) else Get(m.files.tags, t)
      requires forall t ::
        Get(k.rows.tags, t) == if t in link.tags then Some(PushedRow(m.rows.tags, link, t)) else Get(m.rows.tags, t)
      requires PushCounted(m.rows, link.now, k.rows)
      ensures AllLinked(m, k, link.tags, link.digest, link.mediaType, link.size, link.now)
    {
    }

    lemma ParamsAreValid(repository: string, link: Link, params: seq<TagParams>)
      requires repository != "" && link.digest != "" && link.tags != []
      requires forall t :: t in link.tags ==> t != ""
      requires params == LinkParams(repository, link)
      ensures params != [] && params[0].repository == repository && ValidParams(repository, params)
    {
      forall p | p in params ensures p.repository == repository && p.tag in link.tags && p.digest == link.digest {
        var i :| 0 <= i < |params| && params[i] == p;
        assert link.tags[i] in link.tags;
      }
    }

    /** Links every tag, records them in one transaction, and rolls back in reverse if either fails. */
    method LinkAndRecord(repository: string, ghost path: string, digest: string, mediaType: string, size: nat,
                         tags: seq<string>, now: int, states: seq<Saved>, ghost link: Link,
                         ghost l: Local, ghost es0: seq<Event>, ghost m: Local)
      returns (outcome: Outcome, ghost es: seq<Event>, ghost k: Local)
      requires RepositoryPath(repository) == Some(path) && Runs(env, l, es0, m) && Holds(repository, path, m)
      requires m.job == Some(Linking(link, 0)) && link.base == m.files.tags
      requires link == Link(digest, mediaType, size, tags, now, link.policy, states, link.base)
      requires SavedWell(env, link) && |states| == |tags| && tags != [] && digest != "" && repository != ""
      requires forall state :: state in states ==> ValidTag(state.tag)
      modifies registryFS, store
      ensures Runs(env, l, es, k) && Holds(repository, path, k) && OthersKept(repository, path)
      ensures !outcome.Refused? && k.files.manifests == m.files.manifests
      ensures outcome.Linked? ==> AllLinked(m, k, tags, digest, mediaType, size, now) && k == m.(files := k.files, rows := k.rows, job := None)
      ensures !outcome.Linked? ==> k == m.(files := k.files, job := None, faults := k.faults)
      ensures outcome.RolledBack? ==> k.faults == m.faults && k.files.tags == m.files.tags
      ensures outcome.RollbackFailed? ==> k.faults.undo
    {
      hide Runs;
      hide RepositoryPath;
      hide LinkedUpTo;
      hide SavedWell;
      hide AllLinked;
      var r, linked;
      r, linked, es, k := LinkTags(repository, path, tags, digest, link, l, es0, m);
      ghost var j := k;
      LinkedMeans(m, j, link, linked);
      if r.Ok? {
        r, es, k := RecordLinks(repository, path, digest, mediaType, size, tags, now, link, l, es, m, j);
        if r.Ok? {
          return Linked, es, k;
        }
      }
      outcome, es, k := StopAndRollBack(repository, path, r.error, states, linked, link, l, es, m, j);
    }

    /** The database write once every tag is linked. */
    method RecordLinks(repository: string, ghost path: string, digest: string, mediaType: string, size: nat,
                       tags: seq<string>, now: int, ghost link: Link,
                       ghost l: Local, ghost es0: seq<Event>, ghost m: Local, ghost j: Local)
      returns (r: Result<()>, ghost es: seq<Event>, ghost k: Local)
      requires Runs(env, l, es0, j) && Holds(repository, path, j)
      requires LinkedUpTo(m, j, link, |tags|) && link.base == m.files.tags
      requires link == Link(digest, mediaType, size, tags, now, link.policy, link.saved, link.base)
      requires SavedWell(env, link) && |link.saved| == |tags| && tags != [] && digest != "" && repository != ""
      requires forall state :: state in link.saved ==> ValidTag(state.tag)
      modifies store
      ensures Runs(env, l, es, k) && Holds(repository, path, k)
      ensures forall n :: n != repository ==> store.RowsOf(n) == old(store.RowsOf(n))
      ensures if r.Ok? then AllLinked(m, k, tags, digest, mediaType, size, now) && k.files == j.files
                            && k == m.(files := k.files, rows := k.rows, job := None)
              else k == j && es == es0
    {
      hide Runs;
      es, k := es0, j;
      TagsAreNamed(link);
      LinkedMeans(m, j, link, |tags|);
      var params := seq(|tags|, i requires 0 <= i < |tags| => TagParams(repository, tags[i], digest, mediaType, size));
      assert params == LinkParams(repository, link);
      ParamsAreValid(repository, link, params);
      hide LinkedUpTo;
      hide SavedWell;
      hide LinkParams;
      hide Upserted;
      r := store.UpsertRepositoryTags(params, now);
      if r.Ok? {
        es, k := DoCommit(env, l, es, k);
        LinkedAll(m, j, k, link);
      }
    }

    lemma TagsAreNamed(link: Link)
      requires SavedWell(env, link) && |link.saved| == |link.tags|
      requires forall state :: state in link.saved ==> ValidTag(state.tag)
      ensures forall t :: t in link.tags ==> t != ""
    {
      forall t | t in link.tags ensures t != "" {
        var i :| 0 <= i < |link.tags| && link.tags[i] == t;
        assert link.saved[i].tag == t && link.saved[i] in link.saved;
      }
    }

    /** Undoes the links made so far, after a link or the database write has failed. */
    method StopAndRollBack(repository: string, ghost path: string, error: Error, states: seq<Saved>, linked: nat,
                           ghost link: Link, ghost l: Local, ghost es0: seq<Event>, ghost m: Local, ghost j: Local)
      returns (outcome: Outcome, ghost es: seq<Event>, ghost k: Local)
      requires RepositoryPath(repository) == Some(path) && Runs(env, l, es0, j) && Holds(repository, path, j)
      requires LinkedUpTo(m, j, link, linked) && link.base == m.files.tags && link.saved == states
      requires SavedWell(env, link) && |states| == |link.tags|
      requires forall state :: state in states ==> ValidTag(state.tag)
      modifies registryFS
      ensures Runs(env, l, es, k) && Holds(repository, path, k)
      ensures forall p :: p != path ==> registryFS.At(p) == old(registryFS.At(p))
      ensures !outcome.Refused? && !outcome.Linked? && k.files.manifests == m.files.manifests
      ensures k == m.(files := k.files, job := None, faults := k.faults)
      ensures outcome.RolledBack? ==> k.faults == m.faults && k.files.tags == m.files.tags
      ensures outcome.RollbackFailed? ==> k.faults.undo
    {
      LinkedMeans(m, j, link, linked);
      assert forall state :: state in states[..linked] ==> state in states;
      hide Runs;
      hide LinkedUpTo;
      hide Rolled;
      hide SavedWell;
      es, k := DoStop(env, l, es0, j);
      ghost var start := k;
      var clean;
      clean, es, k := RollbackManifestTags(repository, path, states[..linked], link, l, es, k);
      RollbackRestores(m, j, start, k, link, linked, clean);
      RolledFaults(start, k, link, linked, clean);
      outcome := if clean then RolledBack(error) else RollbackFailed(error);
    }

    lemma LinkedMeans(m: Local, k: Local, link: Link, next: nat)
      requires LinkedUpTo(m, k, link, next)
      ensures next <= |link.tags| && k == m.(files := k.files, job := Some(Linking(link, next)))
      ensures k.files.manifests == m.files.manifests
    {
    }

    lemma RolledFaults(m: Local, k: Local, link: Link, linked: nat, clean: bool)
      requires Rolled(m, k, link, 0, linked, clean)
      ensures !clean ==> k.faults.undo
    {
    }

    /**
     linkManifestTagsLocked. Linking a list of tags, duplicates included, is all or nothing: whichever call
     fails, either every tag and row is as it was, or a rollback call failed too.
     */
    method LinkManifestTagsLocked(repository: string, ghost path: string, digest: string, mediaType: string, size: nat,
                                  tags: seq<string>, now: int,
                                  ghost l: Local, ghost es0: seq<Event>, ghost m: Local)
      returns (outcome: Outcome, ghost es: seq<Event>, ghost k: Local)
      requires RepositoryPath(repository) == Some(path) && Runs(env, l, es0, m) && Holds(repository, path, m)
      requires m.job == Some(Starting(digest, mediaType, size, tags, now))
      requires tags != [] && digest != ""
      modifies registryFS, store
      ensures Runs(env, l, es, k) && k.job.None? && Holds(repository, path, k) && OthersKept(repository, path)
      ensures k.files.manifests == m.files.manifests
      ensures outcome.Linked? ==> k.faults == m.faults && AllLinked(m, k, tags, digest, mediaType, size, now)
      ensures outcome.Refused? || outcome.RolledBack? ==>
        k.files.tags == m.files.tags && k.rows == m.rows && k.faults == m.faults
      ensures outcome.RollbackFailed? ==> k.rows == m.rows && k.faults.undo
      ensures
        var policy := PolicyInForce(m.rows);
        var overwrites := exists t ::
          && t in tags && t in m.files.tags && m.files.tags[t] != digest
          && (policy.mode == Immutable
              || (policy.mode == Pattern && env.compiles(policy.pattern) && env.matches(policy.pattern, t)));
        (overwrites ==> outcome.Refused?) && (outcome == Refused(TagOverwriteProtected) ==> overwrites)
      ensures
        var broken := PolicyInForce(m.rows).mode == Pattern && !env.compiles(PolicyInForce(m.rows).pattern);
        && (broken ==> outcome == Refused(InvalidPattern) || outcome == Refused(Io))
        && (outcome == Refused(InvalidPattern) ==> broken)
      ensures outcome.Refused? ==>
        || outcome.error == Io || outcome.error == TagOverwriteProtected || outcome.error == InvalidPattern
        || (outcome.error == InvalidReference && exists t :: t in tags && !ValidTag(t))
        || (outcome.error == InvalidDigest && exists t :: t in tags && t in m.files.tags && !ValidDigest(m.files.tags[t]))
    {
      hide Runs;
      hide RepositoryPath;
      es, k := es0, m;
      var policy := store.GetRepositoryTagPolicy(repository);
      if policy.Err? {
        es, k := DoAbandon(env, l, es, k);
        return Refused(Io), es, k;
      }
      if policy.value.mode == Pattern && !env.compiles(policy.value.pattern) {
        es, k := DoAbandon(env, l, es, k);
        return Refused(InvalidPattern), es, k;
      }
      es, k := DoReadPolicy(env, l, es, k);
      hide *;
      ghost var checking := k;
      outcome, es, k := CheckAndLink(repository, path, digest, mediaType, size, tags, now, policy.value, l, es, k);
      if outcome.Linked? {
        SameBase(m, checking, k, tags, digest, mediaType, size, now);
      }
      OverwritesMeans(m.files.tags, digest, PolicyInForce(m.rows));
    }

    lemma OverwritesMeans(tags: map<string, string>, digest: string, policy: Policy)
      ensures forall t :: Overwrites(tags, digest, policy, t) <==>
        && t in tags && tags[t] != digest
        && (policy.mode == Immutable
            || (policy.mode == Pattern && env.compiles(policy.pattern) && env.matches(policy.pattern, t)))
    {
    }

    /** The rest of it, under a policy that has been read. */
    method CheckAndLink(repository: string, ghost path: string, digest: string, mediaType: string, size: nat,
                        tags: seq<string>, now: int, policy: Policy, ghost l: Local, ghost es0: seq<Event>, ghost m: Local)
      returns (outcome: Outcome, ghost es: seq<Event>, ghost k: Local)
      requires RepositoryPath(repository) == Some(path) && Runs(env, l, es0, m) && Holds(repository, path, m)
      requires m.job == Some(Checking(Link(digest, mediaType, size, tags, now, policy, [], m.files.tags)))
      requires tags != [] && digest != "" && repository != ""
      modifies registryFS, store
      ensures Runs(env, l, es, k) && k.job.None? && Holds(repository, path, k) && OthersKept(repository, path)
      ensures k.files.manifests == m.files.manifests
      ensures outcome.Linked? ==> k.faults == m.faults && AllLinked(m, k, tags, digest, mediaType, size, now)
      ensures outcome.Refused? || outcome.RolledBack? ==>
        k.files.tags == m.files.tags && k.rows == m.rows && k.faults == m.faults
      ensures outcome.RollbackFailed? ==> k.rows == m.rows && k.faults.undo
      ensures (exists t :: t in tags && Overwrites(m.files.tags, digest, policy, t)) ==> outcome.Refused?
      ensures outcome == Refused(TagOverwriteProtected) ==> exists t :: t in tags && Overwrites(m.files.tags, digest, policy, t)
      ensures outcome.Refused? ==>
        || outcome.error == Io || outcome.error == TagOverwriteProtected
        || (outcome.error == InvalidReference && exists t :: t in tags && !ValidTag(t))
        || (outcome.error == InvalidDigest && exists t :: t in tags && t in m.files.tags && !ValidDigest(m.files.tags[t]))
    {
      hide Runs;
      hide RepositoryPath;
      hide AllLinked;
      hide Checked;
      es, k := es0, m;
      var states;
      states, es, k := CheckTags(repository, path, tags, digest, policy, l, es, k);
      if states.Err? {
        return Refused(states.error), es, k;
      }
      CheckedAll(m, k, states.value);
      hide SavedWell;
      hide ValidTag;
      ghost var linking := k;
      outcome, es, k := LinkAndRecord(repository, path, digest, mediaType, size, tags, now, states.value,
                                      m.job.value.link.(saved := states.value), l, es, k);
      if outcome.Linked? {
        SameBase(m, linking, k, tags, digest, mediaType, size, now);
      }
    }

    // ---------------------------------------------------------------- the operations

    /** A section that starts with nobody holding the lock of the repository. */
    ghost function Start(repository: string, path: string, faults: Faults): Local
      reads registryFS, store
    {
      Local(repository, registryFS.At(path), store.RowsOf(repository), None, faults)
    }

    /** putManifestAndTags: stores the manifest, then links and records its tags. */
    method PutManifestAndTags(repository: string, ghost path: string, reference: string, mediaType: string,
                              content: Bytes, tags: seq<string>, now: int, ghost faults: Faults)
      returns (digest: string, outcome: Outcome, ghost es: seq<Event>, ghost k: Local)
      requires Sound(env) && RepositoryPath(repository) == Some(path)
      modifies registryFS, store
      ensures Runs(env, old(Start(repository, path, faults)), es, k)
      ensures k.job.None? && Holds(repository, path, k) && OthersKept(repository, path)
      ensures outcome.Linked? ==>
        && digest == PushDigest(env, reference, content)
        && Complete(k.files, digest) && k.files.manifests[digest].content == Some(content)
        && k.files.manifests[digest].mediaType == Some(mediaType)
        && AllLinked(old(Start(repository, path, faults)), k, tags, digest, mediaType, env.estimate(content), now)
      ensures forall d :: d != PushDigest(env, reference, content) ==>
        Get(k.files.manifests, d) == Get(old(registryFS.At(path)).manifests, d)
      ensures !outcome.Linked? ==> k.rows == old(store.RowsOf(repository))
      ensures outcome.Refused? || outcome.RolledBack? ==> k.files.tags == old(registryFS.At(path)).tags
      ensures outcome.RollbackFailed? ==> k.faults.undo
      ensures
        var policy, before := PolicyInForce(old(store.RowsOf(repository))), old(registryFS.At(path)).tags;
        var overwrites := exists t ::
          && t in tags && t in before && before[t] != PushDigest(env, reference, content)
          && (policy.mode == Immutable
              || (policy.mode == Pattern && env.compiles(policy.pattern) && env.matches(policy.pattern, t)));
        (overwrites ==> outcome.Refused?) && (outcome == Refused(TagOverwriteProtected) ==> overwrites)
    {
      ghost var l := Start(repository, path, faults);
      hide Runs;
      hide AllLinked;
      var stored;
      stored, es, k := registryFS.PutManifestContent(env, repository, reference, mediaType, content, now, tags, l);
      if stored.Err? {
        return "", Refused(stored.error), es, k;
      }
      digest := stored.value;
      if tags == [] {
        NothingLinked(l, k, digest, mediaType, env.estimate(content), now);
        return digest, Linked, es, k;
      }
      ghost var m := k;
      outcome, es, k := LinkManifestTagsLocked(repository, path, digest, mediaType, env.estimate(content), tags, now, l, es, k);
      if outcome.Linked? {
        SameBase(l, m, k, tags, digest, mediaType, env.estimate(content), now);
      }
    }

    lemma NothingLinked(l: Local, k: Local, digest: string, mediaType: string, size: nat, now: int)
      requires k.files.tags == l.files.tags && k.rows == l.rows
      ensures AllLinked(l, k, [], digest, mediaType, size, now)
    {
    }

    lemma SameBase(l: Local, m: Local, k: Local, tags: seq<string>, digest: string, mediaType: string, size: nat, now: int)
      requires AllLinked(m, k, tags, digest, mediaType, size, now) && m.files.tags == l.files.tags && m.rows == l.rows
      ensures AllLinked(l, k, tags, digest, mediaType, size, now)
    {
    }

    /** linkManifestTagsLocked for a list of one tag. */
    method LinkOneTag(repository: string, ghost path: string, digest: string, mediaType: string, size: nat, tag: string,
                      now: int, ghost l: Local, ghost es0: seq<Event>, ghost m: Local)
      returns (outcome: Outcome, ghost es: seq<Event>, ghost k: Local)
      requires RepositoryPath(repository) == Some(path) && Runs(env, l, es0, m) && Holds(repository, path, m)
      requires m.job == Some(Starting(digest, mediaType, size, [tag], now)) && digest != ""
      modifies registryFS, store
      ensures Runs(env, l, es, k) && k.job.None? && Holds(repository, path, k) && OthersKept(repository, path)
      ensures k.files.manifests == m.files.manifests
      ensures outcome.Linked? ==> AllLinked(m, k, [tag], digest, mediaType, size, now)
      ensures !outcome.Linked? ==> k.rows == m.rows
      ensures outcome.Refused? || outcome.RolledBack? ==> k.files.tags == m.files.tags
      ensures outcome.RollbackFailed? ==> k.faults.undo
      ensures Overwrites(m.files.tags, digest, PolicyInForce(m.rows), tag) ==> outcome.Refused?
      ensures outcome == Refused(TagOverwriteProtected) ==> Overwrites(m.files.tags, digest, PolicyInForce(m.rows), tag)
    {
      hide *;
      assert tag in [tag] && forall t :: t in [tag] ==> t == tag;
      OverwritesMeans(m.files.tags, digest, PolicyInForce(m.rows));
      outcome, es, k := LinkManifestTagsLocked(repository, path, digest, mediaType, size, [tag], now, l, es0, m);
    }

    /** GetManifest for a digest. */
    method FindManifest(repository: string, ghost path: string, digest: string) returns (r: Result<(Bytes, string, string)>)
      requires RepositoryPath(repository) == Some(path) && DigestReference(digest) && ValidDigest(digest)
      ensures
        var files := registryFS.At(path);
        if r.Ok? then
          Complete(files, digest) && r.value == (files.manifests[digest].content.value,
                                                 env.trim(files.manifests[digest].mediaType.value), digest)
        else r.error == Io || (r.error == NotFound && !Complete(files, digest))
    {
      r := registryFS.GetManifest(env, repository, digest);
    }

    /**
     addRepositoryTag: names an existing manifest by one more tag and answers with its row. The row is read after
     the tag has been linked and recorded, so an error of that read alone comes with the tag in place.
     */
    method AddRepositoryTag(repository: string, ghost path: string, tag: string, requested: string, now: int,
                            ghost faults: Faults)
      returns (r: Added, ghost es: seq<Event>, ghost k: Local)
      requires RepositoryPath(repository) == Some(path)
      modifies registryFS, store
      ensures Runs(env, old(Start(repository, path, faults)), es, k)
      ensures k.job.None? && Holds(repository, path, k) && OthersKept(repository, path)
      ensures r.Named? || r.Unread? ==>
        && ValidTag(tag) && ValidDigest(requested) && Complete(old(registryFS.At(path)), requested)
        && k.files.manifests == old(registryFS.At(path)).manifests
        && var stored := old(registryFS.At(path)).manifests[requested];
           AllLinked(old(Start(repository, path, faults)), k, [tag], requested,
                     env.trim(stored.mediaType.value), env.estimate(stored.content.value), now)
      ensures r.Named? ==> Get(k.rows.tags, tag) == Some(r.row)
      ensures r.Unread? ==> r.error == Io
      ensures r.NotNamed? ==> !r.outcome.Linked? && k.rows == old(store.RowsOf(repository))
      ensures r.NotNamed? && (r.outcome.Refused? || r.outcome.RolledBack?) ==> k.files == old(registryFS.At(path))
      ensures r.NotNamed? && r.outcome.RollbackFailed? ==> k.faults.undo
      ensures
        var policy, before := PolicyInForce(old(store.RowsOf(repository))), old(registryFS.At(path)).tags;
        var overwrites :=
          && tag in before && before[tag] != requested
          && (policy.mode == Immutable
              || (policy.mode == Pattern && env.compiles(policy.pattern) && env.matches(policy.pattern, tag)));
        && (overwrites ==> r.NotNamed? && r.outcome.Refused?)
        && (r == NotNamed(Refused(TagOverwriteProtected)) ==> overwrites)
    {
      ghost var l := Start(repository, path, faults);
      es, k := [], l;
      NoSteps(env, l);
      hide Runs;
      hide AllLinked;
      hide ValidTag;
      hide ValidDigest;
      hide RepositoryPath;
      hide Complete;
      if !ValidTag(tag) {
        return NotNamed(Refused(InvalidReference)), es, k;
      }
      if !ValidDigest(requested) {
        return NotNamed(Refused(InvalidDigest)), es, k;
      }
      TagsAreNotDigests(requested);
      var manifest := FindManifest(repository, path, requested);
      if manifest.Err? {
        return NotNamed(Refused(manifest.error)), es, k;
      }
      es, k := DoBeginAddTag(env, l, tag, requested, now);
      ghost var m := k;
      hide *;
      OverwritesMeans(m.files.tags, requested, PolicyInForce(m.rows));
      var outcome;
      outcome, es, k := LinkOneTag(repository, path, manifest.value.2, manifest.value.1,
                                   env.estimate(manifest.value.0), tag, now, l, es, k);
      if !outcome.Linked? {
        return NotNamed(outcome), es, k;
      }
      SameBase(l, m, k, [tag], requested, manifest.value.1, env.estimate(manifest.value.0), now);
      LinkedIsRecorded(l, k, [tag], requested, manifest.value.1, env.estimate(manifest.value.0), now, tag);
      r := ReadNamed(repository, tag);
    }

    /** The row of a tag that has just been recorded. */
    method ReadNamed(repository: string, tag: string) returns (r: Added)
      requires tag in store.RowsOf(repository).tags
      ensures if r.Named? then Get(store.RowsOf(repository).tags, tag) == Some(r.row) else r == Unread(Io)
    {
      var row := store.GetRepositoryTag(repository, tag);
      r := if row.Ok? then Named(row.value) else Unread(row.error);
    }

    lemma LinkedIsRecorded(l: Local, k: Local, tags: seq<string>, digest: string, mediaType: string, size: nat, now: int,
                           tag: string)
      requires AllLinked(l, k, tags, digest, mediaType, size, now) && tag in tags
      ensures tag in k.rows.tags
    {
      assert Get(k.rows.tags, tag).Some?;
    }

    /** deleteManifestReferenceLocked: the files first, then the rows. */
    method DeleteManifestReferenceLocked(repository: string, ghost path: string, reference: string, ghost faults: Faults)
      returns (r: Result<()>, ghost es: seq<Event>, ghost k: Local)
      requires RepositoryPath(repository) == Some(path)
      modifies registryFS, store
      ensures Runs(env, old(Start(repository, path, faults)), es, k)
      ensures k.job.None? && Holds(repository, path, k) && OthersKept(repository, path)
      ensures r.Err? ==> k.rows == old(store.RowsOf(repository))
      ensures r == Err(NotFound) ==> k.files == old(registryFS.At(path))
      ensures r.Ok? && DigestReference(reference) ==>
        && reference !in k.files.manifests && reference !in k.files.tags.Values
        && (forall d :: d != reference ==> Get(k.files.manifests, d) == Get(old(registryFS.At(path)).manifests, d))
        && (forall t :: Get(k.files.tags, t) ==
              if Get(old(registryFS.At(path)).tags, t) == Some(reference) then None else Get(old(registryFS.At(path)).tags, t))
        && k.rows == ReferenceDeleted(old(store.RowsOf(repository)), reference, reference)
        && DeleteRecorded(old(store.RowsOf(repository)), reference, reference, k.rows)
      ensures r.Ok? && !DigestReference(reference) ==>
        && reference in old(registryFS.At(path)).tags
        && k.files == old(registryFS.At(path)).(tags := old(registryFS.At(path)).tags - {reference})
        && k.rows == ReferenceDeleted(old(store.RowsOf(repository)), reference, old(registryFS.At(path)).tags[reference])
        && DeleteRecorded(old(store.RowsOf(repository)), reference, old(registryFS.At(path)).tags[reference], k.rows)
    {
      ghost var l := Start(repository, path, faults);
      hide Runs;
      hide DeleteRecorded;
      hide ReferenceDeleted;
      hide RepositoryPath;
      hide ValidDigest;
      hide ValidTag;
      hide Reaches;
      var removed;
      removed, es, k := registryFS.DeleteManifest(env, repository, reference, l);
      if removed.Err? {
        return Err(removed.error), es, k;
      }
      r := store.DeleteRepositoryManifestReference(repository, reference, removed.value);
      if r.Ok? {
        es, k := DoUnrecord(env, l, es, k);
      } else {
        es, k := DoUnrecordFails(env, l, es, k);
      }
    }
  }
}
