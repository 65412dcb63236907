/**
 When the tag files and the rows of the database agree: whenever the lock of a repository is free they name the same
 tags with the same digests, exactly as long as no section ends with a rollback that has not put every tag back or a
 delete that has removed tags whose rows it leaves, no unlocked delete of the repository takes tag rows while the lock
 is free, and no section in which one did so ends with a tag it has not recorded.
 */
module TagAgreement {
  import opened Wrappers
  import opened Names
  import opened ReadModel
  import opened TagMachine
  import opened TagInvariants
  import opened TagRuns

  /** The tags the database knows of, with their digests. */
  function RowDigests(rows: Rows): map<string, string> {
    map t | t in rows.tags :: rows.tags[t].digest
  }

  predicate Agreed(l: Local) {
    l.files.tags == RowDigests(l.rows)
  }

  /** Only the tags of the link have been touched since linking began. */
  ghost predicate Elsewhere(tags: map<string, string>, link: Link) {
    forall t :: t !in link.tags ==> Get(tags, t) == Get(link.base, t)
  }

  /** The files lack nothing but tags that are being deleted, and have nothing the rows do not have. */
  ghost predicate Lacking(l: Local, reference: string, digest: string) {
    && Agrees(l.files.tags, l.rows)
    && forall t :: t in l.rows.tags ==> t in l.files.tags || Unwanted(l.rows.tags[t], t, reference, digest)
  }

  /** What holds of files and rows at every point of a section that began when they agreed. */
  ghost predicate Matched(l: Local) {
    match l.job
    case None => Agreed(l)
    case Some(job) =>
      if job.Checking? || job.Linking? || job.Undoing? then
        job.link.base == RowDigests(l.rows) && Elsewhere(l.files.tags, job.link)
      else if job.Untagging? || job.Unrecording? then Lacking(l, job.reference, job.digest)
      else Agreed(l)
  }

  /** The tag files once the last write of a rollback was tried. */
  function RolledBack(l: Local, e: Event): map<string, string>
    requires l.job.Some? && l.job.value.Undoing? && |l.job.value.link.saved| > 0
  {
    if e.UndoNext? then TagRestored(l.files, l.job.value.link.saved[0]).tags else l.files.tags
  }

  /** The last write of a rollback leaves a tag that does not name again what it named before. */
  predicate LeavesLinked(l: Local, e: Event) {
    && (e.UndoNext? || e.UndoFails?)
    && l.job.Some? && l.job.value.Undoing? && l.job.value.left == 1 && |l.job.value.link.saved| > 0
    && exists saved :: saved in l.job.value.link.saved && Get(RolledBack(l, e), saved.tag) != saved.before
  }

  /** A delete gives up although the row of a tag it has removed, or found gone, is still there. */
  predicate LeavesRow(l: Local, e: Event) {
    && l.job.Some?
    && var job := l.job.value;
       || (e.UntagFails? && job.Untagging?
           && exists t :: t in l.rows.tags && l.rows.tags[t].digest == job.digest && t !in l.files.tags)
       || (e.UnrecordFails? && job.Unrecording?
           && exists t :: t in l.rows.tags && Unwanted(l.rows.tags[t], t, job.reference, job.digest))
  }

  predicate Parts(l: Local, e: Event) {
    LeavesLinked(l, e) || LeavesRow(l, e)
  }

  /** What a step owes: it parts files and rows, or keeps them matched. */
  ghost predicate Owed(env: Env, l: Local, e: Event)
    requires Enabled(env, l, e)
  {
    var k := Apply(env, l, e);
    if Parts(l, e) then k.job.None? && !Agreed(k) else Matched(k)
  }

  lemma {:induction false} AgreedIs(l: Local)
    ensures Agreed(l) <==> Agrees(l.files.tags, l.rows) && Covers(l.files.tags, l.rows)
  {
    if Agreed(l) {
      forall t | t in l.files.tags ensures t in l.rows.tags && l.rows.tags[t].digest == l.files.tags[t] {
        assert t in RowDigests(l.rows);
      }
      forall t | t in l.rows.tags ensures t in l.files.tags {
        assert t in RowDigests(l.rows);
      }
    }
  }

  // ---------------------------------------------------------------- every step

  lemma {:induction false} UnlockedOwes(env: Env, l: Local, e: Event)
    requires Matched(l) && Enabled(env, l, e) && Unlocked(e) && !Erases(l, e)
    ensures Owed(env, l, e)
  {
    hide StoringEnabled;
    hide StoringApply;
    hide LinkingEnabled;
    hide LinkingApply;
    hide DeletingEnabled;
    hide DeletingApply;
    hide CollectingEnabled;
    hide CollectingApply;
    hide OtherEnabled;
    hide OtherApply;
    var k := Apply(env, l, e);
    assert k == l.(rows := k.rows);
    assert RowDigests(k.rows) == RowDigests(l.rows);
    assert forall t :: t in k.rows.tags <==> t in l.rows.tags;
    assert forall t :: t in k.rows.tags ==> k.rows.tags[t].digest == l.rows.tags[t].digest;
  }

  lemma {:induction false} StoringOwes(env: Env, l: Local, e: Event)
    requires Matched(l) && Enabled(env, l, e) && StoringEvent(e)
    ensures Owed(env, l, e)
  {
    hide Hashes;
    hide ValidTag;
    hide ValidDigest;
  }

  lemma {:induction false} CheckOwes(env: Env, l: Local)
    requires Inv(env, l) && Matched(l) && Enabled(env, l, Check)
    ensures Owed(env, l, Check)
  {
    JobLink(env, l);
    assert l.files.tags == l.job.value.link.base;
    hide Inv;
    hide LinkInv;
    hide RowDigests;
  }

  lemma {:induction false} LinkNextOwes(env: Env, l: Local)
    requires Inv(env, l) && Matched(l) && Enabled(env, l, LinkNext)
    ensures Owed(env, l, LinkNext)
  {
    hide Inv;
    hide RowDigests;
    var job := l.job.value;
    assert Elsewhere(l.files.tags[job.link.tags[job.next] := job.link.digest], job.link);
  }

  lemma {:induction false} StopApplied(env: Env, l: Local, e: Event)
    requires Enabled(env, l, e) && (e.LinkFails? || e.CommitFails?)
    ensures l.job.Some? && l.job.value.Linking?
    ensures
      var job, k := l.job.value, Apply(env, l, e);
      k.rows == l.rows && k.files == l.files && k.job == Rolling(job.link, job.next, job.next)
  {
  }

  lemma {:induction false} StopMatches(l: Local, k: Local, job: Job)
    requires job.Linking? && l.job == Some(job) && Matched(l) && Mixed(l.files.tags, job.link, Moved(job))
    requires job.next <= |job.link.tags|
    requires k.rows == l.rows && k.files == l.files && k.job == Rolling(job.link, job.next, job.next)
    ensures Matched(k)
  {
    if job.next == 0 {
      assert job.link.tags[..0] == [];
      SameLookups(l.files.tags, job.link.base);
    }
  }

  lemma {:induction false} LinkStopsOwes(env: Env, l: Local, e: Event)
    requires Inv(env, l) && Matched(l) && Enabled(env, l, e) && (e.LinkFails? || e.CommitFails?)
    ensures Owed(env, l, e)
  {
    hide Matched;
    hide RowDigests;
    StopApplied(env, l, e);
    hide Enabled;
    hide Apply;
    hide Matched;
    JobLink(env, l);
    hide Inv;
    var job := l.job.value;
    assert Mixed(l.files.tags, job.link, Moved(job)) && job.next <= |job.link.tags|;
    hide LinkInv;
    hide Mixed;
    StopMatches(l, Apply(env, l, e), job);
  }

  lemma {:induction false} CommitApplied(env: Env, l: Local)
    requires Inv(env, l) && Enabled(env, l, Commit)
    ensures l.job.Some? && l.job.value.Linking?
    ensures
      var job, k := l.job.value, Apply(env, l, Commit);
      && k == l.(rows := k.rows, job := None)
      && (forall t :: t in job.link.tags ==> t in k.rows.tags && k.rows.tags[t].digest == job.link.digest)
      && (forall t :: t !in job.link.tags ==> Get(k.rows.tags, t) == Get(l.rows.tags, t))
  {
    JobLink(env, l);
    CommittedRows(l.name, l.job.value.link, l.rows);
    hide Upserted;
    hide LinkParams;
    hide Inv;
  }

  lemma {:induction false} CommitMatches(l: Local, k: Local, job: Job)
    requires job.Linking? && l.job == Some(job) && Matched(l) && Mixed(l.files.tags, job.link, Elements(job.link.tags))
    requires k == l.(rows := k.rows, job := None)
    requires forall t :: t in job.link.tags ==> t in k.rows.tags && k.rows.tags[t].digest == job.link.digest
    requires forall t :: t !in job.link.tags ==> Get(k.rows.tags, t) == Get(l.rows.tags, t)
    ensures Matched(k)
  {
    AgreedIs(l.(files := l.files.(tags := job.link.base)));
    CommitAgrees(l.files.tags, job.link, l.rows, k.rows);
    AgreedIs(k);
    hide Mixed;
    hide RowDigests;
  }

  lemma {:induction false} CommitOwes(env: Env, l: Local)
    requires Inv(env, l) && Matched(l) && Enabled(env, l, Commit)
    ensures Owed(env, l, Commit)
  {
    CommitApplied(env, l);
    var job := l.job.value;
    AllMoved(env, l);
    hide Enabled;
    hide Apply;
    hide Inv;
    hide Mixed;
    hide Matched;
    CommitMatches(l, Apply(env, l, Commit), job);
  }

  lemma {:induction false} AllMoved(env: Env, l: Local)
    requires Inv(env, l) && Enabled(env, l, Commit)
    ensures Mixed(l.files.tags, l.job.value.link, Elements(l.job.value.link.tags))
  {
    JobLink(env, l);
    var job := l.job.value;
    assert job.link.tags[..job.next] == job.link.tags;
    hide Inv;
    hide Mixed;
  }

  lemma {:induction false} UndoApplied(env: Env, l: Local, e: Event)
    requires Enabled(env, l, e) && (e.UndoNext? || e.UndoFails?)
    ensures l.job.Some? && l.job.value.Undoing? && 0 < l.job.value.left <= |l.job.value.link.saved|
    ensures
      var job, k := l.job.value, Apply(env, l, e);
      && k.rows == l.rows && k.job == Rolling(job.link, job.left - 1, job.linked)
      && k.files == if e.UndoNext? then TagRestored(l.files, job.link.saved[job.left - 1]) else l.files
  {
  }

  lemma {:induction false} UndoMatches(env: Env, l: Local, e: Event, job: Job, k: Local)
    requires job.Undoing? && l.job == Some(job) && Matched(l) && (e.UndoNext? || e.UndoFails?)
    requires SavedWell(env, job.link) && |job.link.saved| == |job.link.tags| && 0 < job.left <= |job.link.saved|
    requires k.rows == l.rows && k.job == Rolling(job.link, job.left - 1, job.linked)
    requires k.files == if e.UndoNext? then TagRestored(l.files, job.link.saved[job.left - 1]) else l.files
    ensures if Parts(l, e) then k.job.None? && !Agreed(k) else Matched(k)
  {
    UndoElsewhere(env, l, k.files.tags, job);
    PutBackExactly(env, job.link, k.files.tags);
    hide SavedWell;
    hide Elsewhere;
    hide RowDigests;
  }

  lemma {:induction false} UndoOwes(env: Env, l: Local, e: Event)
    requires Inv(env, l) && Matched(l) && Enabled(env, l, e) && (e.UndoNext? || e.UndoFails?)
    ensures Owed(env, l, e)
  {
    UndoApplied(env, l, e);
    hide Apply;
    hide Enabled;
    hide Matched;
    hide Parts;
    SavedTags(env, l);
    hide Inv;
    hide SavedWell;
    UndoMatches(env, l, e, l.job.value, Apply(env, l, e));
  }

  lemma {:induction false} SavedTags(env: Env, l: Local)
    requires Inv(env, l) && l.job.Some? && l.job.value.Undoing?
    ensures SavedWell(env, l.job.value.link) && |l.job.value.link.saved| == |l.job.value.link.tags|
  {
    JobLink(env, l);
    hide Inv;
  }

  lemma {:induction false} UndoElsewhere(env: Env, l: Local, tags: map<string, string>, job: Job)
    requires job.Undoing? && SavedWell(env, job.link) && 0 < job.left <= |job.link.saved| && Elsewhere(l.files.tags, job.link)
    requires tags == l.files.tags || tags == TagRestored(l.files, job.link.saved[job.left - 1]).tags
    ensures Elsewhere(tags, job.link)
  {
    hide Permitted;
    assert job.link.saved[job.left - 1].tag in job.link.tags;
  }

  /** The tags are what they were exactly when every saved tag is. */
  lemma {:induction false} PutBackExactly(env: Env, link: Link, tags: map<string, string>)
    requires SavedWell(env, link) && |link.saved| == |link.tags| && Elsewhere(tags, link)
    ensures tags == link.base <==> forall saved :: saved in link.saved ==> Get(tags, saved.tag) == saved.before
  {
    hide Permitted;
    if forall saved :: saved in link.saved ==> Get(tags, saved.tag) == saved.before {
      forall t ensures Get(tags, t) == Get(link.base, t) {
        if t in link.tags {
          var i :| 0 <= i < |link.tags| && link.tags[i] == t;
          assert link.saved[i] in link.saved;
        }
      }
      SameLookups(tags, link.base);
    }
  }

  lemma {:induction false} DeletingOwes(env: Env, l: Local, e: Event)
    requires Inv(env, l) && Matched(l) && Enabled(env, l, e) && DeletingEvent(e)
    requires !e.Untag? && !e.UntagFails? && !e.Unrecord? && !e.UnrecordFails?
    ensures Owed(env, l, e)
  {
    DeletingApplied(env, l, e);
    hide Inv;
    hide Enabled;
    hide Apply;
    hide RowDigests;
    AgreedIs(l);
  }

  lemma {:induction false} DeletingApplied(env: Env, l: Local, e: Event)
    requires Enabled(env, l, e) && DeletingEvent(e)
    requires !e.Untag? && !e.UntagFails? && !e.Unrecord? && !e.UnrecordFails?
    ensures
      var k := Apply(env, l, e);
      && (l.job.None? || l.job.value.Removing?) && k.rows == l.rows && k.files.tags == l.files.tags
      && (k.job.None? || k.job.value.Removing? || k.job.value.Untagging? || k.job.value.Unrecording?)
  {
    hide ValidTag;
    hide ValidDigest;
    hide Named;
  }

  lemma {:induction false} UntagOwes(env: Env, l: Local, e: Event)
    requires Inv(env, l) && Matched(l) && Enabled(env, l, e) && e.Untag?
    ensures Owed(env, l, e)
  {
    hide StoringEnabled;
    hide StoringApply;
    hide LinkingEnabled;
    hide LinkingApply;
    hide CollectingEnabled;
    hide CollectingApply;
    hide OtherEnabled;
    hide OtherApply;
    hide LinkInv;
    assert DeleteInv(l, l.job.value);
    hide RowDigests;
  }

  lemma {:induction false} UntagFailsOwes(env: Env, l: Local)
    requires Inv(env, l) && Matched(l) && Enabled(env, l, UntagFails)
    ensures Owed(env, l, UntagFails)
  {
    AgreedIs(l);
    AgreedIs(Apply(env, l, UntagFails));
    assert DeleteInv(l, l.job.value);
  }

  lemma {:induction false} UnrecordApplied(env: Env, l: Local)
    requires Enabled(env, l, Unrecord)
    ensures l.job.Some? && l.job.value.Unrecording?
    ensures Apply(env, l, Unrecord) ==
      l.(rows := ReferenceDeleted(l.rows, l.job.value.reference, l.job.value.digest), job := None)
  {
  }

  /** The rows a committed delete leaves are those of the files that are left. */
  lemma {:induction false} UnrecordOwes(env: Env, l: Local)
    requires Inv(env, l) && Matched(l) && Enabled(env, l, Unrecord)
    ensures Owed(env, l, Unrecord)
  {
    UnrecordApplied(env, l);
    hide Apply;
    hide Enabled;
    var job := l.job.value;
    NothingNamed(env, l);
    RootedRows(env, l);
    hide Inv;
    DeletedRows(l.rows, job.reference, job.digest);
    hide ReferenceDeleted;
    LackingIsAgreed(l, Apply(env, l, Unrecord), job.reference, job.digest);
    hide Lacking;
    hide Agreed;
  }

  lemma {:induction false} RootedRows(env: Env, l: Local)
    requires Inv(env, l)
    ensures Rooted(l.rows)
  {
  }

  lemma {:induction false} LackingIsAgreed(l: Local, k: Local, reference: string, digest: string)
    requires Lacking(l, reference, digest)
    requires forall t :: t in l.files.tags ==> !Unwanted(l.rows.tags[t], t, reference, digest)
    requires k.files == l.files && k.rows.tags == Unnamed(l.rows.tags, reference, digest)
    ensures Agreed(k)
  {
    AgreedIs(k);
  }

  lemma {:induction false} UnrecordFailsOwes(env: Env, l: Local)
    requires Inv(env, l) && Matched(l) && Enabled(env, l, UnrecordFails)
    ensures Owed(env, l, UnrecordFails)
  {
    NothingNamed(env, l);
    hide Inv;
    AgreedIs(Apply(env, l, UnrecordFails));
  }

  /** Once a delete gets to the rows, no file is left of what it deletes. */
  lemma {:induction false} NothingNamed(env: Env, l: Local)
    requires Inv(env, l) && l.job.Some? && l.job.value.Unrecording? && Agrees(l.files.tags, l.rows)
    ensures
      var job := l.job.value;
      forall t :: t in l.files.tags ==> !Unwanted(l.rows.tags[t], t, job.reference, job.digest)
  {
    var job := l.job.value;
    assert DeleteInv(l, job);
    hide Inv;
    forall t | t in l.files.tags && DigestReference(job.reference) ensures l.files.tags[t] != job.digest {
      assert t !in Named(l.files, job.digest);
    }
  }

  lemma {:induction false} OtherOwes(env: Env, l: Local, e: Event)
    requires Matched(l) && Enabled(env, l, e)
    requires !Unlocked(e) && !StoringEvent(e) && !LinkingEvent(e) && !DeletingEvent(e)
    requires e.Abandon? ==> Inv(env, l)
    ensures Owed(env, l, e)
  {
  }

  lemma {:induction false} LinkingOwes(env: Env, l: Local, e: Event)
    requires LinkingEvent(e) && Inv(env, l) && Matched(l) && Enabled(env, l, e)
    ensures Owed(env, l, e)
  {
    hide Inv;
    hide Matched;
    hide Enabled;
    hide Apply;
    hide Owed;
    match e
    case Check => CheckOwes(env, l);
    case LinkNext => LinkNextOwes(env, l);
    case Commit => CommitOwes(env, l);
    case LinkFails => LinkStopsOwes(env, l, e);
    case CommitFails => LinkStopsOwes(env, l, e);
    case _ => UndoOwes(env, l, e);
  }

  lemma {:induction false} RemovingOwes(env: Env, l: Local, e: Event)
    requires DeletingEvent(e) && Inv(env, l) && Matched(l) && Enabled(env, l, e)
    ensures Owed(env, l, e)
  {
    hide *;
    match e
    case Untag(_) => UntagOwes(env, l, e);
    case UntagFails => UntagFailsOwes(env, l);
    case Unrecord => UnrecordOwes(env, l);
    case UnrecordFails => UnrecordFailsOwes(env, l);
    case _ => DeletingOwes(env, l, e);
  }

  /** A step parts the files and rows of a repository exactly if it is one of those two; every other keeps them matched. */
  lemma {:induction false} StepOwes(env: Env, l: Local, e: Event)
    requires Inv(env, l) && Matched(l) && Enabled(env, l, e) && !Erases(l, e)
    ensures Owed(env, l, e)
  {
    hide *;
    if Unlocked(e) {
      UnlockedOwes(env, l, e);
    } else if StoringEvent(e) {
      StoringOwes(env, l, e);
    } else if LinkingEvent(e) {
      LinkingOwes(env, l, e);
    } else if DeletingEvent(e) {
      RemovingOwes(env, l, e);
    } else {
      OtherOwes(env, l, e);
    }
  }

  // ---------------------------------------------------------------- sections whose rows were taken

  /** The step frees the lock and leaves a tag that it has not just recorded. */
  ghost predicate LeavesUnrecorded(env: Env, l: Local, e: Event)
    requires Enabled(env, l, e) && l.job.Some?
  {
    var k := Apply(env, l, e);
    k.job.None? && exists t :: t in k.files.tags && !(e.Commit? && t in l.job.value.link.tags)
  }

  /** Without tag rows a section records nothing but the tags it commits. */
  ghost predicate ErasedOwed(env: Env, l: Local, e: Event)
    requires Enabled(env, l, e) && l.job.Some?
  {
    var k := Apply(env, l, e);
    if k.job.Some? then k.rows.tags == map[] else Agreed(k) <==> !LeavesUnrecorded(env, l, e)
  }

  lemma {:induction false} ErasedCommitOwes(env: Env, l: Local)
    requires Inv(env, l) && l.job.Some? && l.rows.tags == map[] && Enabled(env, l, Commit)
    ensures ErasedOwed(env, l, Commit)
  {
    CommitApplied(env, l);
    AllMoved(env, l);
    var k, link := Apply(env, l, Commit), l.job.value.link;
    hide Apply;
    hide Enabled;
    hide Inv;
    forall t ensures Get(k.rows.tags, t).Some? <==> t in link.tags {
      assert t !in link.tags ==> Get(k.rows.tags, t) == Get(l.rows.tags, t);
    }
    forall t | t in link.tags ensures Get(k.files.tags, t) == Some(link.digest) {
    }
    hide Mixed;
    AgreedIs(k);
    hide RowDigests;
    hide Agreed;
  }

  lemma {:induction false} StillErased(env: Env, l: Local, e: Event)
    requires Inv(env, l) && l.job.Some? && l.rows.tags == map[] && Enabled(env, l, e) && !e.Commit?
    ensures Apply(env, l, e).rows.tags == map[]
  {
    if e.Unrecord? {
      UnrecordApplied(env, l);
      RootedRows(env, l);
      hide *;
      DeletedRows(l.rows, l.job.value.reference, l.job.value.digest);
      assert Unnamed(l.rows.tags, l.job.value.reference, l.job.value.digest) == map[] by {
        UnnamedEmpty(l.job.value.reference, l.job.value.digest);
      }
    } else {
      hide Inv;
      OnlyRecordingWrites(env, l, e);
    }
  }

  lemma {:induction false} UnnamedEmpty(reference: string, digest: string)
    ensures Unnamed(map[], reference, digest) == map[]
  {
  }

  /** No other step touches a tag row. */
  lemma {:induction false} OnlyRecordingWrites(env: Env, l: Local, e: Event)
    requires Enabled(env, l, e) && !e.Commit? && !e.Unrecord? && l.rows.tags == map[]
    ensures Apply(env, l, e).rows.tags == map[]
  {
    hide Hashes;
    hide ValidTag;
    hide ValidDigest;
    hide CanCheck;
    hide Reaches;
    hide Named;
    hide ReferenceDeleted;
    hide Upserted;
  }

  lemma {:induction false} ErasedOwes(env: Env, l: Local, e: Event)
    requires Inv(env, l) && l.job.Some? && l.rows.tags == map[] && Enabled(env, l, e)
    ensures ErasedOwed(env, l, e)
  {
    hide Inv;
    hide Enabled;
    hide Apply;
    if e.Commit? {
      ErasedCommitOwes(env, l);
    } else {
      StillErased(env, l, e);
      EmptyAgreed(Apply(env, l, e));
    }
    hide Agreed;
  }

  lemma {:induction false} EmptyAgreed(k: Local)
    requires k.rows.tags == map[]
    ensures Agreed(k) <==> forall t :: t !in k.files.tags
  {
    AgreedIs(k);
  }

  // ---------------------------------------------------------------- whole runs

  /** An unlocked delete took the tag rows of the repository since the section that holds its lock began. */
  ghost predicate ErasedInside(env: Env, run: seq<Action>, i: nat, path: string)
    decreases i
  {
    && ValidRun(env, EMPTY, run) && 0 < i <= |run|
    && path in Trace(env, EMPTY, run)[i].jobs && path in Trace(env, EMPTY, run)[i - 1].jobs
    && (ErasesAt(env, run, i - 1, path) || ErasedInside(env, run, i - 1, path))
  }

  /** The i-th action is a step of the repository that parts its files and rows, in the one of four ways open to it. */
  ghost predicate PartsAt(env: Env, run: seq<Action>, i: nat, path: string) {
    && ValidRun(env, EMPTY, run) && i < |run| && run[i].name == path
    && var l, e := View(Trace(env, EMPTY, run)[i], path, path), run[i].event;
       if l.job.None? then Erases(l, e)
       else if ErasedInside(env, run, i, path) then Enabled(env, l, e) && LeavesUnrecorded(env, l, e)
       else Parts(l, e)
  }

  ghost predicate AgreesAtRest(env: Env, run: seq<Action>, i: nat, path: string) {
    ValidRun(env, EMPTY, run) && i <= |run| ==>
      var s := Trace(env, EMPTY, run)[i];
      path !in s.jobs ==> TagFiles(s, path) == RecordedTags(s, path)
  }

  ghost predicate MatchedAt(env: Env, run: seq<Action>, i: nat, path: string) {
    ValidRun(env, EMPTY, run) && i <= |run| ==>
      var l := View(Trace(env, EMPTY, run)[i], path, path);
      if ErasedInside(env, run, i, path) then l.rows.tags == map[] else Matched(l)
  }

  /** What matching shows at rest: an erased section is not at rest. */
  lemma {:induction false} RestShows(env: Env, run: seq<Action>, i: nat, path: string)
    requires ValidRun(env, EMPTY, run) && i <= |run|
    ensures
      var l := View(Trace(env, EMPTY, run)[i], path, path);
      && (ErasedInside(env, run, i, path) ==> l.job.Some?)
      && (AgreesAtRest(env, run, i, path) <==> l.job.Some? || Agreed(l))
  {
    hide Trace;
    hide ValidRun;
  }

  lemma {:induction false} MatchedNext(env: Env, run: seq<Action>, n: nat, path: string)
    requires Sensible(env, run) && n < |run| && MatchedAt(env, run, n, path)
    ensures if PartsAt(env, run, n, path) then !AgreesAtRest(env, run, n + 1, path) else MatchedAt(env, run, n + 1, path)
  {
    StepAt(env, run, n, path);
    InvAt(env, run, n, path);
    RestShows(env, run, n, path);
    RestShows(env, run, n + 1, path);
    hide Can;
    hide Trace;
    hide Inv;
    hide Enabled;
    hide Apply;
    hide AgreesAtRest;
    hide Agreed;
    hide Parts;
    hide Sensible;
    hide ValidRun;
    var l, e := View(Trace(env, EMPTY, run)[n], path, path), run[n].event;
    if run[n].name == path {
      OwnStep(env, l, e, ErasedInside(env, run, n, path));
    }
    hide Erases;
    hide LeavesUnrecorded;
  }

  /** One step of the repository itself, in a section whose rows were taken or not. */
  lemma {:induction false} OwnStep(env: Env, l: Local, e: Event, erased: bool)
    requires Inv(env, l) && Enabled(env, l, e)
    requires if erased then l.job.Some? && l.rows.tags == map[] else Matched(l)
    ensures
      var k := Apply(env, l, e);
      && (l.job.None? && Erases(l, e) ==> k.job.None? && !Agreed(k))
      && (l.job.Some? && Erases(l, e) ==> k.job.Some? && k.rows.tags == map[])
      && (!erased && !Erases(l, e) ==> if Parts(l, e) then k.job.None? && !Agreed(k) else Matched(k))
      && (erased ==> if k.job.Some? then k.rows.tags == map[] else Agreed(k) <==> !LeavesUnrecorded(env, l, e))
  {
    if Erases(l, e) {
      ErasingParts(env, l, e);
    } else if !erased {
      StepOwes(env, l, e);
    }
    if erased {
      ErasedOwes(env, l, e);
    }
    hide Inv;
    hide Enabled;
    hide Apply;
    hide Agreed;
    hide Matched;
    hide Parts;
    hide LeavesUnrecorded;
    hide Erases;
  }

  lemma {:induction false} ErasingParts(env: Env, l: Local, e: Event)
    requires Enabled(env, l, e) && Erases(l, e)
    ensures
      var k := Apply(env, l, e);
      && k.job == l.job && k.rows.tags == map[]
      && (l.job.None? && Matched(l) ==> !Agreed(k))
  {
    var k := Apply(env, l, e);
    if l.job.None? && Matched(l) {
      AgreedIs(l);
      EmptyAgreed(k);
      var t :| t in l.rows.tags;
      assert t in k.files.tags;
    }
  }

  lemma {:induction false} MatchedUntil(env: Env, run: seq<Action>, n: nat, path: string)
    requires Sensible(env, run) && n <= |run|
    requires forall i: nat :: i < n ==> !PartsAt(env, run, i, path)
    ensures MatchedAt(env, run, n, path)
    decreases n
  {
    if n > 0 {
      hide *;
      MatchedUntil(env, run, n - 1, path);
      MatchedNext(env, run, n - 1, path);
    }
  }

  /**
   When files and rows agree: the tag files of a repository and its rows name the same tags with the same digests at
   every moment its lock is free, up to some moment of a run, if and only if until then no section ended with a
   rollback that left a tag moved, or with a delete that left the row of a tag it had removed, no unlocked delete took
   tag rows while the lock was free, and no section in which one took them ended with a tag it had not recorded.
   */
  lemma {:induction false} FilesMatchRowsExactly(env: Env, run: seq<Action>, n: nat, path: string)
    requires Sensible(env, run) && n <= |run|
    ensures (forall i :: 0 <= i <= n ==> AgreesAtRest(env, run, i, path)) <==>
            (forall i :: 0 <= i < n ==> !PartsAt(env, run, i, path))
  {
    hide *;
    MatchedUntil(env, run, 0, path);
    MatchedAtRest(env, run, 0, path);
    var good: nat -> bool := (i: nat) => AgreesAtRest(env, run, i, path);
    var bad: nat -> bool := (i: nat) => PartsAt(env, run, i, path);
    forall m: nat | m < n && (forall i: nat :: i < m ==> !bad(i)) ensures good(m + 1) <==> !bad(m) {
      assert forall i: nat :: i < m ==> bad(i) == PartsAt(env, run, i, path);
      MatchedUntil(env, run, m, path);
      MatchedNext(env, run, m, path);
      if !bad(m) {
        MatchedAtRest(env, run, m + 1, path);
      }
    }
    LastsExactly(good, bad, n);
    assert forall i: nat :: good(i) == AgreesAtRest(env, run, i, path);
    assert forall i: nat :: bad(i) == PartsAt(env, run, i, path);
  }

  lemma {:induction false} MatchedAtRest(env: Env, run: seq<Action>, i: nat, path: string)
    requires Sensible(env, run) && i <= |run| && MatchedAt(env, run, i, path)
    ensures AgreesAtRest(env, run, i, path)
  {
    RestShows(env, run, i, path);
    hide Trace;
    hide AgreesAtRest;
    hide Agreed;
  }
}
