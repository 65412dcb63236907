/** Every step of the tag protocol keeps its invariant, and no step moves a protected tag. */
module TagInvariants {
  import opened Wrappers
  import opened Names
  import opened ReadModel
  import opened TagMachine

  // ---------------------------------------------------------------- storing and collecting manifests

  lemma ContentKeeps(env: Env, l: Local)
    requires Inv(env, l) && Enabled(env, l, WriteContent)
    ensures Inv(env, Apply(env, l, WriteContent))
  {
    hide LinkingEnabled;
    hide LinkingApply;
    hide DeletingEnabled;
    hide DeletingApply;
    hide CollectingEnabled;
    hide CollectingApply;
    hide OtherEnabled;
    hide OtherApply;
    hide LinkInv;
    hide DeleteInv;
    var job := l.job.value;
    var files := ContentWritten(l.files, job.digest, job.content, job.now);
    CompleteGrows(l.files, files);
    assert Settled(l.(files := files), files.tags);
  }

  lemma MediaKeeps(env: Env, l: Local)
    requires Inv(env, l) && Enabled(env, l, WriteMedia)
    ensures Inv(env, Apply(env, l, WriteMedia))
  {
    hide LinkingEnabled;
    hide LinkingApply;
    hide DeletingEnabled;
    hide DeletingApply;
    hide CollectingEnabled;
    hide CollectingApply;
    hide OtherEnabled;
    hide OtherApply;
    hide LinkInv;
    hide DeleteInv;
    var job := l.job.value;
    var files := MediaWritten(l.files, job.digest, job.mediaType, job.now);
    CompleteGrows(l.files, files);
    assert Settled(l.(files := files), files.tags);
    assert Complete(files, job.digest);
  }

  /** A write that fails half-way leaves every complete manifest complete, and flags content that does not hash. */
  lemma TornWriteKeeps(env: Env, l: Local, e: Event)
    requires Inv(env, l) && Enabled(env, l, e) && (e.WriteContentFails? || e.WriteMediaFails?)
    ensures Inv(env, Apply(env, l, e))
  {
    TornWriteApplied(env, l, e);
    TornWriteHashes(env, l, e);
    hide Enabled;
    hide Apply;
    hide Hashed;
    hide Hashes;
    var k := Apply(env, l, e);
    CompleteGrows(l.files, k.files);
    hide Complete;
  }

  lemma TornWriteApplied(env: Env, l: Local, e: Event)
    requires Enabled(env, l, e) && (e.WriteContentFails? || e.WriteMediaFails?)
    ensures
      var k := Apply(env, l, e);
      && l.job.Some? && l.job.value.Storing? && k.job.None? && k.rows == l.rows && k.files.tags == l.files.tags
      && k.faults == l.faults.(torn := k.faults.torn)
      && (forall d :: Complete(l.files, d) ==> Complete(k.files, d))
  {
    hide LinkingEnabled;
    hide LinkingApply;
    hide DeletingEnabled;
    hide DeletingApply;
    hide CollectingEnabled;
    hide CollectingApply;
    hide OtherEnabled;
    hide OtherApply;
    hide Hashes;
  }

  lemma TornWriteHashes(env: Env, l: Local, e: Event)
    requires Enabled(env, l, e) && (e.WriteContentFails? || e.WriteMediaFails?)
    requires !l.faults.torn ==> Hashed(env, l.files)
    ensures !Apply(env, l, e).faults.torn ==> Hashed(env, Apply(env, l, e).files)
  {
    hide LinkingEnabled;
    hide LinkingApply;
    hide DeletingEnabled;
    hide DeletingApply;
    hide CollectingEnabled;
    hide CollectingApply;
    hide OtherEnabled;
    hide OtherApply;
    hide Hashes;
  }

  /** Storing files of a manifest never makes another manifest incomplete. */
  lemma CompleteGrows(before: Files, after: Files)
    requires before.tags == after.tags
    requires forall d :: Complete(before, d) ==> Complete(after, d)
    ensures Resolves(before.tags, before) ==> Resolves(after.tags, after)
  {
  }

  lemma StoringKeeps(env: Env, l: Local, e: Event)
    requires Sound(env) && Inv(env, l) && Enabled(env, l, e)
    requires StoringEvent(e)
    ensures Inv(env, Apply(env, l, e))
  {
    if e.WriteContent? {
      ContentKeeps(env, l);
    } else if e.WriteMedia? {
      MediaKeeps(env, l);
    } else if e.ReadPolicy? {
      PolicyReadKeeps(env, l);
    } else if e.WriteContentFails? || e.WriteMediaFails? {
      TornWriteKeeps(env, l, e);
    }
  }

  lemma PolicyReadKeeps(env: Env, l: Local)
    requires Inv(env, l) && Enabled(env, l, ReadPolicy)
    ensures Inv(env, Apply(env, l, ReadPolicy))
  {
    var k := Apply(env, l, ReadPolicy);
    assert LinkInv(env, k, k.job.value);
  }

  lemma CollectingKeeps(env: Env, l: Local, e: Event)
    requires Inv(env, l) && Enabled(env, l, e)
    requires CollectingEvent(e)
    ensures Inv(env, Apply(env, l, e))
  {
    hide Enabled;
    hide Apply;
    hide Hashed;
    hide Hashes;
    hide LinkInv;
    hide DeleteInv;
    hide Settled;
    CollectingApplied(env, l, e);
    var k := Apply(env, l, e);
    CollectedHashes(env, l, k);
    if e.BeginCollect? {
      SettledStays(l, k, l.files.tags);
    } else {
      CollectedSettles(l, k, e.digest);
    }
  }

  lemma CollectingApplied(env: Env, l: Local, e: Event)
    requires Enabled(env, l, e) && CollectingEvent(e)
    ensures
      var k := Apply(env, l, e);
      && k.rows == l.rows && k.files.tags == l.files.tags && k.faults == l.faults
      && (forall d :: d in k.files.manifests ==>
            d in l.files.manifests
            && (k.files.manifests[d].content.Some? ==> k.files.manifests[d].content == l.files.manifests[d].content))
      && if e.BeginCollect? then
           k.files == l.files && l.job.None? && k.job == Some(Collecting(e.cutoff, l.files.tags.Values))
         else
           && l.job.Some? && l.job.value.Collecting? && e.digest !in l.job.value.referenced
           && (k.job == l.job || k.job.None?)
           && (forall d :: d != e.digest ==> Get(k.files.manifests, d) == Get(l.files.manifests, d))
  {
    hide StoringEnabled;
    hide StoringApply;
    hide LinkingEnabled;
    hide LinkingApply;
    hide DeletingEnabled;
    hide DeletingApply;
    hide OtherEnabled;
    hide OtherApply;
  }

  /** Content that is left is what it was. */
  lemma CollectedHashes(env: Env, l: Local, k: Local)
    requires forall d :: d in k.files.manifests ==>
      d in l.files.manifests
      && (k.files.manifests[d].content.Some? ==> k.files.manifests[d].content == l.files.manifests[d].content)
    ensures Hashed(env, l.files) ==> Hashed(env, k.files)
  {
    hide Hashes;
  }

  /** A manifest that no tag names is missed by no tag. */
  lemma CollectedSettles(l: Local, k: Local, digest: string)
    requires Settled(l, l.files.tags) && digest !in l.files.tags.Values
    requires k.files.tags == l.files.tags && k.rows == l.rows && k.faults == l.faults
    requires forall d :: d != digest ==> Get(k.files.manifests, d) == Get(l.files.manifests, d)
    ensures Settled(k, k.files.tags)
  {
    forall t | t in l.files.tags && Complete(l.files, l.files.tags[t]) ensures Complete(k.files, l.files.tags[t]) {
      assert l.files.tags[t] in l.files.tags.Values;
      assert Get(k.files.manifests, l.files.tags[t]) == Get(l.files.manifests, l.files.tags[t]);
    }
  }

  lemma PolicyKeeps(env: Env, l: Local, e: Event)
    requires Inv(env, l) && Enabled(env, l, e)
    requires e.BeginPolicy? || e.StorePolicy?
    ensures Inv(env, Apply(env, l, e))
  {
    hide StoringEnabled;
    hide StoringApply;
    hide LinkingEnabled;
    hide LinkingApply;
    hide DeletingEnabled;
    hide DeletingApply;
    hide CollectingEnabled;
    hide CollectingApply;
    hide Hashed;
    hide LinkInv;
    hide DeleteInv;
  }

  lemma AbandonKeeps(env: Env, l: Local)
    requires Inv(env, l) && Enabled(env, l, Abandon)
    ensures Inv(env, Apply(env, l, Abandon))
  {
    hide StoringEnabled;
    hide StoringApply;
    hide LinkingEnabled;
    hide LinkingApply;
    hide DeletingEnabled;
    hide DeletingApply;
    hide CollectingEnabled;
    hide CollectingApply;
    hide Hashed;
    hide DeleteInv;
  }

  lemma BeginDeleteKeeps(env: Env, l: Local, e: Event)
    requires Inv(env, l) && Enabled(env, l, e) && e.BeginDelete?
    ensures Inv(env, Apply(env, l, e))
  {
    hide StoringEnabled;
    hide StoringApply;
    hide LinkingEnabled;
    hide LinkingApply;
    hide CollectingEnabled;
    hide CollectingApply;
    hide OtherEnabled;
    hide OtherApply;
    hide Hashed;
    hide LinkInv;
    hide ValidTag;
    hide ValidDigest;
  }

  // ---------------------------------------------------------------- deletion

  lemma DeleteStarts(k: Local, digest: string)
    requires DigestReference(digest) && k.job == Dropping(digest, digest, Named(k.files, digest))
    requires digest !in k.files.manifests
    requires !k.faults.undo && !k.faults.dropped ==> Agrees(k.files.tags, k.rows)
    requires !k.faults.undo ==> Consonant(k.files.tags, k.rows)
    requires NoFaults(k.faults) ==> Covers(k.files.tags, k.rows)
    requires !k.faults.removal ==>
      forall t :: t in k.files.tags && k.files.tags[t] != digest ==> Complete(k.files, k.files.tags[t])
    ensures DeleteInv(k, k.job.value)
  {
  }

  lemma RemoveManifestKeeps(env: Env, l: Local)
    requires Inv(env, l) && Enabled(env, l, RemoveManifest)
    ensures Inv(env, Apply(env, l, RemoveManifest))
  {
    var k := Apply(env, l, RemoveManifest);
    var digest := l.job.value.digest;
    assert Settled(l, l.files.tags);
    assert Named(k.files, digest) == Named(l.files, digest);
    forall t | t in l.files.tags && l.files.tags[t] != digest && !l.faults.removal
      ensures Complete(k.files, l.files.tags[t])
    {
      assert Complete(l.files, l.files.tags[t]);
    }
    DeleteStarts(k, digest);
  }

  lemma RemoveManifestFailsKeeps(env: Env, l: Local, e: Event)
    requires Inv(env, l) && Enabled(env, l, e) && e.RemoveManifestFails?
    ensures Inv(env, Apply(env, l, e))
  {
    var k := Apply(env, l, e);
    var digest := l.job.value.digest;
    if !k.faults.removal {
      forall t | t in l.files.tags ensures Complete(k.files, l.files.tags[t]) {
        assert l.files.tags[t] == digest ==> t in Named(l.files, digest);
        assert Complete(l.files, l.files.tags[t]);
      }
    }
    assert Settled(k, k.files.tags);
  }

  lemma UntagKeepsDelete(l: Local, job: Job, tag: string)
    requires job.Untagging? && DeleteInv(l, job) && tag in job.pending
    ensures
      var next := Dropping(job.reference, job.digest, job.pending - {tag}).value;
      DeleteInv(l.(files := TagRemoved(l.files, tag)), next)
  {
    var files := TagRemoved(l.files, tag);
    if DigestReference(job.reference) {
      assert tag in Named(l.files, job.digest);
      assert Named(files, job.digest) == job.pending - {tag};
    }
  }

  lemma UntagKeeps(env: Env, l: Local, e: Event)
    requires Inv(env, l) && Enabled(env, l, e) && e.Untag?
    ensures Inv(env, Apply(env, l, e))
  {
    var job := l.job.value;
    assert DeleteInv(l, job);
    UntagKeepsDelete(l, job, e.tag);
    var k := Apply(env, l, e);
    hide DeleteInv;
    assert DeleteInv(l.(files := TagRemoved(l.files, e.tag)), k.job.value);
    DeleteIgnoresJob(l.(files := TagRemoved(l.files, e.tag)), k, k.job.value);
  }

  lemma DeleteIgnoresJob(l: Local, k: Local, job: Job)
    requires (job.Untagging? || job.Unrecording?) && DeleteInv(l, job) && k == l.(job := k.job)
    ensures DeleteInv(k, job)
  {
  }

  lemma UntagFailsKeeps(env: Env, l: Local, e: Event)
    requires Inv(env, l) && Enabled(env, l, e) && (e.UntagFails? || e.UnrecordFails?)
    ensures Inv(env, Apply(env, l, e))
  {
    assert DeleteInv(l, l.job.value);
    var k := Apply(env, l, e);
    if e.UnrecordFails? && DigestReference(l.job.value.reference) {
      forall t | t in l.files.tags ensures l.files.tags[t] != l.job.value.digest {
        assert t !in Named(l.files, l.job.value.digest);
      }
    }
    assert Settled(k, k.files.tags);
  }

  lemma DeletedRows(rows: Rows, reference: string, digest: string)
    requires Rooted(rows)
    ensures ReferenceDeleted(rows, reference, digest).tags == Unnamed(rows.tags, reference, digest)
    ensures Rooted(ReferenceDeleted(rows, reference, digest))
    ensures PolicyRooted(rows) ==> PolicyRooted(ReferenceDeleted(rows, reference, digest))
  {
    var left := Unnamed(rows.tags, reference, digest);
    if |left| == 0 {
      assert left == map[];
    }
  }

  lemma DeleteSettles(l: Local, job: Job, rows: Rows)
    requires job.Unrecording? && DeleteInv(l, job)
    requires rows.tags == Unnamed(l.rows.tags, job.reference, job.digest)
    ensures Settled(l.(rows := rows, job := None), l.files.tags)
  {
    forall t | t in l.files.tags && DigestReference(job.reference) ensures l.files.tags[t] != job.digest {
      assert t !in Named(l.files, job.digest);
    }
  }

  lemma UnrecordKeeps(env: Env, l: Local)
    requires Inv(env, l) && Enabled(env, l, Unrecord)
    ensures Inv(env, Apply(env, l, Unrecord))
  {
    hide ReferenceDeleted;
    hide Settled;
    hide DeleteInv;
    hide Rooted;
    hide PolicyRooted;
    hide Hashed;
    var job := l.job.value;
    DeletedRows(l.rows, job.reference, job.digest);
    var rows := ReferenceDeleted(l.rows, job.reference, job.digest);
    DeleteSettles(l, job, rows);
    assert Apply(env, l, Unrecord) == l.(rows := rows, job := None);
  }

  // ---------------------------------------------------------------- linking and rolling back

  lemma JobLink(env: Env, l: Local)
    requires Inv(env, l) && l.job.Some?
    requires l.job.value.Checking? || l.job.value.Linking? || l.job.value.Undoing?
    ensures LinkInv(env, l, l.job.value)
  {
  }

  lemma CheckKeeps(env: Env, l: Local)
    requires Inv(env, l) && Enabled(env, l, Check)
    ensures Inv(env, Apply(env, l, Check))
  {
    var k := Apply(env, l, Check);
    assert LinkInv(env, l, l.job.value);
    var link, more := l.job.value.link, k.job.value.link;
    forall i | 0 <= i < |more.saved|
      ensures more.saved[i].tag == more.tags[i] && more.saved[i].before == Get(more.base, more.tags[i])
      ensures Permitted(env, more, more.saved[i])
    {
      if i < |link.saved| {
        assert more.saved[i] == link.saved[i];
        assert Permitted(env, link, link.saved[i]);
      }
    }
    assert k.job.value.Linking? ==> more.tags[..0] == [];
    assert LinkInv(env, k, k.job.value);
  }

  lemma MovedNext(tags: seq<string>, k: nat)
    requires k < |tags|
    ensures Elements(tags[..k + 1]) == Elements(tags[..k]) + {tags[k]}
  {
    assert tags[..k + 1] == tags[..k] + [tags[k]];
  }

  lemma MixedLinked(tags: map<string, string>, link: Link, moved: set<string>, tag: string)
    requires Mixed(tags, link, moved)
    ensures Mixed(tags[tag := link.digest], link, moved + {tag})
  {
    forall t ensures Get(tags[tag := link.digest], t) == if t in moved + {tag} then Some(link.digest) else Get(link.base, t) {
      assert t != tag ==> Get(tags[tag := link.digest], t) == Get(tags, t);
    }
  }

  lemma LinkNextKeeps(env: Env, l: Local)
    requires Inv(env, l) && Enabled(env, l, LinkNext)
    ensures Inv(env, Apply(env, l, LinkNext))
  {
    JobLink(env, l);
    LinkNextLinks(env, l, l.job.value);
    hide LinkInv;
  }

  lemma LinkNextLinks(env: Env, l: Local, job: Job)
    requires job.Linking? && job.next < |job.link.tags| && LinkInv(env, l, job)
    requires Reaches(l.files.tags.Keys, job.link.tags[job.next])
    ensures
      var k := l.(files := TagLinked(l.files, job.link.tags[job.next], job.link.digest),
                  job := Some(job.(next := job.next + 1)));
      LinkInv(env, k, k.job.value)
  {
    var tag := job.link.tags[job.next];
    MovedNext(job.link.tags, job.next);
    MixedLinked(l.files.tags, job.link, Moved(job), tag);
    ReachedNext(l.files.tags, job.link, job.next);
    hide Reached;
    hide Mixed;
    hide Reaches;
    hide Settled;
    hide SavedWell;
  }

  lemma ReachedNext(tags: map<string, string>, link: Link, next: nat)
    requires next < |link.tags| && Reached(tags.Keys, link, next) && Mixed(tags, link, Elements(link.tags[..next]))
    requires Reaches(tags.Keys, link.tags[next])
    ensures Reached(tags[link.tags[next] := link.digest].Keys, link, next + 1)
  {
    MovedNext(link.tags, next);
    var all := link.base.Keys + Elements(link.tags[..next]);
    forall t | t in all ensures t in tags {
      assert Get(tags, t).Some?;
    }
    assert tags.Keys == all;
  }

  /** When nothing is left to roll back, the tag files are what they were. */
  lemma RollingEnds(env: Env, k: Local, link: Link, left: nat, linked: nat)
    requires link.tags != [] && left <= linked <= |link.tags| && |link.saved| == |link.tags|
    requires k.job == Rolling(link, left, linked)
    requires Settled(k, link.base) && Complete(k.files, link.digest) && SavedWell(env, link)
    requires k.rows.tags != map[] ==> PolicyInForce(k.rows) == link.policy
    requires !k.faults.orphan ==> AtMost(k.rows, link.policy)
    requires Reached(k.files.tags.Keys, link, linked)
    requires !k.faults.undo ==>
      Mixed(k.files.tags, link, Elements(link.tags[..left]) - Elements(link.tags[left..linked]))
    requires Loose(k.files.tags, link)
    ensures JobInv(env, k)
    ensures left == 0 && !k.faults.undo ==> k.files.tags == link.base
  {
    if left == 0 {
      if !k.faults.undo {
        assert forall t :: Get(k.files.tags, t) == Get(link.base, t);
        SameLookups(k.files.tags, link.base);
      }
      if !k.faults.removal {
        LooseResolves(k, link);
      }
    } else {
      assert LinkInv(env, k, k.job.value);
    }
  }

  lemma LinkStopsKeeps(env: Env, l: Local, e: Event)
    requires Inv(env, l) && Enabled(env, l, e) && (e.LinkFails? || e.CommitFails?)
    ensures Inv(env, Apply(env, l, e))
  {
    var job := l.job.value;
    assert LinkInv(env, l, job);
    assert job.link.tags[job.next..job.next] == [];
    assert Moved(job) == Elements(job.link.tags[..job.next]) - Elements(job.link.tags[job.next..job.next]);
    RollingEnds(env, Apply(env, l, e), job.link, job.next, job.next);
  }

  lemma MovedBack(tags: seq<string>, left: nat, linked: nat)
    requires 0 < left <= linked <= |tags|
    ensures
      Elements(tags[..left - 1]) - Elements(tags[left - 1..linked]) ==
      Elements(tags[..left]) - Elements(tags[left..linked]) - {tags[left - 1]}
  {
    assert tags[..left] == tags[..left - 1] + [tags[left - 1]];
    assert tags[left - 1..linked] == [tags[left - 1]] + tags[left..linked];
  }

  lemma MixedRestored(files: Files, link: Link, moved: set<string>, saved: Saved)
    requires Mixed(files.tags, link, moved) && saved.before == Get(link.base, saved.tag)
    ensures Mixed(TagRestored(files, saved).tags, link, moved - {saved.tag})
  {
    var after := TagRestored(files, saved).tags;
    forall t ensures Get(after, t) == if t in moved - {saved.tag} then Some(link.digest) else Get(link.base, t) {
      assert t != saved.tag ==> Get(after, t) == Get(files.tags, t);
      assert t == saved.tag ==> Get(after, t) == saved.before;
    }
  }

  lemma RestoredLoose(files: Files, link: Link, saved: Saved, linked: nat)
    requires saved.before == Get(link.base, saved.tag) && Loose(files.tags, link) && Reached(files.tags.Keys, link, linked)
    ensures Loose(TagRestored(files, saved).tags, link) && Reached(TagRestored(files, saved).tags.Keys, link, linked)
  {
    assert saved.before.Some? ==> saved.tag in link.base;
    hide Reaches;
  }

  lemma UndoNextRolls(env: Env, l: Local, job: Job)
    requires job.Undoing? && LinkInv(env, l, job)
    ensures
      var k := l.(files := TagRestored(l.files, job.link.saved[job.left - 1]),
                  job := Rolling(job.link, job.left - 1, job.linked));
      JobInv(env, k)
  {
    hide SavedWell;
    hide Settled;
    hide Loose;
    hide Reached;
    hide Mixed;
    hide JobInv;
    hide AtMost;
    hide PolicyInForce;
    var saved := job.link.saved[job.left - 1];
    SavedAt(env, job.link, job.left - 1);
    var k := l.(files := TagRestored(l.files, saved), job := Rolling(job.link, job.left - 1, job.linked));
    assert k.files.manifests == l.files.manifests && Complete(k.files, job.link.digest);
    SettledStays(l, k, job.link.base);
    hide Complete;
    hide TagRestored;
    RestoredLoose(l.files, job.link, saved, job.linked);
    MovedBack(job.link.tags, job.left, job.linked);
    if !l.faults.undo {
      MixedRestored(l.files, job.link, Moved(job), saved);
    }
    RollingEnds(env, k, job.link, job.left - 1, job.linked);
  }

  lemma SavedAt(env: Env, link: Link, i: nat)
    requires SavedWell(env, link) && i < |link.saved|
    ensures link.saved[i].before == Get(link.base, link.saved[i].tag)
    ensures |link.saved| <= |link.tags| && link.saved[i].tag == link.tags[i]
  {
    hide Permitted;
  }

  /** Being settled is a matter of the manifests, the rows and the faults. */
  lemma SettledStays(l: Local, k: Local, tags: map<string, string>)
    requires Settled(l, tags) && k.files.manifests == l.files.manifests && k.rows == l.rows && k.faults == l.faults
    ensures Settled(k, tags)
  {
  }

  lemma UndoNextApplied(env: Env, l: Local)
    requires Enabled(env, l, UndoNext)
    ensures l.job.Some? && l.job.value.Undoing?
    ensures
      var job := l.job.value;
      Apply(env, l, UndoNext) == l.(files := TagRestored(l.files, job.link.saved[job.left - 1]),
                                    job := Rolling(job.link, job.left - 1, job.linked))
  {
  }

  lemma UndoNextKeeps(env: Env, l: Local)
    requires Inv(env, l) && Enabled(env, l, UndoNext)
    ensures Inv(env, Apply(env, l, UndoNext))
  {
    UndoNextApplied(env, l);
    hide Apply;
    hide Enabled;
    JobLink(env, l);
    UndoNextRolls(env, l, l.job.value);
    hide JobInv;
    hide LinkInv;
  }

  lemma UndoFailsKeeps(env: Env, l: Local)
    requires Inv(env, l) && Enabled(env, l, UndoFails)
    ensures Inv(env, Apply(env, l, UndoFails))
  {
    var job := l.job.value;
    assert LinkInv(env, l, job);
    RollingEnds(env, Apply(env, l, UndoFails), job.link, job.left - 1, job.linked);
  }

  /** The row of a tag after a push: nothing but the pull time is kept, and only if the tag named the digest before. */
  function PushedRow(tags: map<string, TagRow>, link: Link, tag: string): TagRow {
    TagRow(link.digest, link.mediaType, link.size, link.now,
           if tag in tags && tags[tag].digest == link.digest then tags[tag].pulledAt else None)
  }

  /** A committed upsert of one digest under a list of tags, seen per tag. */
  lemma {:induction false} LinkRecords(name: string, link: Link, rows: Rows)
    requires link.tags != []
    ensures
      var after := Upserted(rows, LinkParams(name, link), link.now);
      && (forall t :: Get(after.tags, t) == if t in link.tags then Some(PushedRow(rows.tags, link, t)) else Get(rows.tags, t))
      && PushCounted(rows, link.now, after)
  {
    hide *;
    var params := LinkParams(name, link);
    var after := Upserted(rows, params, link.now);
    UpsertRecords(rows, params, link.now);
    forall t
      ensures Get(after.tags, t) == if t in link.tags then Some(PushedRow(rows.tags, link, t)) else Get(rows.tags, t)
    {
      LinkRecord(name, link, rows.tags, after.tags, t);
    }
  }

  lemma {:induction false} LinkRecord(name: string, link: Link, was: map<string, TagRow>, tags: map<string, TagRow>, t: string)
    requires TagsRecorded(was, LinkParams(name, link), link.now, tags)
    ensures Get(tags, t) == if t in link.tags then Some(PushedRow(was, link, t)) else Get(was, t)
  {
    var params := LinkParams(name, link);
    if t in link.tags {
      var j :| 0 <= j < |link.tags| && link.tags[j] == t;
      assert params[j] in params && params[j].tag == t;
      var i := LastOfTag(params, t);
      assert RowRecorded(was, params, link.now, i, tags[t]);
      assert NamedAlready(was, params, t) <==> t in was && was[t].digest == link.digest;
    }
  }

  /** When every tag is linked and the upsert commits, files and rows agree as far as they did. */
  lemma CommitAgrees(tags: map<string, string>, link: Link, rows: Rows, after: Rows)
    requires Mixed(tags, link, Elements(link.tags))
    requires forall t :: t in link.tags ==> t in after.tags && after.tags[t].digest == link.digest
    requires forall t :: t !in link.tags ==> Get(after.tags, t) == Get(rows.tags, t)
    ensures Agrees(link.base, rows) ==> Agrees(tags, after)
    ensures Consonant(link.base, rows) ==> Consonant(tags, after)
    ensures Covers(link.base, rows) ==> Covers(tags, after)
  {
    forall t
      ensures Get(tags, t) == if t in link.tags then Some(link.digest) else Get(link.base, t)
      ensures if t in link.tags then t in after.tags && after.tags[t].digest == link.digest
              else Get(after.tags, t) == Get(rows.tags, t)
    {
    }
    hide Mixed;
    forall t | t in tags && Agrees(link.base, rows) ensures t in after.tags && after.tags[t].digest == tags[t] {
      assert Get(after.tags, t).Some?;
    }
    forall t | t in tags && t in after.tags && Consonant(link.base, rows) ensures after.tags[t].digest == tags[t] {
      assert t !in link.tags ==> Get(after.tags, t) == Get(rows.tags, t);
    }
    forall t | t in after.tags && Covers(link.base, rows) ensures t in tags {
      assert t !in link.tags ==> Get(after.tags, t) == Get(rows.tags, t);
    }
  }

  lemma CommittedRows(name: string, link: Link, rows: Rows)
    requires link.tags != []
    ensures
      var after := Upserted(rows, LinkParams(name, link), link.now);
      && Rooted(after) && PolicyRooted(after)
      && (forall t :: t in link.tags ==> t in after.tags && after.tags[t].digest == link.digest)
      && (forall t :: t !in link.tags ==> Get(after.tags, t) == Get(rows.tags, t))
  {
    var after := Upserted(rows, LinkParams(name, link), link.now);
    LinkRecords(name, link, rows);
    hide Upserted;
    forall t | t in link.tags ensures t in after.tags && after.tags[t].digest == link.digest {
      assert Get(after.tags, t) == Some(PushedRow(rows.tags, link, t));
    }
  }

  lemma LooseResolves(l: Local, link: Link)
    requires Loose(l.files.tags, link) && Complete(l.files, link.digest) && Resolves(link.base, l.files)
    ensures Resolves(l.files.tags, l.files)
  {
    forall t | t in l.files.tags ensures Complete(l.files, l.files.tags[t]) {
      assert l.files.tags[t] == link.digest || Get(link.base, t) == Some(l.files.tags[t]);
    }
  }

  lemma CommitSettles(env: Env, l: Local, job: Job, rows: Rows)
    requires job.Linking? && job.next == |job.link.tags| && LinkInv(env, l, job)
    requires forall t :: t in job.link.tags ==> t in rows.tags && rows.tags[t].digest == job.link.digest
    requires forall t :: t !in job.link.tags ==> Get(rows.tags, t) == Get(l.rows.tags, t)
    ensures Settled(l.(rows := rows, job := None), l.files.tags)
  {
    assert job.link.tags[..job.next] == job.link.tags;
    CommitAgrees(l.files.tags, job.link, l.rows, rows);
    if !l.faults.removal {
      LooseResolves(l, job.link);
    }
  }

  lemma CommitKeeps(env: Env, l: Local)
    requires Inv(env, l) && Enabled(env, l, Commit)
    ensures Inv(env, Apply(env, l, Commit))
  {
    hide Upserted;
    hide LinkParams;
    var job := l.job.value;
    CommittedRows(l.name, job.link, l.rows);
    JobLink(env, l);
    CommitSettles(env, l, job, Upserted(l.rows, LinkParams(l.name, job.link), job.link.now));
    hide LinkInv;
    hide Settled;
  }

  // ---------------------------------------------------------------- steps without the lock

  lemma PulledKeepsRows(rows: Rows, reference: string, now: int)
    requires Rooted(rows)
    ensures var p := Pulled(rows, reference, now);
      && p.tags.Keys == rows.tags.Keys
      && (forall t :: t in rows.tags ==> p.tags[t].digest == rows.tags[t].digest)
      && Rooted(p)
      && (rows.tags != map[] ==> PolicyInForce(p) == PolicyInForce(rows))
      && (PolicyRooted(rows) ==> PolicyRooted(p) && AtMost(p, PolicyInForce(rows)))
  {
  }

  /** Rows with the same tags and digests. */
  ghost predicate SameDigests(l: Local, k: Local) {
    && k == l.(rows := k.rows) && k.rows.tags.Keys == l.rows.tags.Keys
    && forall t :: t in k.rows.tags ==> k.rows.tags[t].digest == l.rows.tags[t].digest
  }

  lemma SameDigestsSettled(l: Local, k: Local, tags: map<string, string>)
    requires SameDigests(l, k)
    ensures Settled(l, tags) ==> Settled(k, tags)
  {
  }

  lemma SameDigestsDelete(l: Local, k: Local, job: Job)
    requires (job.Untagging? || job.Unrecording?) && SameDigests(l, k) && DeleteInv(l, job)
    ensures DeleteInv(k, job)
  {
    hide Named;
  }

  /** What a pull may do to the rows disturbs no job. */
  lemma UnlockedKeepsJob(env: Env, l: Local, k: Local)
    requires JobInv(env, l) && SameDigests(l, k)
    requires l.rows.tags != map[] ==> PolicyInForce(k.rows) == PolicyInForce(l.rows)
    requires !l.faults.orphan ==> AtMost(k.rows, PolicyInForce(l.rows))
    ensures JobInv(env, k)
  {
    hide Hashes;
    hide Mixed;
    hide Loose;
    hide SavedWell;
    hide Reached;
    hide Complete;
    hide Settled;
    hide DeleteInv;
    SameDigestsSettled(l, k, l.files.tags);
    assert k.rows.tags == map[] <==> l.rows.tags == map[] by {
      assert k.rows.tags == map[] <==> k.rows.tags.Keys == {};
    }
    if l.job.Some? {
      var job := l.job.value;
      if job.Checking? || job.Linking? || job.Undoing? {
        SameDigestsSettled(l, k, job.link.base);
      } else if job.Untagging? || job.Unrecording? {
        SameDigestsDelete(l, k, job);
      }
    }
  }

  /** Rows that go at any moment disturb no job: what is left has no tag to disagree about and no policy. */
  lemma DropKeepsJob(env: Env, l: Local, k: Local)
    requires JobInv(env, l)
    requires k == l.(rows := NO_ROWS, faults := k.faults)
    requires k.faults == l.faults.(dropped := l.faults.dropped || l.rows.tags != map[])
    ensures JobInv(env, k)
  {
    hide Settled;
    hide LinkInv;
    hide DeleteInv;
    hide Hashes;
    DropKeepsSettled(l, k, l.files.tags);
    if l.job.Some? {
      var job := l.job.value;
      if job.Checking? || job.Linking? || job.Undoing? {
        DropKeepsLink(env, l, k, job);
      } else if job.Untagging? || job.Unrecording? {
        DropKeepsDelete(l, k, job);
      }
    }
  }

  lemma DropKeepsSettled(l: Local, k: Local, tags: map<string, string>)
    requires k == l.(rows := NO_ROWS, faults := k.faults)
    requires k.faults == l.faults.(dropped := l.faults.dropped || l.rows.tags != map[])
    ensures Settled(l, tags) ==> Settled(k, tags)
  {
  }

  lemma DropKeepsDelete(l: Local, k: Local, job: Job)
    requires (job.Untagging? || job.Unrecording?) && DeleteInv(l, job)
    requires k == l.(rows := NO_ROWS, faults := k.faults)
    requires k.faults == l.faults.(dropped := l.faults.dropped || l.rows.tags != map[])
    ensures DeleteInv(k, job)
  {
    hide Named;
  }

  lemma DropKeepsLink(env: Env, l: Local, k: Local, job: Job)
    requires (job.Checking? || job.Linking? || job.Undoing?) && LinkInv(env, l, job)
    requires k == l.(rows := NO_ROWS, faults := k.faults)
    requires k.faults == l.faults.(dropped := l.faults.dropped || l.rows.tags != map[])
    ensures LinkInv(env, k, job)
  {
    DropKeepsSettled(l, k, job.link.base);
    hide Settled;
    hide Mixed;
    hide Loose;
    hide SavedWell;
    hide Reached;
  }

  lemma UnlockedKeeps(env: Env, l: Local, e: Event)
    requires Inv(env, l) && Enabled(env, l, e) && Unlocked(e)
    ensures Inv(env, Apply(env, l, e))
  {
    if e.PullManifest? {
      PulledKeepsRows(l.rows, e.reference, e.now);
      hide Pulled;
      UnlockedKeepsJob(env, l, Apply(env, l, e));
      hide JobInv;
    } else if l.rows.repository.Some? {
      DropKeepsJob(env, l, Apply(env, l, e));
      hide JobInv;
    }
  }

  // ---------------------------------------------------------------- every step

  lemma LinkingKeeps(env: Env, l: Local, e: Event)
    requires Inv(env, l) && Enabled(env, l, e) && LinkingEvent(e)
    ensures Inv(env, Apply(env, l, e))
  {
    if e.Check? {
      CheckKeeps(env, l);
    } else if e.LinkNext? {
      LinkNextKeeps(env, l);
    } else if e.Commit? {
      CommitKeeps(env, l);
    } else if e.UndoNext? {
      UndoNextKeeps(env, l);
    } else if e.UndoFails? {
      UndoFailsKeeps(env, l);
    } else {
      LinkStopsKeeps(env, l, e);
    }
  }

  lemma DeletingKeeps(env: Env, l: Local, e: Event)
    requires Inv(env, l) && Enabled(env, l, e) && DeletingEvent(e)
    ensures Inv(env, Apply(env, l, e))
  {
    if e.RemoveManifest? {
      RemoveManifestKeeps(env, l);
    } else if e.RemoveManifestFails? {
      RemoveManifestFailsKeeps(env, l, e);
    } else if e.Untag? {
      UntagKeeps(env, l, e);
    } else if e.Unrecord? {
      UnrecordKeeps(env, l);
    } else if e.BeginDelete? {
      BeginDeleteKeeps(env, l, e);
    } else {
      UntagFailsKeeps(env, l, e);
    }
  }

  lemma StepKeeps(env: Env, l: Local, e: Event)
    requires Sound(env) && Inv(env, l) && Enabled(env, l, e)
    ensures Inv(env, Apply(env, l, e))
  {
    if Unlocked(e) {
      UnlockedKeeps(env, l, e);
    } else if StoringEvent(e) {
      StoringKeeps(env, l, e);
    } else if LinkingEvent(e) {
      LinkingKeeps(env, l, e);
    } else if DeletingEvent(e) {
      DeletingKeeps(env, l, e);
    } else if CollectingEvent(e) {
      CollectingKeeps(env, l, e);
    } else if e.Abandon? {
      AbandonKeeps(env, l);
    } else {
      PolicyKeeps(env, l, e);
    }
  }

  /** The step moves the tag from one digest to a different one. */
  ghost predicate Moves(l: Local, k: Local, tag: string) {
    tag in l.files.tags && tag in k.files.tags && l.files.tags[tag] != k.files.tags[tag]
  }

  lemma OnlyLinksAndUndosMove(env: Env, l: Local, e: Event, tag: string)
    requires Enabled(env, l, e) && Moves(l, Apply(env, l, e), tag)
    ensures tag in l.files.tags
    ensures l.job.Some? && (l.job.value.Linking? || l.job.value.Undoing?)
    ensures
      var job := l.job.value;
      && (job.Linking? ==>
           && job.next < |job.link.tags| && job.link.tags[job.next] == tag
           && l.files.tags[tag] != job.link.digest)
      && (job.Undoing? ==>
           && 0 < job.left <= |job.link.saved|
           && var saved := job.link.saved[job.left - 1];
              saved.tag == tag && saved.before.Some? && saved.before.value != l.files.tags[tag])
  {
    assert e.LinkNext? || e.UndoNext?;
  }

  /**
   Overwrite protection, write by write: whichever step moves a tag, be it a link or a rollback, the policy
   in force at that very moment does not protect the tag. It is enough that the repository has a tag row, or that
   no policy was ever stored for it while its row was gone.
   */
  lemma MoveIsPermitted(env: Env, l: Local, e: Event, tag: string)
    requires Inv(env, l) && Enabled(env, l, e)
    requires Moves(l, Apply(env, l, e), tag)
    requires l.rows.tags != map[] || !l.faults.orphan
    ensures
      var policy := PolicyInForce(l.rows);
      policy.mode != Immutable && !(policy.mode == Pattern && env.compiles(policy.pattern) && env.matches(policy.pattern, tag))
  {
    hide *;
    OnlyLinksAndUndosMove(env, l, e, tag);
    JobLink(env, l);
    HeldTagIsPermitted(env, l, l.job.value, tag);
    ProtectsMeans(env, PolicyInForce(l.rows), tag);
  }

  lemma ProtectsMeans(env: Env, policy: Policy, tag: string)
    ensures Protects(env, policy, tag) <==>
            policy.mode == Immutable
            || (policy.mode == Pattern && env.compiles(policy.pattern) && env.matches(policy.pattern, tag))
  {
  }

  /** Unless a rollback write has failed or an unlocked delete has taken tag rows before, a tag that is moved has its row. */
  lemma MovedTagIsRecorded(env: Env, l: Local, e: Event, tag: string)
    requires Inv(env, l) && Enabled(env, l, e) && !l.faults.undo && !l.faults.dropped
    requires Moves(l, Apply(env, l, e), tag)
    ensures tag in l.rows.tags
  {
    OnlyLinksAndUndosMove(env, l, e, tag);
    hide Enabled;
    hide Apply;
    JobLink(env, l);
    hide Inv;
    HeldTagIsRecorded(env, l, l.job.value, tag);
  }

  lemma HeldTagIsRecorded(env: Env, l: Local, job: Job, tag: string)
    requires (job.Linking? || job.Undoing?) && LinkInv(env, l, job) && !l.faults.undo && !l.faults.dropped
    requires tag in l.files.tags
    requires job.Linking? ==> l.files.tags[tag] != job.link.digest
    requires job.Undoing? ==>
      job.link.saved[job.left - 1].tag == tag && job.link.saved[job.left - 1].before.Some?
    ensures tag in l.rows.tags
  {
    hide Mixed;
    hide Reached;
    if job.Linking? {
      assert Get(job.link.base, tag) == Some(l.files.tags[tag]);
    } else {
      assert Get(job.link.base, tag) == job.link.saved[job.left - 1].before;
    }
    assert Agrees(job.link.base, l.rows);
  }

  /** The tag the lock holder is about to write passed the check, and the policy has not changed since. */
  lemma HeldTagIsPermitted(env: Env, l: Local, job: Job, tag: string)
    requires (job.Linking? || job.Undoing?) && LinkInv(env, l, job)
    requires l.rows.tags != map[] || !l.faults.orphan
    requires tag in l.files.tags
    requires job.Linking? ==>
      job.next < |job.link.tags| && job.link.tags[job.next] == tag && l.files.tags[tag] != job.link.digest
    requires job.Undoing? ==>
      var saved := job.link.saved[job.left - 1];
      saved.tag == tag && saved.before.Some? && saved.before.value != l.files.tags[tag]
    ensures !Protects(env, PolicyInForce(l.rows), tag)
  {
    assert Permitted(env, job.link, job.link.saved[if job.Linking? then job.next else job.left - 1]);
  }

  lemma SavedManifestStored(env: Env, l: Local, job: Job, i: nat)
    requires job.Undoing? && LinkInv(env, l, job) && !l.faults.removal && i < |job.link.saved|
    ensures job.link.saved[i].before.Some? ==> job.link.saved[i].before.value in l.files.manifests
  {
    var saved := job.link.saved[i];
    assert saved.before == Get(job.link.base, job.link.tags[i]);
    if saved.before.Some? {
      assert Complete(l.files, job.link.base[job.link.tags[i]]);
    }
  }

  /** A rollback is never refused by a missing manifest while no earlier removal went wrong. */
  lemma RollbackFindsManifests(env: Env, l: Local)
    requires Inv(env, l) && l.job.Some? && l.job.value.Undoing? && !l.faults.removal
    ensures Enabled(env, l, UndoNext)
  {
    var job := l.job.value;
    JobLink(env, l);
    hide Inv;
    hide Enabled;
    SavedManifestStored(env, l, job, job.left - 1);
    UndoNextEnabled(env, l);
  }

  lemma UndoNextEnabled(env: Env, l: Local)
    requires l.job.Some? && l.job.value.Undoing?
    requires
      var job := l.job.value;
      && 0 < job.left <= |job.link.saved|
      && var saved := job.link.saved[job.left - 1];
         && Reaches(l.files.tags.Keys, saved.tag)
         && (saved.before.Some? ==> saved.before.value in l.files.manifests)
    ensures Enabled(env, l, UndoNext)
  {
  }

  /** A manifest that tags name could only be removed in part, or its tags could not all be removed after it. */
  predicate StrandsTags(l: Local, e: Event) {
    && l.job.Some?
    && var job := l.job.value;
       || (e.RemoveManifestFails? && job.Removing? && !(e.keepContent && e.keepMedia) && Named(l.files, job.digest) != {})
       || (e.UntagFails? && job.Untagging? && DigestReference(job.reference))
  }

  /** A write of content failed and left a part of it that does not hash to the digest. */
  predicate TearsContent(env: Env, l: Local, e: Event) {
    && e.WriteContentFails? && l.job.Some? && l.job.value.Storing?
    && e.part.Some? && !Hashes(env, l.job.value.digest, e.part.value)
  }

  /** A policy is stored although its repository is gone. */
  predicate StoresStrayPolicy(l: Local, e: Event) {
    e.StorePolicy? && l.rows.repository.None?
  }

  /** Faults stay on record, and each of these is recorded by exactly one kind of step. */
  ghost predicate Recorded(env: Env, l: Local, e: Event, k: Local) {
    && (k.faults.undo <==> l.faults.undo || e.UndoFails?)
    && (k.faults.removal <==> l.faults.removal || StrandsTags(l, e))
    && (k.faults.torn <==> l.faults.torn || TearsContent(env, l, e))
    && (k.faults.orphan <==> l.faults.orphan || StoresStrayPolicy(l, e))
    && (k.faults.dropped <==> l.faults.dropped || Erases(l, e))
  }

  lemma StoringRecorded(env: Env, l: Local, e: Event)
    requires StoringEvent(e) && StoringEnabled(env, l, e)
    ensures Recorded(env, l, e, StoringApply(env, l, e))
  {
    hide Hashes;
    hide ValidTag;
    hide ValidDigest;
  }

  lemma LinkingRecorded(env: Env, l: Local, e: Event)
    requires LinkingEvent(e) && LinkingEnabled(env, l, e)
    ensures Recorded(env, l, e, LinkingApply(env, l, e))
  {
    hide CanCheck;
    hide Reaches;
    hide Upserted;
  }

  lemma DeletingRecorded(env: Env, l: Local, e: Event)
    requires DeletingEvent(e) && DeletingEnabled(l, e)
    ensures Recorded(env, l, e, DeletingApply(l, e))
  {
    hide ReferenceDeleted;
    hide Named;
    hide ValidTag;
    hide ValidDigest;
  }

  lemma FaultsRecorded(env: Env, l: Local, e: Event)
    requires Enabled(env, l, e)
    ensures Recorded(env, l, e, Apply(env, l, e))
  {
    if StoringEvent(e) {
      hide Recorded;
      hide StoringEnabled;
      hide StoringApply;
      StoringRecorded(env, l, e);
    } else if LinkingEvent(e) {
      hide Recorded;
      hide LinkingEnabled;
      hide LinkingApply;
      LinkingRecorded(env, l, e);
    } else if DeletingEvent(e) {
      hide Recorded;
      hide DeletingEnabled;
      hide DeletingApply;
      DeletingRecorded(env, l, e);
    }
  }

  /**
   A fault is recorded only with its damage: a failed removal ends its section with a tag whose manifest is gone or
   incomplete, a torn write leaves content that does not hash, and an orphaned policy stands without its repository.
   */
  lemma FaultsAreDamage(env: Env, l: Local, e: Event)
    requires Inv(env, l) && Enabled(env, l, e)
    ensures
      var k := Apply(env, l, e);
      && (!l.faults.removal && k.faults.removal ==> k.job.None? && !Resolves(k.files.tags, k.files))
      && (!l.faults.torn && k.faults.torn ==> k.job.None? && !Hashed(env, k.files))
      && (!l.faults.orphan && k.faults.orphan ==> !PolicyRooted(k.rows))
  {
    hide Inv;
    hide Enabled;
    hide Apply;
    var k := Apply(env, l, e);
    if !l.faults.removal && k.faults.removal {
      RemovalIsDamage(env, l, e);
    }
    if !l.faults.torn && k.faults.torn {
      TearIsDamage(env, l, e);
    }
    if !l.faults.orphan && k.faults.orphan {
      OrphanIsDamage(env, l, e);
    }
  }

  lemma OrphanIsDamage(env: Env, l: Local, e: Event)
    requires Enabled(env, l, e) && !l.faults.orphan && Apply(env, l, e).faults.orphan
    ensures !PolicyRooted(Apply(env, l, e).rows)
  {
    FaultsRecorded(env, l, e);
    hide StoringEnabled;
    hide StoringApply;
    hide LinkingEnabled;
    hide LinkingApply;
    hide DeletingEnabled;
    hide DeletingApply;
  }

  lemma TearIsDamage(env: Env, l: Local, e: Event)
    requires Enabled(env, l, e) && !l.faults.torn && Apply(env, l, e).faults.torn
    ensures Apply(env, l, e).job.None? && !Hashed(env, Apply(env, l, e).files)
  {
    FaultsRecorded(env, l, e);
    hide LinkingEnabled;
    hide LinkingApply;
    hide DeletingEnabled;
    hide DeletingApply;
    hide CollectingEnabled;
    hide CollectingApply;
    hide OtherEnabled;
    hide OtherApply;
    hide StrandsTags;
    var k := Apply(env, l, e);
    var digest := l.job.value.digest;
    assert digest in k.files.manifests && k.files.manifests[digest].content == e.part;
  }

  lemma RemovalIsDamage(env: Env, l: Local, e: Event)
    requires Inv(env, l) && Enabled(env, l, e) && !l.faults.removal && Apply(env, l, e).faults.removal
    ensures Apply(env, l, e).job.None? && !Resolves(Apply(env, l, e).files.tags, Apply(env, l, e).files)
  {
    FaultsRecorded(env, l, e);
    hide Inv;
    hide Enabled;
    hide Apply;
    hide Resolves;
    hide TearsContent;
    hide Named;
    if e.RemoveManifestFails? {
      TornRemovalIsDamage(env, l, e);
    } else {
      HaltedRemovalIsDamage(env, l, e);
    }
    hide Inv;
  }

  lemma TornRemovalIsDamage(env: Env, l: Local, e: Event)
    requires Inv(env, l) && Enabled(env, l, e) && StrandsTags(l, e) && e.RemoveManifestFails?
    ensures Apply(env, l, e).job.None? && !Resolves(Apply(env, l, e).files.tags, Apply(env, l, e).files)
  {
    hide Inv;
    var t :| t in Named(l.files, l.job.value.digest);
    assert t in l.files.tags && !Complete(Apply(env, l, e).files, l.files.tags[t]);
  }

  lemma HaltedRemovalIsDamage(env: Env, l: Local, e: Event)
    requires Inv(env, l) && Enabled(env, l, e) && StrandsTags(l, e) && e.UntagFails?
    ensures Apply(env, l, e).job.None? && !Resolves(Apply(env, l, e).files.tags, Apply(env, l, e).files)
  {
    assert DeleteInv(l, l.job.value);
    hide Inv;
    var t :| t in Named(l.files, l.job.value.digest);
    assert t in l.files.tags && !Complete(Apply(env, l, e).files, l.files.tags[t]);
  }

  /** A whole lock section keeps the invariant. */
  lemma {:induction false} RunsKeep(env: Env, l: Local, es: seq<Event>, k: Local)
    requires Sound(env) && Inv(env, l) && Runs(env, l, es, k)
    ensures Inv(env, k)
    decreases es
  {
    hide Inv;
    hide Enabled;
    hide Apply;
    if es != [] {
      StepKeeps(env, l, es[0]);
      RunsKeep(env, Apply(env, l, es[0]), es[1..], k);
    }
  }
}
