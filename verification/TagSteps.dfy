/** Each step of the tag protocol as the continuation of a run: when it may be taken and what it leaves. */
module TagSteps {
  import opened Wrappers
  import opened Names
  import opened ReadModel
  import opened TagMachine

  lemma {:induction false} NoSteps(env: Env, l: Local)
    ensures Runs(env, l, [], l)
  {
  }

  lemma DoBeginPush(env: Env, l: Local, reference: string, mediaType: string, content: Bytes, tags: seq<string>, now: int)
    returns (es: seq<Event>, k: Local)
    requires l.job.None?
    requires if DigestReference(reference) then Hashes(env, reference, content) else ValidTag(reference)
    ensures es == [BeginPush(reference, mediaType, content, tags, now)]
    ensures Runs(env, l, es, k)
    ensures k == l.(job := Some(Storing(PushDigest(env, reference, content), mediaType, content, tags, now, false)))
  {
    es, k := Extend(env, l, [], l, BeginPush(reference, mediaType, content, tags, now));
  }

  lemma DoAbandon(env: Env, l: Local, es: seq<Event>, m: Local) returns (fs: seq<Event>, k: Local)
    requires Runs(env, l, es, m) && m.job.Some?
    requires m.job.value.Storing? || m.job.value.Starting? || m.job.value.Checking? || m.job.value.Collecting?
    ensures Runs(env, l, fs, k) && k == m.(job := None)
  {
    fs, k := Extend(env, l, es, m, Abandon);
  }

  lemma DoWriteContent(env: Env, l: Local, es: seq<Event>, m: Local) returns (fs: seq<Event>, k: Local)
    requires Runs(env, l, es, m) && m.job.Some? && m.job.value.Storing? && !m.job.value.written
    ensures fs == es + [WriteContent]
    ensures Runs(env, l, fs, k)
    ensures
      var job := m.job.value;
      k == m.(files := ContentWritten(m.files, job.digest, job.content, job.now), job := Some(job.(written := true)))
  {
    fs, k := Extend(env, l, es, m, WriteContent);
  }

  lemma DoContentFails(env: Env, l: Local, es: seq<Event>, m: Local, part: Option<Bytes>)
    returns (fs: seq<Event>, k: Local)
    requires Runs(env, l, es, m) && m.job.Some? && m.job.value.Storing? && !m.job.value.written
    requires part.Some? ==> part.value <= m.job.value.content
    ensures Runs(env, l, fs, k)
    ensures
      var job := m.job.value;
      k == m.(files := ContentTorn(m.files, job.digest, part, job.now), job := None,
              faults := m.faults.(torn := m.faults.torn || (part.Some? && !Hashes(env, job.digest, part.value))))
  {
    fs, k := Extend(env, l, es, m, WriteContentFails(part));
  }

  lemma DoMediaFails(env: Env, l: Local, es: seq<Event>, m: Local, text: Option<string>)
    returns (fs: seq<Event>, k: Local)
    requires Runs(env, l, es, m) && m.job.Some? && m.job.value.Storing? && m.job.value.written
    requires text.Some? ==> text.value <= m.job.value.mediaType
    ensures Runs(env, l, fs, k)
    ensures
      var job := m.job.value;
      k == m.(files := MediaTorn(m.files, job.digest, text, job.now), job := None)
  {
    fs, k := Extend(env, l, es, m, WriteMediaFails(text));
  }

  lemma DoWriteMedia(env: Env, l: Local, es: seq<Event>, m: Local) returns (fs: seq<Event>, k: Local)
    requires Runs(env, l, es, m) && m.job.Some? && m.job.value.Storing? && m.job.value.written
    ensures fs == es + [WriteMedia]
    ensures Runs(env, l, fs, k)
    ensures
      var job := m.job.value;
      k == m.(files := MediaWritten(m.files, job.digest, job.mediaType, job.now),
              job := if job.tags == [] then None
                     else Some(Starting(job.digest, job.mediaType, env.estimate(job.content), job.tags, job.now)))
  {
    fs, k := Extend(env, l, es, m, WriteMedia);
  }

  lemma DoBeginAddTag(env: Env, l: Local, tag: string, digest: string, now: int) returns (es: seq<Event>, k: Local)
    requires l.job.None? && ValidTag(tag) && ValidDigest(digest) && Complete(l.files, digest)
    ensures Runs(env, l, es, k)
    ensures
      var stored := l.files.manifests[digest];
      k == l.(job := Some(Starting(digest, env.trim(stored.mediaType.value), env.estimate(stored.content.value), [tag], now)))
  {
    es, k := Extend(env, l, [], l, BeginAddTag(tag, digest, now));
  }

  lemma DoReadPolicy(env: Env, l: Local, es: seq<Event>, m: Local) returns (fs: seq<Event>, k: Local)
    requires Runs(env, l, es, m) && m.job.Some? && m.job.value.Starting?
    requires PolicyInForce(m.rows).mode == Pattern ==> env.compiles(PolicyInForce(m.rows).pattern)
    ensures fs == es + [ReadPolicy]
    ensures Runs(env, l, fs, k)
    ensures
      var job := m.job.value;
      k == m.(job := Some(Checking(Link(job.digest, job.mediaType, job.size, job.tags, job.now,
                                        PolicyInForce(m.rows), [], m.files.tags))))
  {
    fs, k := Extend(env, l, es, m, ReadPolicy);
  }

  lemma DoCheck(env: Env, l: Local, es: seq<Event>, m: Local) returns (fs: seq<Event>, k: Local)
    requires Runs(env, l, es, m) && m.job.Some? && m.job.value.Checking?
    requires CanCheck(env, m.files, m.job.value.link)
    ensures fs == es + [Check]
    ensures Runs(env, l, fs, k)
    ensures
      var link := m.job.value.link;
      var tag := link.tags[|link.saved|];
      var more := link.(saved := link.saved + [Saved(tag, Get(m.files.tags, tag))]);
      k == m.(job := Some(if |more.saved| == |more.tags| then Linking(more, 0) else Checking(more)))
  {
    fs, k := Extend(env, l, es, m, Check);
  }

  lemma DoLinkNext(env: Env, l: Local, es: seq<Event>, m: Local) returns (fs: seq<Event>, k: Local)
    requires Runs(env, l, es, m) && m.job.Some? && m.job.value.Linking?
    requires m.job.value.next < |m.job.value.link.tags| && m.job.value.link.digest in m.files.manifests
    requires Reaches(m.files.tags.Keys, m.job.value.link.tags[m.job.value.next])
    ensures Runs(env, l, fs, k)
    ensures
      var job := m.job.value;
      k == m.(files := TagLinked(m.files, job.link.tags[job.next], job.link.digest),
              job := Some(job.(next := job.next + 1)))
  {
    fs, k := Extend(env, l, es, m, LinkNext);
  }

  /** Linking stops: a link failed, or the database write after the last link did. */
  lemma DoStop(env: Env, l: Local, es: seq<Event>, m: Local) returns (fs: seq<Event>, k: Local)
    requires Runs(env, l, es, m) && m.job.Some? && m.job.value.Linking?
    requires m.job.value.next <= |m.job.value.link.tags|
    ensures fs == es + [if m.job.value.next == |m.job.value.link.tags| then CommitFails else LinkFails]
    ensures Runs(env, l, fs, k)
    ensures k == m.(job := Rolling(m.job.value.link, m.job.value.next, m.job.value.next))
  {
    fs, k := Extend(env, l, es, m, if m.job.value.next == |m.job.value.link.tags| then CommitFails else LinkFails);
  }

  lemma DoCommit(env: Env, l: Local, es: seq<Event>, m: Local) returns (fs: seq<Event>, k: Local)
    requires Runs(env, l, es, m) && m.job.Some? && m.job.value.Linking?
    requires m.job.value.next == |m.job.value.link.tags|
    ensures Runs(env, l, fs, k)
    ensures
      var link := m.job.value.link;
      k == m.(rows := Upserted(m.rows, LinkParams(m.name, link), link.now), job := None)
  {
    fs, k := Extend(env, l, es, m, Commit);
  }

  lemma DoUndo(env: Env, l: Local, es: seq<Event>, m: Local) returns (fs: seq<Event>, k: Local)
    requires Runs(env, l, es, m) && m.job.Some? && m.job.value.Undoing?
    requires 0 < m.job.value.left <= |m.job.value.link.saved|
    requires
      var saved := m.job.value.link.saved[m.job.value.left - 1];
      && Reaches(m.files.tags.Keys, saved.tag)
      && (saved.before.Some? ==> saved.before.value in m.files.manifests)
    ensures Runs(env, l, fs, k)
    ensures
      var job := m.job.value;
      k == m.(files := TagRestored(m.files, job.link.saved[job.left - 1]),
              job := Rolling(job.link, job.left - 1, job.linked))
  {
    fs, k := Extend(env, l, es, m, UndoNext);
  }

  lemma DoUndoFails(env: Env, l: Local, es: seq<Event>, m: Local) returns (fs: seq<Event>, k: Local)
    requires Runs(env, l, es, m) && m.job.Some? && m.job.value.Undoing?
    requires 0 < m.job.value.left <= |m.job.value.link.saved|
    ensures fs == es + [UndoFails]
    ensures Runs(env, l, fs, k)
    ensures
      var job := m.job.value;
      k == m.(job := Rolling(job.link, job.left - 1, job.linked), faults := m.faults.(undo := true))
  {
    fs, k := Extend(env, l, es, m, UndoFails);
  }

  lemma DoBeginDelete(env: Env, l: Local, reference: string) returns (es: seq<Event>, k: Local)
    requires l.job.None?
    requires if DigestReference(reference) then ValidDigest(reference) && reference in l.files.manifests
             else ValidTag(reference) && reference in l.files.tags
    ensures Runs(env, l, es, k)
    ensures k == l.(job := Some(if DigestReference(reference) then Removing(reference)
                                else Untagging(reference, l.files.tags[reference], {reference})))
  {
    es, k := Extend(env, l, [], l, BeginDelete(reference));
  }

  lemma DoRemoveManifest(env: Env, l: Local, es: seq<Event>, m: Local) returns (fs: seq<Event>, k: Local)
    requires Runs(env, l, es, m) && m.job.Some? && m.job.value.Removing?
    ensures fs == es + [RemoveManifest]
    ensures Runs(env, l, fs, k)
    ensures
      var digest := m.job.value.digest;
      k == m.(files := ManifestRemoved(m.files, digest), job := Dropping(digest, digest, Named(m.files, digest)))
  {
    fs, k := Extend(env, l, es, m, RemoveManifest);
  }

  lemma DoRemoveFails(env: Env, l: Local, es: seq<Event>, m: Local, content: bool, media: bool)
    returns (fs: seq<Event>, k: Local)
    requires Runs(env, l, es, m) && m.job.Some? && m.job.value.Removing? && m.job.value.digest in m.files.manifests
    ensures Runs(env, l, fs, k)
    ensures k == m.(files := ManifestTorn(m.files, m.job.value.digest, content, media), job := None,
                    faults := m.faults.(removal :=
                      m.faults.removal || ((!content || !media) && Named(m.files, m.job.value.digest) != {})))
  {
    fs, k := Extend(env, l, es, m, RemoveManifestFails(content, media));
  }

  lemma DoUntag(env: Env, l: Local, es: seq<Event>, m: Local, tag: string) returns (fs: seq<Event>, k: Local)
    requires Runs(env, l, es, m) && m.job.Some? && m.job.value.Untagging? && tag in m.job.value.pending
    requires DigestReference(m.job.value.reference) ==> "." !in m.files.tags
    ensures fs == es + [Untag(tag)]
    ensures Runs(env, l, fs, k)
    ensures
      var job := m.job.value;
      k == m.(files := TagRemoved(m.files, tag), job := Dropping(job.reference, job.digest, job.pending - {tag}))
  {
    fs, k := Extend(env, l, es, m, Untag(tag));
  }

  lemma DoUntagFails(env: Env, l: Local, es: seq<Event>, m: Local) returns (fs: seq<Event>, k: Local)
    requires Runs(env, l, es, m) && m.job.Some? && m.job.value.Untagging?
    ensures Runs(env, l, fs, k)
    ensures k == m.(job := None,
                    faults := m.faults.(removal := m.faults.removal || DigestReference(m.job.value.reference)))
  {
    fs, k := Extend(env, l, es, m, UntagFails);
  }

  lemma DoUnrecord(env: Env, l: Local, es: seq<Event>, m: Local) returns (fs: seq<Event>, k: Local)
    requires Runs(env, l, es, m) && m.job.Some? && m.job.value.Unrecording?
    requires DigestReference(m.job.value.reference) ==> "." !in m.files.tags
    ensures Runs(env, l, fs, k)
    ensures k == m.(rows := ReferenceDeleted(m.rows, m.job.value.reference, m.job.value.digest), job := None)
  {
    fs, k := Extend(env, l, es, m, Unrecord);
  }

  lemma DoUnrecordFails(env: Env, l: Local, es: seq<Event>, m: Local) returns (fs: seq<Event>, k: Local)
    requires Runs(env, l, es, m) && m.job.Some? && m.job.value.Unrecording?
    ensures fs == es + [UnrecordFails]
    ensures Runs(env, l, fs, k) && k == m.(job := None, faults := m.faults.(recording := true))
  {
    fs, k := Extend(env, l, es, m, UnrecordFails);
  }

  lemma DoBeginCollect(env: Env, l: Local, cutoff: int) returns (es: seq<Event>, k: Local)
    requires l.job.None? && "." !in l.files.tags
    ensures Runs(env, l, es, k) && k == l.(job := Some(Collecting(cutoff, l.files.tags.Values)))
  {
    es, k := Extend(env, l, [], l, BeginCollect(cutoff));
  }

  lemma DoCollect(env: Env, l: Local, es: seq<Event>, m: Local, digest: string) returns (fs: seq<Event>, k: Local)
    requires Runs(env, l, es, m) && m.job.Some? && m.job.value.Collecting?
    requires Collectable(m.files, m.job.value, digest)
    ensures Runs(env, l, fs, k) && k == m.(files := ManifestRemoved(m.files, digest))
  {
    fs, k := Extend(env, l, es, m, Collect(digest));
  }

  lemma DoCollectFails(env: Env, l: Local, es: seq<Event>, m: Local, digest: string, content: bool, media: bool)
    returns (fs: seq<Event>, k: Local)
    requires Runs(env, l, es, m) && m.job.Some? && m.job.value.Collecting?
    requires Collectable(m.files, m.job.value, digest)
    ensures Runs(env, l, fs, k) && k == m.(files := ManifestTorn(m.files, digest, content, media), job := None)
  {
    fs, k := Extend(env, l, es, m, CollectFails(digest, content, media));
  }
}
