/**
 The manifest and tag methods of internal/storage/filesystem.go. Every call on the disk may fail: it
 then has no effect, except that writing a manifest file or removing its directory may stop half-way.
 The ghost results `es` and `k` record which steps of the tag protocol a method performed.
 */
module ManifestStore {
  import opened Wrappers
  import opened Names
  import opened ReadModel
  import opened TagMachine
  import opened TagSteps

  /** The manifests of a repository that no tag names and that are not newer than the cutoff. */
  function Garbage(files: Files, cutoff: int): set<string> {
    set d | d in files.manifests && d !in files.tags.Values && files.manifests[d].modified <= cutoff
  }

  function Swept(files: Files, digests: set<string>): Files {
    files.(manifests := files.manifests - digests)
  }

  class Filesystem {
    var directories: map<string, Files>

    constructor ()
      ensures forall p :: At(p) == NO_FILES
    {
      directories := map[];
    }

    function At(path: string): Files
      reads this
    {
      if path in directories then directories[path] else NO_FILES
    }

    /** One successful change of the files of a repository. */
    method Change(path: string, files: Files)
      modifies this
      ensures At(path) == files && forall p :: p != path ==> At(p) == old(At(p))
    {
      directories := directories[path := files];
    }

    /** PutManifestContent: refuses a digest reference the content does not hash to. */
    method PutManifestContent(env: Env, repository: string, reference: string, mediaType: string, content: Bytes,
                              now: int, ghost tags: seq<string>, ghost l: Local)
      returns (r: Result<string>, ghost es: seq<Event>, ghost k: Local)
      requires Sound(env)
      requires RepositoryPath(repository).Some? ==> l.files == At(RepositoryPath(repository).value)
      requires l.job.None?
      modifies this
      ensures Runs(env, l, es, k) && k.rows == l.rows && k.name == l.name
      ensures k.faults == l.faults || (r.Err? && k.faults == l.faults.(torn := true))
      ensures forall d :: d != PushDigest(env, reference, content) ==> Get(k.files.manifests, d) == Get(l.files.manifests, d)
      ensures RepositoryPath(repository).None? ==> r == Err(InvalidRepository) && unchanged(this)
      ensures RepositoryPath(repository).Some? ==>
        var path := RepositoryPath(repository).value;
        At(path) == k.files && (forall p :: p != path ==> At(p) == old(At(p))) && At(path).tags == old(At(path)).tags
      ensures
        var parsed := ParseDigest(reference);
        RepositoryPath(repository).Some? && ':' in reference
        && (parsed.None? || reference != parsed.value.0 + ":" + env.sum(parsed.value.0, content)) ==>
          r == Err(InvalidDigest) && unchanged(this)
      ensures RepositoryPath(repository).Some? && !DigestReference(reference) && !ValidTag(reference) ==>
        r == Err(InvalidReference) && unchanged(this)
      ensures
        RepositoryPath(repository).Some?
        && (if DigestReference(reference) then Hashes(env, reference, content) else ValidTag(reference)) ==>
          r.Ok? || r == Err(Io)
      ensures r.Err? ==> k.job.None? && r.error != TagOverwriteProtected
      ensures r.Ok? ==>
        && r.value == PushDigest(env, reference, content) && Hashes(env, r.value, content)
        && RepositoryPath(repository).Some?
        && Complete(k.files, r.value) && k.files.manifests[r.value].content == Some(content)
        && k.files.manifests[r.value].mediaType == Some(mediaType)
        && k.files.manifests[r.value].modified == TimeAfter(l.files, r.value, now)
        && k.job == if tags == [] then None else Some(Starting(r.value, mediaType, env.estimate(content), tags, now))
      ensures r.Ok? ==>
        r.value == if ':' in reference then reference
                   else env.algorithm(content) + ":" + env.sum(env.algorithm(content), content)
    {
      es, k := [], l;
      NoSteps(env, l);
      hide Runs;
      hide RepositoryPath;
      hide ValidTag;
      var path := RepositoryPath(repository);
      if path.None? {
        return Err(InvalidRepository), es, k;
      }
      if !DigestReference(reference) && !ValidTag(reference) {
        return Err(InvalidReference), es, k;
      }
      if DigestReference(reference) && !Hashes(env, reference, content) {
        return Err(InvalidDigest), es, k;
      }
      var digest := PushDigest(env, reference, content);
      es, k := DoBeginPush(env, l, reference, mediaType, content, tags, now);
      var written;
      written, es, k := WriteManifest(env, path.value, digest, mediaType, content, now, tags, l, es, k);
      return if written then Ok(digest) else Err(Io), es, k;
    }

    /** The time of a manifest's directory moves when a file is added to it, not when its files are written again. */
    static function TimeAfter(files: Files, digest: string, now: int): int {
      if digest in files.manifests && files.manifests[digest].content.Some? && files.manifests[digest].mediaType.Some?
      then files.manifests[digest].modified else now
    }

    /** The directory and the two files of a manifest, one after the other. */
    method WriteManifest(env: Env, path: string, digest: string, mediaType: string, content: Bytes, now: int,
                         ghost tags: seq<string>, ghost l: Local, ghost es0: seq<Event>, ghost m: Local)
      returns (written: bool, ghost es: seq<Event>, ghost k: Local)
      requires Runs(env, l, es0, m) && m.files == At(path)
      requires m.job == Some(Storing(digest, mediaType, content, tags, now, false))
      modifies this
      ensures Runs(env, l, es, k) && k.rows == m.rows && k.name == m.name
      ensures k.faults == m.faults || (!written && k.faults == m.faults.(torn := true))
      ensures forall d :: d != digest ==> Get(k.files.manifests, d) == Get(m.files.manifests, d)
      ensures At(path) == k.files && (forall p :: p != path ==> At(p) == old(At(p))) && k.files.tags == m.files.tags
      ensures !written ==> k.job.None?
      ensures written ==>
        && Complete(k.files, digest) && k.files.manifests[digest].content == Some(content)
        && k.files.manifests[digest].mediaType == Some(mediaType)
        && k.files.manifests[digest].modified == TimeAfter(m.files, digest, now)
        && k.job == if tags == [] then None else Some(Starting(digest, mediaType, env.estimate(content), tags, now))
    {
      es, k := es0, m;
      hide Runs;
      hide Hashes;
      var done: bool := *;
      if !done {
        es, k := DoAbandon(env, l, es, k);
        return false, es, k;
      }
      done := *;
      if !done {
        var part := FirstPart(content);
        Change(path, ContentTorn(At(path), digest, part, now));
        es, k := DoContentFails(env, l, es, k, part);
        return false, es, k;
      }
      Change(path, ContentWritten(At(path), digest, content, now));
      es, k := DoWriteContent(env, l, es, k);
      done := *;
      if !done {
        var text := FirstPart(mediaType);
        Change(path, MediaTorn(At(path), digest, text, now));
        es, k := DoMediaFails(env, l, es, k, text);
        return false, es, k;
      }
      Change(path, MediaWritten(At(path), digest, mediaType, now));
      es, k := DoWriteMedia(env, l, es, k);
      return true, es, k;
    }

    /** What os.WriteFile leaves of a file when it fails: it truncates before it writes, unless opening failed. */
    method FirstPart<T>(data: seq<T>) returns (part: Option<seq<T>>)
      ensures part.Some? ==> part.value <= data
    {
      var truncates: bool := *;
      var n: nat :| n <= |data|;
      return if truncates then Some(data[..n]) else None;
    }

    /** ManifestTagDigest: a tag file that does not hold a digest is an error. */
    method ManifestTagDigest(repository: string, tag: string) returns (r: Result<string>)
      ensures r.Ok? ==>
        && RepositoryPath(repository).Some?
        && Get(At(RepositoryPath(repository).value).tags, tag) == Some(r.value)
        && ValidDigest(r.value) && ValidTag(tag)
        && Reaches(At(RepositoryPath(repository).value).tags.Keys, tag)
      ensures r == Err(NotFound) ==>
        && RepositoryPath(repository).Some? && ValidTag(tag) && tag !in At(RepositoryPath(repository).value).tags
        && Reaches(At(RepositoryPath(repository).value).tags.Keys, tag)
      ensures
        var path := RepositoryPath(repository);
        if path.None? then r == Err(InvalidRepository)
        else if !ValidTag(tag) then r == Err(InvalidReference)
        else
          var tags := At(path.value).tags;
          || r == Err(Io)
          || r == if tag !in tags then Err(NotFound) else if ValidDigest(tags[tag]) then Ok(tags[tag]) else Err(InvalidDigest)
    {
      var path := RepositoryPath(repository);
      if path.None? {
        return Err(InvalidRepository);
      }
      if !ValidTag(tag) {
        return Err(InvalidReference);
      }
      var done: bool := *;
      if !done || !Reaches(At(path.value).tags.Keys, tag) {
        return Err(Io);
      }
      if tag !in At(path.value).tags {
        return Err(NotFound);
      }
      var digest := At(path.value).tags[tag];
      if !ValidDigest(digest) {
        return Err(InvalidDigest);
      }
      return Ok(digest);
    }

    /** LinkManifestTag: the manifest directory must exist; the tag file is replaced in one rename. */
    method LinkManifestTag(repository: string, tag: string, digest: string) returns (r: Result<()>)
      modifies this
      ensures r.Err? ==> unchanged(this)
      ensures r.Ok? ==>
        && RepositoryPath(repository).Some?
        && var path := RepositoryPath(repository).value;
           && digest in old(At(path)).manifests && Reaches(old(At(path)).tags.Keys, tag)
           && (if tag == "." then old(At(path)).tags.Keys <= {"."} else "." !in old(At(path)).tags)
           && At(path) == TagLinked(old(At(path)), tag, digest) && (forall p :: p != path ==> At(p) == old(At(p)))
           && At(path).tags == old(At(path)).tags[tag := digest] && At(path).manifests == old(At(path)).manifests
      ensures
        var path := RepositoryPath(repository);
        if path.None? then r == Err(InvalidRepository)
        else if !ValidDigest(digest) then r == Err(InvalidDigest)
        else
          || r == Err(Io)
          || r == if digest !in old(At(path.value)).manifests then Err(NotFound)
                  else if !ValidTag(tag) then Err(InvalidReference) else Ok(())
    {
      var path := RepositoryPath(repository);
      if path.None? {
        return Err(InvalidRepository);
      }
      if !ValidDigest(digest) {
        return Err(InvalidDigest);
      }
      var done: bool := *;
      if !done {
        return Err(Io);
      }
      if digest !in At(path.value).manifests {
        return Err(NotFound);
      }
      if !ValidTag(tag) {
        return Err(InvalidReference);
      }
      done := *;
      if !done || !Reaches(At(path.value).tags.Keys, tag) {
        return Err(Io);
      }
      Change(path.value, TagLinked(At(path.value), tag, digest));
      return Ok(());
    }

    /** GetManifest: content, media type without white space around it, and digest; both files must be there. */
    method GetManifest(env: Env, repository: string, reference: string) returns (r: Result<(Bytes, string, string)>)
      ensures
        var path := RepositoryPath(repository);
        if path.None? then r == Err(InvalidRepository)
        else
          var files := At(path.value);
          var digest := if DigestReference(reference) then Some(reference) else Get(files.tags, reference);
          if !DigestReference(reference) && !ValidTag(reference) then r == Err(InvalidReference)
          else if digest.Some? && !ValidDigest(digest.value) then r == Err(InvalidDigest) || r == Err(Io)
          else if digest.None? || !Complete(files, digest.value) then r == Err(NotFound) || r == Err(Io)
          else r.Ok? || r == Err(Io)
      ensures r.Ok? ==>
        && RepositoryPath(repository).Some?
        && var files := At(RepositoryPath(repository).value);
           && (if DigestReference(reference) then r.value.2 == reference
               else Get(files.tags, reference) == Some(r.value.2))
           && ValidDigest(r.value.2) && Complete(files, r.value.2)
           && files.manifests[r.value.2].content == Some(r.value.0)
           && r.value.1 == env.trim(files.manifests[r.value.2].mediaType.value)
    {
      var path := RepositoryPath(repository);
      if path.None? {
        return Err(InvalidRepository);
      }
      var digest := reference;
      if !DigestReference(reference) {
        var named := ManifestTagDigest(repository, reference);
        if named.Err? {
          return Err(named.error);
        }
        digest := named.value;
      }
      if !ValidDigest(digest) {
        return Err(InvalidDigest);
      }
      var done: bool := *;
      if !done {
        return Err(Io);
      }
      if !Complete(At(path.value), digest) {
        return Err(NotFound);
      }
      var stored := At(path.value).manifests[digest];
      return Ok((stored.content.value, env.trim(stored.mediaType.value), digest));
    }

    /**
     DeleteManifest. A tag reference removes one tag file. A digest reference removes the manifest directory
     and then every tag file that names it; a failure on the way leaves what was done so far.
     */
    method DeleteManifest(env: Env, repository: string, reference: string, ghost l: Local)
      returns (r: Result<string>, ghost es: seq<Event>, ghost k: Local)
      requires RepositoryPath(repository).Some? ==> l.files == At(RepositoryPath(repository).value)
      requires l.job.None?
      modifies this
      ensures Runs(env, l, es, k) && k.rows == l.rows && k.name == l.name
      ensures RepositoryPath(repository).None? ==> r == Err(InvalidRepository) && unchanged(this)
      ensures RepositoryPath(repository).Some? ==>
        At(RepositoryPath(repository).value) == k.files && (forall p :: p != RepositoryPath(repository).value ==> At(p) == old(At(p)))
      ensures r.Err? ==> k.job.None?
      ensures RepositoryPath(repository).Some? ==>
        if DigestReference(reference) then
          if !ValidDigest(reference) then r == Err(InvalidDigest)
          else if reference !in l.files.manifests then r == Err(NotFound) || r == Err(Io)
          else r == Ok(reference) || r == Err(Io)
        else if !ValidTag(reference) then r == Err(InvalidReference)
        else
          || r == Err(Io)
          || r == if reference !in l.files.tags then Err(NotFound)
                  else if ValidDigest(l.files.tags[reference]) then Ok(l.files.tags[reference]) else Err(InvalidDigest)
      ensures r == Err(NotFound) || (r.Err? && !DigestReference(reference)) ==> unchanged(this)
      ensures r == Err(NotFound) && !DigestReference(reference) ==> reference !in l.files.tags
      ensures !DigestReference(reference) && (r.Ok? || r == Err(NotFound)) ==> Reaches(l.files.tags.Keys, reference)
      ensures r.Ok? ==>
        && RepositoryPath(repository).Some?
        && k.job == Some(Unrecording(reference, r.value)) && k.faults == l.faults
        && (DigestReference(reference) ==> "." !in k.files.tags)
        && k.files == (if DigestReference(reference)
                       then ManifestRemoved(l.files, reference).(tags := l.files.tags - Named(l.files, reference))
                       else TagRemoved(l.files, reference))
        && (if DigestReference(reference) then r.value == reference else Get(l.files.tags, reference) == Some(r.value))
      ensures r.Ok? ==>
        && (forall d :: Get(k.files.manifests, d) ==
              if ':' in reference && d == reference then None else Get(l.files.manifests, d))
        && (forall t :: Get(k.files.tags, t) ==
              if (if ':' in reference then Get(l.files.tags, t) == Some(reference) else t == reference) then None
              else Get(l.files.tags, t))
    {
      es, k := [], l;
      NoSteps(env, l);
      hide Runs;
      var path := RepositoryPath(repository);
      if path.None? {
        return Err(InvalidRepository), es, k;
      }
      if !DigestReference(reference) {
        var named := ManifestTagDigest(repository, reference);
        if named.Err? {
          return Err(named.error), es, k;
        }
        es, k := DoBeginDelete(env, l, reference);
        var done: bool := *;
        if !done {
          es, k := DoUntagFails(env, l, es, k);
          return Err(Io), es, k;
        }
        Change(path.value, TagRemoved(At(path.value), reference));
        es, k := DoUntag(env, l, es, k, reference);
        return Ok(named.value), es, k;
      }
      if !ValidDigest(reference) {
        return Err(InvalidDigest), es, k;
      }
      var done: bool := *;
      if !done {
        return Err(Io), es, k;
      }
      if reference !in At(path.value).manifests {
        return Err(NotFound), es, k;
      }
      es, k := DoBeginDelete(env, l, reference);
      done := *;
      if !done {
        var content: bool, media: bool := *, *;
        Change(path.value, ManifestTorn(At(path.value), reference, content, media));
        es, k := DoRemoveFails(env, l, es, k, content, media);
        return Err(Io), es, k;
      }
      Change(path.value, ManifestRemoved(At(path.value), reference));
      es, k := DoRemoveManifest(env, l, es, k);
      r, es, k := DeleteTagReferences(env, path.value, reference, l, es, k);
    }

    /** deleteTagReferences: one pass over the tag directory. */
    method DeleteTagReferences(env: Env, path: string, digest: string,
                               ghost l: Local, ghost es0: seq<Event>, ghost m: Local)
      returns (r: Result<string>, ghost es: seq<Event>, ghost k: Local)
      requires Runs(env, l, es0, m) && m.files == At(path)
      requires m.job == Dropping(digest, digest, Named(m.files, digest)) && DigestReference(digest)
      modifies this
      ensures Runs(env, l, es, k) && k.rows == m.rows && k.name == m.name
      ensures At(path) == k.files && (forall p :: p != path ==> At(p) == old(At(p)))
      ensures r.Err? ==> r == Err(Io) && k.job.None?
      ensures r.Ok? ==>
        && r.value == digest && k.job == Some(Unrecording(digest, digest)) && k.faults == m.faults
        && "." !in m.files.tags
        && k.files == m.files.(tags := m.files.tags - Named(m.files, digest))
    {
      es, k := es0, m;
      hide Runs;
      hide Untagged;
      hide Named;
      var listed: bool := *;
      if !listed || "." in At(path).tags {
        es, k := StopUntagging(env, l, es, k);
        return Err(Io), es, k;
      }
      var entries := At(path).tags.Keys;
      UntaggedStart(m, digest);
      while entries != {}
        invariant Runs(env, l, es, k) && Untagged(m, k, digest, entries)
        invariant At(path) == k.files && (forall p :: p != path ==> At(p) == old(At(p)))
        decreases |entries|
      {
        var tag :| tag in entries;
        var done: bool := *;
        UntaggedMeans(m, k, digest, entries);
        if !done {
          es, k := StopUntagging(env, l, es, k);
          return Err(Io), es, k;
        }
        UntaggedNext(m, k, digest, entries, tag);
        if At(path).tags[tag] == digest {
          Change(path, TagRemoved(At(path), tag));
          es, k := DoUntag(env, l, es, k, tag);
        }
        entries := entries - {tag};
      }
      UntaggedMeans(m, k, digest, entries);
      return Ok(digest), es, k;
    }

    static lemma StopUntagging(env: Env, l: Local, es: seq<Event>, m: Local) returns (fs: seq<Event>, k: Local)
      requires Runs(env, l, es, m) && m.job.Some? && (m.job.value.Untagging? || m.job.value.Unrecording?)
      ensures Runs(env, l, fs, k) && k == m.(job := None, faults := k.faults)
    {
      hide Runs;
      if m.job.value.Untagging? {
        fs, k := DoUntagFails(env, l, es, m);
      } else {
        fs, k := DoUnrecordFails(env, l, es, m);
      }
    }

    /** The pass over the tag directory when the names in `entries` are still to be read. */
    static ghost predicate Untagged(m: Local, k: Local, digest: string, entries: set<string>) {
      && k == m.(files := k.files, job := k.job)
      && entries <= k.files.tags.Keys
      && k.files == m.files.(tags := m.files.tags - (Named(m.files, digest) - entries))
      && k.job == Dropping(digest, digest, Named(m.files, digest) * entries)
    }

    static lemma UntaggedStart(m: Local, digest: string)
      requires m.job == Dropping(digest, digest, Named(m.files, digest))
      ensures Untagged(m, m, digest, m.files.tags.Keys)
    {
      var none := Named(m.files, digest) - m.files.tags.Keys;
      assert none == {};
      assert m.files.tags - none == m.files.tags;
      assert Named(m.files, digest) * m.files.tags.Keys == Named(m.files, digest);
    }

    static lemma UntaggedMeans(m: Local, k: Local, digest: string, entries: set<string>)
      requires Untagged(m, k, digest, entries)
      ensures k == m.(files := k.files, job := k.job) && entries <= k.files.tags.Keys <= m.files.tags.Keys
      ensures k.job.Some? && (k.job.value.Untagging? || k.job.value.Unrecording?)
      ensures k.job.value.reference == k.job.value.digest == digest
      ensures entries == {} ==>
        && k.job == Some(Unrecording(digest, digest))
        && k.files == m.files.(tags := m.files.tags - Named(m.files, digest))
    {
      if entries == {} {
        assert Named(m.files, digest) - entries == Named(m.files, digest);
      }
    }

    static lemma UntaggedNext(m: Local, k: Local, digest: string, entries: set<string>, tag: string)
      requires Untagged(m, k, digest, entries) && tag in entries
      ensures k.files.tags[tag] == digest ==>
        && k.job.value.Untagging? && tag in k.job.value.pending
        && Untagged(m, k.(files := TagRemoved(k.files, tag),
                          job := Dropping(digest, digest, k.job.value.pending - {tag})), digest, entries - {tag})
      ensures k.files.tags[tag] != digest ==> Untagged(m, k, digest, entries - {tag})
    {
      var named := Named(m.files, digest);
      assert m.files.tags[tag] == k.files.tags[tag];
      if k.files.tags[tag] == digest {
        assert tag in named * entries;
        assert named * (entries - {tag}) == named * entries - {tag};
        assert named - (entries - {tag}) == (named - entries) + {tag};
        assert k.files.tags - {tag} == m.files.tags - (named - (entries - {tag}));
      } else {
        assert named * (entries - {tag}) == named * entries;
        assert named - (entries - {tag}) == named - entries;
      }
    }

    // ---------------------------------------------------------------- garbage collection

    /** The collection of one repository when the directories in `left` are still to be looked at. */
    static ghost predicate Sweeping(m: Local, k: Local, cutoff: int, left: set<string>, deleted: nat) {
      var garbage := Garbage(m.files, cutoff);
      && k == m.(files := k.files, job := k.job)
      && k.job == Some(Collecting(cutoff, m.files.tags.Values))
      && left <= m.files.manifests.Keys
      && k.files == Swept(m.files, garbage - left)
      && deleted == |garbage - left|
    }

    static lemma SweepNext(m: Local, k: Local, cutoff: int, left: set<string>, deleted: nat, digest: string)
      requires Sweeping(m, k, cutoff, left, deleted) && digest in left
      ensures digest in k.files.manifests && k.files.manifests[digest] == m.files.manifests[digest]
      ensures digest in Garbage(m.files, cutoff) <==> Collectable(k.files, k.job.value, digest)
      ensures digest in Garbage(m.files, cutoff) ==>
        Sweeping(m, k.(files := ManifestRemoved(k.files, digest)), cutoff, left - {digest}, deleted + 1)
      ensures digest !in Garbage(m.files, cutoff) ==> Sweeping(m, k, cutoff, left - {digest}, deleted)
    {
      var garbage := Garbage(m.files, cutoff);
      if digest in garbage {
        assert garbage - (left - {digest}) == (garbage - left) + {digest};
        assert k.files.manifests - {digest} == m.files.manifests - (garbage - (left - {digest}));
      } else {
        assert garbage - (left - {digest}) == garbage - left;
      }
    }

    /** Everything of a repository but its garbage is what it was. */
    static ghost predicate OnlyGarbageTouched(before: Files, after: Files, cutoff: int) {
      && after.tags == before.tags
      && forall d :: d !in Garbage(before, cutoff) ==> Get(after.manifests, d) == Get(before.manifests, d)
    }

    static lemma SweepStart(m: Local, cutoff: int)
      requires m.job == Some(Collecting(cutoff, m.files.tags.Values))
      ensures Sweeping(m, m, cutoff, m.files.manifests.Keys, 0)
    {
      assert Garbage(m.files, cutoff) - m.files.manifests.Keys == {};
      assert m.files.manifests - {} == m.files.manifests;
    }

    static lemma SweepEnd(m: Local, k: Local, cutoff: int, deleted: nat)
      requires Sweeping(m, k, cutoff, {}, deleted)
      ensures k.files == Swept(m.files, Garbage(m.files, cutoff)) && deleted == |Garbage(m.files, cutoff)|
      ensures OnlyGarbageTouched(m.files, k.files, cutoff)
    {
      assert Garbage(m.files, cutoff) - {} == Garbage(m.files, cutoff);
    }

    /** What is left is the tags, and of the manifests those that a tag names or that are newer than the cutoff. */
    static ghost predicate GarbageGone(before: Files, after: Files, cutoff: int) {
      && after.tags == before.tags
      && (forall d :: d in after.manifests <==>
            d in before.manifests && ((exists t :: t in before.tags && before.tags[t] == d) || before.manifests[d].modified > cutoff))
      && (forall d :: d in after.manifests ==> after.manifests[d] == before.manifests[d])
    }

    static lemma SweptMeans(files: Files, cutoff: int)
      ensures GarbageGone(files, Swept(files, Garbage(files, cutoff)), cutoff)
      ensures |Garbage(files, cutoff)| == |files.manifests| - |Swept(files, Garbage(files, cutoff)).manifests|
    {
      var swept := Swept(files, Garbage(files, cutoff));
      assert swept.manifests.Keys == files.manifests.Keys - Garbage(files, cutoff);
      assert Garbage(files, cutoff) <= files.manifests.Keys;
      assert |files.manifests| == |files.manifests.Keys| && |swept.manifests| == |swept.manifests.Keys|;
    }

    static lemma SweepTorn(m: Local, k: Local, cutoff: int, left: set<string>, deleted: nat, digest: string,
                           content: bool, media: bool)
      requires Sweeping(m, k, cutoff, left, deleted) && digest in left && digest in Garbage(m.files, cutoff)
      requires digest in k.files.manifests
      ensures OnlyGarbageTouched(m.files, ManifestTorn(k.files, digest, content, media), cutoff)
    {
    }

    /** One repository under its lock. */
    method CollectRepository(env: Env, path: string, cutoff: int, ghost l: Local)
      returns (ok: bool, deleted: nat, ghost es: seq<Event>, ghost k: Local)
      requires l.files == At(path) && l.job.None?
      modifies this
      ensures Runs(env, l, es, k) && k == l.(files := At(path)) && (forall p :: p != path ==> At(p) == old(At(p)))
      ensures ok ==> At(path) == Swept(l.files, Garbage(l.files, cutoff)) && deleted == |Garbage(l.files, cutoff)|
      ensures "." in l.files.tags ==> !ok && es == [] && k == l
      ensures OnlyGarbageTouched(l.files, At(path), cutoff)
      ensures ok ==> GarbageGone(l.files, At(path), cutoff) && deleted == |l.files.manifests| - |At(path).manifests|
    {
      deleted := 0;
      var listed: bool := *;
      if !listed || "." in At(path).tags {
        es, k := [], l;
        return false, deleted, es, k;
      }
      es, k := DoBeginCollect(env, l, cutoff);
      ghost var m := k;
      SweepStart(m, cutoff);
      var referenced := At(path).tags.Values;
      var left := At(path).manifests.Keys;
      hide *;
      while left != {}
        invariant Runs(env, l, es, k) && Sweeping(m, k, cutoff, left, deleted)
        invariant k == m.(files := At(path)) && forall p :: p != path ==> At(p) == old(At(p))
        decreases |left|
      {
        var digest :| digest in left;
        SweepNext(m, k, cutoff, left, deleted, digest);
        CollectableMeans(k, m, cutoff, digest);
        if digest !in referenced && At(path).manifests[digest].modified <= cutoff {
          var done: bool := *;
          if !done {
            var content: bool, media: bool := *, *;
            SweepTorn(m, k, cutoff, left, deleted, digest, content, media);
            Change(path, ManifestTorn(At(path), digest, content, media));
            es, k := DoCollectFails(env, l, es, k, digest, content, media);
            return false, deleted, es, k;
          }
          Change(path, ManifestRemoved(At(path), digest));
          es, k := DoCollect(env, l, es, k, digest);
          deleted := deleted + 1;
        }
        left := left - {digest};
      }
      SweepEnd(m, k, cutoff, deleted);
      SweptMeans(l.files, cutoff);
      es, k := DoAbandon(env, l, es, k);
      ok := true;
    }

    static lemma CollectableMeans(k: Local, m: Local, cutoff: int, digest: string)
      requires k.job == Some(Collecting(cutoff, m.files.tags.Values)) && digest in k.files.manifests
      ensures Collectable(k.files, k.job.value, digest) <==>
        digest !in m.files.tags.Values && k.files.manifests[digest].modified <= cutoff
    {
    }

    static function GarbageCounts(directories: map<string, Files>, cutoff: int): map<string, nat> {
      map p | p in directories :: |Garbage(directories[p], cutoff)|
    }

    static function Found(directories: map<string, Files>, p: string): Files {
      if p in directories then directories[p] else NO_FILES
    }

    /** The walk when the repositories in `left` are still to be collected. */
    static ghost predicate Walking(before: map<string, Files>, now: map<string, Files>, cutoff: int,
                                   left: set<string>, deleted: nat) {
      && left <= before.Keys
      && (forall p :: p in left ==> Found(now, p) == Found(before, p))
      && (forall p :: p !in left ==> Found(now, p) == Swept(Found(before, p), Garbage(Found(before, p), cutoff)))
      && deleted == Sum(GarbageCounts(before, cutoff) - left)
    }

    static lemma WalkStart(before: map<string, Files>, cutoff: int)
      ensures Walking(before, before, cutoff, before.Keys, 0)
    {
      assert GarbageCounts(before, cutoff) - before.Keys == map[];
      assert NO_FILES.manifests - Garbage(NO_FILES, cutoff) == map[];
    }

    static lemma WalkNext(before: map<string, Files>, now: map<string, Files>, next: map<string, Files>, cutoff: int,
                          left: set<string>, deleted: nat, path: string)
      requires Walking(before, now, cutoff, left, deleted) && path in left
      requires Found(next, path) == Swept(Found(now, path), Garbage(Found(now, path), cutoff))
      requires forall p :: p != path ==> Found(next, p) == Found(now, p)
      ensures Walking(before, next, cutoff, left - {path}, deleted + |Garbage(Found(now, path), cutoff)|)
    {
      var counts := GarbageCounts(before, cutoff);
      SumRemove(counts - (left - {path}), path);
      assert counts - (left - {path}) - {path} == counts - left;
    }

    static lemma StillToCollect(before: map<string, Files>, now: map<string, Files>, cutoff: int,
                                left: set<string>, deleted: nat, path: string)
      requires Walking(before, now, cutoff, left, deleted) && path in left
      ensures Found(now, path) == Found(before, path)
    {
    }

    /** Wherever the walk stops, nothing but garbage is gone. */
    static lemma WalkTouches(before: map<string, Files>, now: map<string, Files>, next: map<string, Files>, cutoff: int,
                             left: set<string>, deleted: nat, path: string)
      requires Walking(before, now, cutoff, left, deleted)
      requires path in left ==> OnlyGarbageTouched(Found(now, path), Found(next, path), cutoff)
      requires forall p :: p != path || path !in left ==> Found(next, p) == Found(now, p)
      ensures forall p :: OnlyGarbageTouched(Found(before, p), Found(next, p), cutoff)
    {
    }

    /**
     CollectGarbage over all repositories: removes exactly the garbage and reports how much it was; when it
     stops at an error, nothing but garbage is gone. One repository whose tags were displaced by a tag "." stops it.
     */
    method CollectGarbage(env: Env, cutoff: int) returns (ok: bool, deleted: nat)
      modifies this
      ensures ok ==>
        && (forall p :: At(p) == Swept(old(At(p)), Garbage(old(At(p)), cutoff)))
        && (forall p :: GarbageGone(old(At(p)), At(p), cutoff))
        && deleted == Sum(GarbageCounts(old(directories), cutoff))
        && (forall p :: "." !in old(At(p)).tags)
      ensures forall p :: OnlyGarbageTouched(old(At(p)), At(p), cutoff)
    {
      ok, deleted := true, 0;
      ghost var before := directories;
      assert forall p :: At(p) == Found(directories, p);
      var left := directories.Keys;
      WalkStart(before, cutoff);
      hide Walking;
      hide Garbage;
      hide OnlyGarbageTouched;
      WalkTouches(before, directories, directories, cutoff, left, 0, "");
      while left != {} && ok
        invariant ok ==> Walking(before, directories, cutoff, left, deleted)
        invariant ok ==> forall p :: p !in left ==> "." !in Found(before, p).tags
        invariant forall p :: OnlyGarbageTouched(Found(before, p), Found(directories, p), cutoff)
        decreases |left|, ok
      {
        var path :| path in left;
        ok, deleted := CollectNext(env, cutoff, path, deleted, left, before);
        left := left - {path};
      }
      if ok {
        WalkEnd(before, directories, cutoff, deleted);
        forall p ensures GarbageGone(Found(before, p), Found(directories, p), cutoff) {
          SweptMeans(Found(before, p), cutoff);
        }
      }
    }

    static lemma WalkEnd(before: map<string, Files>, now: map<string, Files>, cutoff: int, deleted: nat)
      requires Walking(before, now, cutoff, {}, deleted)
      ensures forall p :: Found(now, p) == Swept(Found(before, p), Garbage(Found(before, p), cutoff))
      ensures deleted == Sum(GarbageCounts(before, cutoff))
    {
      assert GarbageCounts(before, cutoff) - {} == GarbageCounts(before, cutoff);
    }

    /** The collection of one repository, as the walk sees it. */
    method CollectHere(env: Env, cutoff: int, path: string) returns (ok: bool, n: nat)
      modifies this
      ensures forall p :: p != path ==> Found(directories, p) == Found(old(directories), p)
      ensures
        var before, after := Found(old(directories), path), Found(directories, path);
        && OnlyGarbageTouched(before, after, cutoff)
        && (ok ==> after == Swept(before, Garbage(before, cutoff)) && n == |Garbage(before, cutoff)| && "." !in before.tags)
    {
      hide Runs;
      hide Garbage;
      hide GarbageGone;
      hide OnlyGarbageTouched;
      ghost var now := directories;
      assert forall p :: At(p) == Found(now, p);
      ghost var es, k;
      ok, n, es, k := CollectRepository(env, path, cutoff, Local(path, At(path), NO_ROWS, None, NO_FAULTS));
      assert forall p :: At(p) == Found(directories, p);
    }

    /** One step of the walk. */
    method CollectNext(env: Env, cutoff: int, path: string, sofar: nat, ghost left: set<string>,
                       ghost before: map<string, Files>)
      returns (ok: bool, deleted: nat)
      requires path in left && Walking(before, directories, cutoff, left, sofar)
      modifies this
      ensures ok ==> Walking(before, directories, cutoff, left - {path}, deleted) && "." !in Found(before, path).tags
      ensures forall p :: OnlyGarbageTouched(Found(before, p), Found(directories, p), cutoff)
    {
      hide *;
      ghost var now := directories;
      var locked: bool := *;
      if !locked {
        WalkTouches(before, now, now, cutoff, left, sofar, path);
        return false, sofar;
      }
      StillToCollect(before, now, cutoff, left, sofar, path);
      var n;
      ok, n := CollectHere(env, cutoff, path);
      deleted := sofar + n;
      WalkTouches(before, now, directories, cutoff, left, sofar, path);
      if ok {
        WalkNext(before, now, directories, cutoff, left, sofar, path);
      }
    }
  }
}
