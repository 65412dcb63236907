/**
 The content-addressed store: committing uploads, linking blobs to repositories, and the one-time migration of the
 links (internal/storage/filesystem.go:332-435, 627-667, 919-951).
 */
module Blobs {
  import opened Wrappers
  import opened Names
  import Layout

  datatype Layer = Layer(mediaType: string, digest: string)

  /** The parts of a manifest that name blobs; an absent config has no digest. */
  datatype ManifestParts = ManifestParts(config: string, layers: seq<Layer>)

  /** What the store only calls: the hash check and the parser of manifests. */
  datatype Env = Env(matches: (string, Bytes) -> bool, parse: Bytes -> Option<ManifestParts>)

  /** A link pairs the directory of a repository with a digest. */
  datatype Link = Link(repository: string, digest: string)

  /** The blobs, the files of the links, the marker of the migration, and the repositories that have a directory. */
  datatype Store = Store(blobs: map<string, Bytes>, links: set<Link>, migrated: bool, directories: set<string>)

  const EMPTY := Store(map[], {}, false, {})

  function LinkFile(link: Link): seq<string>
    requires ValidDigest(link.digest)
  {
    Layout.Path(Layout.BlobLink(link.repository, link.digest))
  }

  /** Where the file of the link would be there is a directory, on the way to a repository. */
  predicate Taken(directories: set<string>, link: Link) {
    ValidDigest(link.digest) && exists d :: d in directories && LinkFile(link) <= Layout.Home(d)
  }

  /** No file of a link is in the way of the directory of the repository. */
  predicate Free(links: set<Link>, repository: string) {
    forall link :: link in links && ValidDigest(link.digest) ==> !(LinkFile(link) <= Layout.Home(repository))
  }

  /** A file below the storage root, as the walk over the repositories comes by it. */
  datatype File = File(path: seq<string>, content: Bytes)

  // ---------------------------------------------------------------- the blobs of a manifest

  predicate Nondistributable(mediaType: string) {
    || "application/vnd.oci.image.layer.nondistributable.v1." <= mediaType
    || "application/vnd.docker.image.rootfs.foreign." <= mediaType
  }

  predicate Wanted(layer: Layer) {
    !Nondistributable(layer.mediaType) && layer.digest != ""
  }

  function LayerDigests(config: string, layers: seq<Layer>): seq<string> {
    if layers == [] then if config == "" then [] else [config]
    else
      var rest, last := LayerDigests(config, layers[..|layers| - 1]), layers[|layers| - 1];
      if Wanted(last) && last.digest !in rest then rest + [last.digest] else rest
  }

  function BlobDigests(env: Env, content: Bytes): seq<string> {
    match env.parse(content)
    case Some(parts) => LayerDigests(parts.config, parts.layers)
    case None => []
  }

  /** The manifest names the blob and is distributed with it. */
  ghost predicate Distributes(env: Env, content: Bytes, digest: string) {
    && env.parse(content).Some? && digest != ""
    && var parts := env.parse(content).value;
       || parts.config == digest
       || exists layer :: layer in parts.layers && layer.digest == digest
            && !("application/vnd.oci.image.layer.nondistributable.v1." <= layer.mediaType)
            && !("application/vnd.docker.image.rootfs.foreign." <= layer.mediaType)
  }

  lemma {:induction false} LayerDigestsMean(config: string, layers: seq<Layer>, digest: string)
    ensures digest in LayerDigests(config, layers) <==>
            digest != "" && (config == digest || exists layer :: layer in layers && Wanted(layer) && layer.digest == digest)
    ensures forall i, j :: 0 <= i < j < |LayerDigests(config, layers)| ==>
              LayerDigests(config, layers)[i] != LayerDigests(config, layers)[j]
    ensures config != "" ==> |LayerDigests(config, layers)| > 0 && LayerDigests(config, layers)[0] == config
  {
    if layers != [] {
      var front, last := layers[..|layers| - 1], layers[|layers| - 1];
      LayerDigestsMean(config, front, digest);
      assert layers == front + [last];
      hide Nondistributable;
    }
  }

  /** Each blob a manifest names is listed, once and the config first; nothing else is. */
  lemma BlobDigestsExact(env: Env, content: Bytes, digest: string)
    ensures digest in BlobDigests(env, content) <==> Distributes(env, content, digest)
    ensures env.parse(content).Some? && env.parse(content).value.config != "" ==>
              |BlobDigests(env, content)| > 0 && BlobDigests(env, content)[0] == env.parse(content).value.config
    ensures forall i, j :: 0 <= i < j < |BlobDigests(env, content)| ==>
              BlobDigests(env, content)[i] != BlobDigests(env, content)[j]
  {
    if env.parse(content).Some? {
      LayerDigestsMean(env.parse(content).value.config, env.parse(content).value.layers, digest);
    }
  }

  method ManifestBlobDigests(env: Env, content: Bytes) returns (digests: seq<string>)
    ensures digests == BlobDigests(env, content)
  {
    var parsed := env.parse(content);
    if parsed.None? {
      return [];
    }
    var parts := parsed.value;
    digests := [];
    var seen: set<string> := {};
    if parts.config != "" {
      digests, seen := [parts.config], {parts.config};
    }
    for i := 0 to |parts.layers|
      invariant digests == LayerDigests(parts.config, parts.layers[..i])
      invariant seen == set d | d in digests
    {
      assert parts.layers[..i + 1][..i] == parts.layers[..i];
      var layer := parts.layers[i];
      if Nondistributable(layer.mediaType) {
        continue;
      }
      if layer.digest != "" && layer.digest !in seen {
        digests, seen := digests + [layer.digest], seen + {layer.digest};
      }
    }
    assert parts.layers[..|parts.layers|] == parts.layers;
  }

  // ---------------------------------------------------------------- the operations, as relations

  datatype Op =
    | Commit(content: Bytes, digest: string)
    | LinkBlob(repository: string, digest: string)
    | Unlink(repository: string, digest: string)
    | Enter(repository: string)
    | Migrate(files: seq<File>)

  /**
   The links the migration makes for the blobs one manifest names. A refused name gets none, and where there is a
   directory the link seems to be there already.
   */
  function LinksFor(store: Store, repository: string, digests: seq<string>): set<Link> {
    match RepositoryPath(repository)
    case Some(path) => set d | d in digests && d in store.blobs && !Taken(store.directories, Link(path, d)) :: Link(path, d)
    case None => {}
  }

  function FileLinks(env: Env, store: Store, file: File): set<Link> {
    if !Layout.Picked(file.path) then {}
    else LinksFor(store, Layout.PickedRepository(file.path), BlobDigests(env, file.content))
  }

  function MigrationLinks(env: Env, store: Store, files: seq<File>): set<Link> {
    if files == [] then {}
    else MigrationLinks(env, store, files[..|files| - 1]) + FileLinks(env, store, files[|files| - 1])
  }

  /** The directory of the repository has been made. */
  predicate Entered(s: Store, repository: string, k: Store) {
    && RepositoryPath(repository).Some? && Free(s.links, RepositoryPath(repository).value)
    && k == s.(directories := s.directories + {RepositoryPath(repository).value})
  }

  /** A link that is made, unless something is there already. */
  function Linked(s: Store, link: Link): Store {
    if Taken(s.directories, link) then s else s.(links := s.links + {link})
  }

  /** The walk comes by files of repositories that have a directory. */
  predicate OnDisk(directories: set<string>, files: seq<File>) {
    forall file :: file in files && Layout.Picked(file.path) ==>
      match RepositoryPath(Layout.PickedRepository(file.path))
      case Some(path) => path in directories
      case None => true
  }

  /** What an operation may leave behind, whether it succeeds or not. */
  ghost predicate Step(env: Env, s: Store, op: Op, k: Store, ok: bool) {
    match op
    case Commit(content, digest) =>
      if ok then ValidDigest(digest) && env.matches(digest, content) && k == s.(blobs := s.blobs[digest := content])
      else k == s
    case LinkBlob(repository, digest) =>
      var path := RepositoryPath(repository);
      if ok then
        && digest in s.blobs && path.Some? && Free(s.links, path.value)
        && k == Linked(s, Link(path.value, digest)).(directories := s.directories + {path.value})
      else k == s || Entered(s, repository, k)
    case Unlink(repository, digest) =>
      var path := RepositoryPath(repository);
      if ok then path.Some? && Link(path.value, digest) in s.links && k == s.(links := s.links - {Link(path.value, digest)})
      else k == s
    case Enter(repository) => if ok then Entered(s, repository, k) else k == s || Entered(s, repository, k)
    case Migrate(files) =>
      var made := MigrationLinks(env, s, files);
      if ok then k == if s.migrated then s else s.(links := s.links + made, migrated := true)
      else k == s.(links := k.links) && s.links <= k.links <= s.links + made
  }

  // ---------------------------------------------------------------- the code

  class BlobStore {
    const env: Env
    var blobs: map<string, Bytes>
    var links: set<Link>
    var migrated: bool
    var directories: set<string>

    constructor (env: Env)
      ensures this.env == env && State() == EMPTY
    {
      this.env, blobs, links, migrated, directories := env, map[], {}, false, {};
    }

    function State(): Store
      reads this
    {
      Store(blobs, links, migrated, directories)
    }

    /** CommitBlobFromUpload, on what the upload file holds. */
    method CommitBlobFromUpload(content: Bytes, expected: string) returns (r: Result<nat>)
      modifies this
      ensures Step(env, old(State()), Commit(content, expected), State(), r.Ok?)
      ensures !ValidDigest(expected) ==> r == Err(InvalidDigest)
      ensures r.Ok? ==> r.value == |content|
      ensures ValidDigest(expected) ==> r.Ok? || r == Err(Io)
      ensures if r.Ok? then blobs == old(blobs)[expected := content] && env.matches(expected, content) else blobs == old(blobs)
      ensures links == old(links) && directories == old(directories) && migrated == old(migrated)
    {
      var readable, renamed: bool := *, *;
      if !ValidDigest(expected) {
        return Err(InvalidDigest);
      }
      if !readable || !env.matches(expected, content) || !renamed {
        return Err(Io);
      }
      blobs := blobs[expected := content];
      r := Ok(|content|);
    }

    method HasBlob(digest: string) returns (r: Result<bool>)
      ensures r.Ok? ==> ValidDigest(digest) && r.value == (digest in blobs)
      ensures r == Err(InvalidDigest) <==> !ValidDigest(digest)
      ensures r.Err? && ValidDigest(digest) ==> r == Err(Io)
    {
      var stats: bool := *;
      if !ValidDigest(digest) {
        return Err(InvalidDigest);
      }
      return if stats then Ok(digest in blobs) else Err(Io);
    }

    /** os.MkdirAll of the directory of a repository, as every request that takes its lock does. */
    method EnterRepository(repository: string) returns (r: Result<()>)
      modifies this`directories
      ensures Step(env, old(State()), Enter(repository), State(), r.Ok?)
      ensures if RepositoryPath(repository).None? then r == Err(InvalidRepository) else r.Ok? || r == Err(Io)
      ensures if r.Ok? then directories == old(directories) + {RepositoryPath(repository).value} else directories == old(directories)
    {
      var path := RepositoryPath(repository);
      var makes: bool := *;
      if path.None? {
        return Err(InvalidRepository);
      }
      if !makes || !Free(links, path.value) {
        return Err(Io);
      }
      directories := directories + {path.value};
      r := Ok(());
    }

    /** os.Stat at the file of the link, which a directory passes as well. */
    method HasRepositoryBlob(repository: string, digest: string) returns (r: Result<bool>)
      ensures r.Ok? ==>
        && RepositoryPath(repository).Some? && ValidDigest(digest)
        && var link := Link(RepositoryPath(repository).value, digest);
           r.value == (link in links || Taken(directories, link))
      ensures r.Err? ==> r.error != NotFound
      ensures
        if RepositoryPath(repository).None? then r == Err(InvalidRepository)
        else if !ValidDigest(digest) then r == Err(InvalidDigest) else r.Ok? || r == Err(Io)
    {
      var path := RepositoryPath(repository);
      var stats: bool := *;
      if path.None? {
        return Err(InvalidRepository);
      }
      if !ValidDigest(digest) {
        return Err(InvalidDigest);
      }
      if !stats {
        return Err(Io);
      }
      var link := Link(path.value, digest);
      r := Ok(link in links || Taken(directories, link));
    }

    method LinkRepositoryBlob(repository: string, digest: string) returns (r: Result<()>)
      modifies this`links, this`directories
      ensures Step(env, old(State()), LinkBlob(repository, digest), State(), r.Ok?)
      ensures r == Err(InvalidDigest) <==> !ValidDigest(digest)
      ensures r.Ok? ==>
        && digest in blobs && RepositoryPath(repository).Some?
        && var link := Link(RepositoryPath(repository).value, digest);
           links == if Taken(old(directories), link) then old(links) else old(links) + {link}
      ensures r.Err? ==> links == old(links)
      ensures ValidDigest(digest) && digest !in blobs ==> r.Err? && (r.error == NotFound || r.error == Io)
      ensures r.Err? ==>
        || r.error == Io || (r.error == InvalidDigest && !ValidDigest(digest)) || (r.error == NotFound && digest !in blobs)
        || (r.error == InvalidRepository && RepositoryPath(repository).None?)
    {
      var found := HasBlob(digest);
      if found.Err? {
        return Err(found.error);
      }
      if !found.value {
        return Err(NotFound);
      }
      var path := RepositoryPath(repository);
      if path.None? {
        return Err(InvalidRepository);
      }
      var entered := EnterRepository(repository);
      if entered.Err? {
        return Err(Io);
      }
      var creates: bool := *;
      if !creates {
        return Err(Io);
      }
      var link := Link(path.value, digest);
      TakenAgain(old(directories), path.value, digest);
      if !Taken(directories, link) {
        links := links + {link};
      }
      r := Ok(());
    }

    method DeleteRepositoryBlob(repository: string, digest: string) returns (r: Result<()>)
      modifies this`links
      ensures Step(env, old(State()), Unlink(repository, digest), State(), r.Ok?)
      ensures r.Ok? ==>
        && RepositoryPath(repository).Some?
        && var link := Link(RepositoryPath(repository).value, digest);
           link in old(links) && links == old(links) - {link}
      ensures r.Err? ==> links == old(links)
      ensures
        var path := RepositoryPath(repository);
        if path.None? then r == Err(InvalidRepository)
        else if !ValidDigest(digest) then r == Err(InvalidDigest)
        else if Link(path.value, digest) in old(links) then r.Ok? || r == Err(Io)
        else r == Err(if Taken(directories, Link(path.value, digest)) then Io else NotFound)
    {
      var path := RepositoryPath(repository);
      if path.None? {
        return Err(InvalidRepository);
      }
      if !ValidDigest(digest) {
        return Err(InvalidDigest);
      }
      var removes: bool := *;
      var link := Link(path.value, digest);
      if link !in links {
        return Err(if Taken(directories, link) then Io else NotFound);
      }
      if !removes {
        return Err(Io);
      }
      links := links - {link};
      r := Ok(());
    }

    /**
     What a pull from a repository is answered with: content that matches its digest, for a blob that is linked to the
     repository or seems to be; if no directory gets in the way of its links, it is linked.
     */
    method ReadBlob(repository: string, digest: string) returns (r: Result<Bytes>)
      requires Intact(env, State())
      ensures r.Ok? ==>
        && RepositoryPath(repository).Some? && env.matches(digest, r.value)
        && var link := Link(RepositoryPath(repository).value, digest);
           && (link in links || Taken(directories, link))
           && ((forall d :: d in directories ==> Layout.Apart(link.repository, d)) ==> link in links)
      ensures r == Err(NotFound) ==>
        && RepositoryPath(repository).Some?
        && (Link(RepositoryPath(repository).value, digest) !in links || digest !in blobs)
    {
      var linked := HasRepositoryBlob(repository, digest);
      if linked.Err? {
        return Err(linked.error);
      }
      if !linked.value || digest !in blobs {
        return Err(NotFound);
      }
      var link := Link(RepositoryPath(repository).value, digest);
      if Taken(directories, link) {
        TakenMeets(directories, link);
      }
      r := Ok(blobs[digest]);
    }

    /** The blobs of one manifest: every one that exists is linked, and a digest that does not parse stops it. */
    method LinkManifestBlobs(repository: string, content: Bytes) returns (r: Result<()>)
      requires RepositoryPath(repository).Some? ==> RepositoryPath(repository).value in directories
      modifies this`links, this`directories
      ensures directories == old(directories)
      ensures
        var made := LinksFor(old(State()), repository, BlobDigests(env, content));
        if r.Ok? then links == old(links) + made else old(links) <= links <= old(links) + made
      ensures r.Ok? ==> forall d :: d in BlobDigests(env, content) ==> ValidDigest(d)
      ensures r.Ok? && RepositoryPath(repository).None? ==> forall d :: d in BlobDigests(env, content) ==> d !in blobs
      ensures r == Err(InvalidDigest) ==> exists d :: d in BlobDigests(env, content) && !ValidDigest(d)
    {
      var digests := ManifestBlobDigests(env, content);
      hide BlobDigests;
      hide RepositoryPath;
      hide ValidDigest;
      hide Taken;
      hide Free;
      for i := 0 to |digests|
        invariant directories == old(directories)
        invariant links == old(links) + LinksFor(old(State()), repository, digests[..i])
        invariant forall d :: d in digests[..i] ==> ValidDigest(d)
        invariant RepositoryPath(repository).None? ==> forall d :: d in digests[..i] ==> d !in blobs
      {
        assert digests[..i + 1] == digests[..i] + [digests[i]];
        LinksForMore(old(State()), repository, digests[..i], digests[i]);
        LinksForPart(old(State()), repository, digests, i);
        var found := HasBlob(digests[i]);
        if found.Err? {
          return Err(found.error);
        }
        if found.value {
          r := LinkRepositoryBlob(repository, digests[i]);
          if r.Err? {
            return r;
          }
        }
      }
      assert digests[..|digests|] == digests;
      r := Ok(());
    }

    /** The walk: passes what is not the content of a manifest, and stops at the first whose blobs could not be linked. */
    method LinkAll(files: seq<File>) returns (r: Result<()>)
      requires OnDisk(directories, files)
      modifies this`links, this`directories
      ensures directories == old(directories)
      ensures
        var made := MigrationLinks(env, old(State()), files);
        if r.Ok? then links == old(links) + made else old(links) <= links <= old(links) + made
      ensures r.Ok? ==> forall f, d :: f in files && Layout.Picked(f.path) && d in BlobDigests(env, f.content) ==> ValidDigest(d)
    {
      hide BlobDigests;
      hide ValidDigest;
      hide LinksFor;
      hide Layout.Picked;
      hide Layout.PickedRepository;
      for i := 0 to |files|
        invariant directories == old(directories)
        invariant links == old(links) + MigrationLinks(env, old(State()), files[..i])
        invariant forall f, d :: f in files[..i] && Layout.Picked(f.path) && d in BlobDigests(env, f.content) ==> ValidDigest(d)
      {
        var file := files[i];
        assert files[..i + 1] == files[..i] + [file];
        assert files[..i + 1][..i] == files[..i];
        MigrationLinksGrow(env, old(State()), files, i);
        MigrationLinksGrow(env, old(State()), files, i + 1);
        var walks: bool := *;
        if !walks {
          return Err(Io);
        }
        if Layout.Picked(file.path) {
          var repository := Layout.PickedRepository(file.path);
          SameBlobsSameLinks(old(State()), State(), repository, BlobDigests(env, file.content));
          r := LinkManifestBlobs(repository, file.content);
          if r.Err? {
            return r;
          }
        }
      }
      assert files[..|files|] == files;
      r := Ok(());
    }

    /** MigrateRepositoryBlobLinks, over the files below the root in the order the walk comes by them. */
    method MigrateRepositoryBlobLinks(files: seq<File>) returns (r: Result<()>)
      requires OnDisk(directories, files)
      modifies this
      ensures Step(env, old(State()), Migrate(files), State(), r.Ok?)
      ensures if r.Ok? then migrated else migrated == old(migrated)
      ensures old(migrated) ==> unchanged(this)
      ensures r.Ok? && !old(migrated) ==>
        forall f, d :: f in files && Layout.Picked(f.path) && d in BlobDigests(env, f.content) ==> ValidDigest(d)
    {
      if migrated {
        return Ok(());
      }
      hide BlobDigests;
      hide ValidDigest;
      hide MigrationLinks;
      hide Layout.Picked;
      r := LinkAll(files);
      if r.Err? {
        return r;
      }
      var marks: bool := *;
      if !marks {
        return Err(Io);
      }
      migrated := true;
    }
  }

  /** The directory of a repository is never where a file of its own goes. */
  lemma TakenAgain(directories: set<string>, repository: string, digest: string)
    ensures Taken(directories + {repository}, Link(repository, digest)) <==> Taken(directories, Link(repository, digest))
  {
    var link := Link(repository, digest);
    if ValidDigest(digest) {
      assert |LinkFile(link)| > |Layout.Home(repository)|;
      forall d | d in directories + {repository} && LinkFile(link) <= Layout.Home(d) ensures d in directories {
      }
    }
    hide LinkFile;
  }

  /** A directory where a link would be belongs to a repository that gets in the way. */
  lemma TakenMeets(directories: set<string>, link: Link)
    requires Taken(directories, link)
    ensures exists d :: d in directories && !Layout.Apart(link.repository, d)
  {
    var d :| d in directories && LinkFile(link) <= Layout.Home(d);
    Layout.LinkOnTheWay(link.repository, link.digest, d);
    hide Layout.Apart;
  }

  /** What a directory counts as: a repository below the link's place makes the blob seem linked, whatever it is. */
  lemma DirectoryCountsAsLink(repository: string, digest: string)
    requires Canonical(repository) && ValidDigest(digest)
    ensures
      var other := repository + "/" + "blobs" + "/" + Layout.Algorithm(digest) + "/" + Layout.Encoded(digest);
      Canonical(other) && Taken({other}, Link(repository, digest))
  {
    var other := repository + "/" + "blobs" + "/" + Layout.Algorithm(digest) + "/" + Layout.Encoded(digest);
    Layout.BelowTheLink(repository, digest);
    assert other in {other};
    hide Layout.Home;
    hide LinkFile;
  }

  lemma LinksForMore(store: Store, repository: string, digests: seq<string>, digest: string)
    ensures LinksFor(store, repository, digests + [digest]) ==
            LinksFor(store, repository, digests)
            + if digest in store.blobs && RepositoryPath(repository).Some?
                 && !Taken(store.directories, Link(RepositoryPath(repository).value, digest))
              then {Link(RepositoryPath(repository).value, digest)} else {}
  {
    hide RepositoryPath;
  }

  lemma LinksForPart(store: Store, repository: string, digests: seq<string>, i: nat)
    requires i < |digests|
    ensures LinksFor(store, repository, digests[..i]) <= LinksFor(store, repository, digests)
    ensures LinksFor(store, repository, digests[..i] + [digests[i]]) <= LinksFor(store, repository, digests)
  {
    hide RepositoryPath;
  }

  lemma SameBlobsSameLinks(s: Store, k: Store, repository: string, digests: seq<string>)
    requires s.blobs == k.blobs && s.directories == k.directories
    ensures LinksFor(s, repository, digests) == LinksFor(k, repository, digests)
  {
    hide RepositoryPath;
  }

  lemma {:induction false} MigrationLinksGrow(env: Env, store: Store, files: seq<File>, i: nat)
    requires i <= |files|
    ensures MigrationLinks(env, store, files[..i]) <= MigrationLinks(env, store, files)
    decreases |files|
  {
    hide FileLinks;
    if i < |files| {
      MigrationLinksGrow(env, store, files[..|files| - 1], i);
      assert files[..|files| - 1][..i] == files[..i];
    } else {
      assert files[..i] == files;
    }
  }

  // ---------------------------------------------------------------- whole runs

  /** Every blob hashes to its digest, and every link has its blob and a file of its own. */
  ghost predicate Intact(env: Env, s: Store) {
    && (forall d :: d in s.blobs ==> ValidDigest(d) && env.matches(d, s.blobs[d]))
    && (forall link :: link in s.links ==>
          link.digest in s.blobs && Canonical(link.repository) && !Taken(s.directories, link))
  }

  /** One operation of a run, whether it succeeded, and what it left. */
  datatype Event = Event(op: Op, ok: bool, after: Store)

  ghost predicate Runs(env: Env, s: Store, events: seq<Event>, k: Store)
    decreases events
  {
    if events == [] then s == k
    else
      && Step(env, s, events[0].op, events[0].after, events[0].ok)
      && Runs(env, events[0].after, events[1..], k)
  }

  /** A file is the content of a manifest of the repository that distributes the blob. */
  ghost predicate Asks(env: Env, file: File, link: Link) {
    && Layout.Picked(file.path) && RepositoryPath(Layout.PickedRepository(file.path)) == Some(link.repository)
    && Distributes(env, file.content, link.digest)
  }

  lemma FileLinksMean(env: Env, store: Store, file: File, link: Link)
    ensures link in FileLinks(env, store, file) <==>
            link.digest in store.blobs && !Taken(store.directories, link) && Asks(env, file, link)
  {
    BlobDigestsExact(env, file.content, link.digest);
    hide Distributes;
    hide BlobDigests;
    hide RepositoryPath;
    hide Taken;
    hide Layout.Picked;
    hide Layout.PickedRepository;
  }

  lemma {:induction false} MigrationLinksMean(env: Env, store: Store, files: seq<File>, link: Link)
    ensures link in MigrationLinks(env, store, files) <==>
            && link.digest in store.blobs && !Taken(store.directories, link)
            && exists file :: file in files && Asks(env, file, link)
    decreases |files|
  {
    hide Asks;
    hide FileLinks;
    hide Taken;
    if files != [] {
      var front, last := files[..|files| - 1], files[|files| - 1];
      MigrationLinksMean(env, store, front, link);
      FileLinksMean(env, store, last, link);
      assert files == front + [last];
    }
  }

  lemma MigrationKeepsIntact(env: Env, s: Store, op: Op, k: Store, ok: bool)
    requires Intact(env, s) && Step(env, s, op, k, ok) && op.Migrate?
    ensures Intact(env, k)
  {
    hide Canonical;
    hide MigrationLinks;
    hide ValidDigest;
    hide Taken;
    forall link | link in MigrationLinks(env, s, op.files)
      ensures link.digest in s.blobs && Canonical(link.repository) && !Taken(s.directories, link)
    {
      AskedLink(env, s, op.files, link);
    }
  }

  lemma {:induction false} AskedLink(env: Env, s: Store, files: seq<File>, link: Link)
    requires link in MigrationLinks(env, s, files)
    ensures link.digest in s.blobs && Canonical(link.repository) && !Taken(s.directories, link)
  {
    hide Canonical;
    hide RepositoryPath;
    hide MigrationLinks;
    hide Taken;
    MigrationLinksMean(env, s, files, link);
    var file :| file in files && Asks(env, file, link);
    PathIsCanonical(Layout.PickedRepository(file.path));
  }

  lemma CommitKeepsIntact(env: Env, s: Store, op: Op, k: Store, ok: bool)
    requires Intact(env, s) && Step(env, s, op, k, ok) && op.Commit?
    ensures Intact(env, k)
  {
    hide ValidDigest;
    hide Canonical;
  }

  lemma LinkingKeepsIntact(env: Env, s: Store, op: Op, k: Store, ok: bool)
    requires Intact(env, s) && Step(env, s, op, k, ok) && (op.LinkBlob? || op.Unlink? || op.Enter?)
    ensures Intact(env, k)
  {
    hide ValidDigest;
    hide Canonical;
    hide RepositoryPath;
    hide Taken;
    hide Free;
    var path := RepositoryPath(op.repository);
    if path.Some? {
      FreeStays(s, path.value);
      if op.LinkBlob? {
        PathIsCanonical(op.repository);
        TakenAgain(s.directories, path.value, op.digest);
      }
    }
  }

  /** A directory that finds no link in its way takes the place of none. */
  lemma FreeStays(s: Store, repository: string)
    ensures Free(s.links, repository) ==>
      forall link :: link in s.links && !Taken(s.directories, link) ==> !Taken(s.directories + {repository}, link)
  {
    hide LinkFile;
  }

  lemma StepKeepsIntact(env: Env, s: Store, op: Op, k: Store, ok: bool)
    requires Intact(env, s) && Step(env, s, op, k, ok)
    ensures Intact(env, k)
  {
    hide Step;
    hide Intact;
    if op.Migrate? {
      MigrationKeepsIntact(env, s, op, k, ok);
    } else if op.Commit? {
      CommitKeepsIntact(env, s, op, k, ok);
    } else {
      LinkingKeepsIntact(env, s, op, k, ok);
    }
  }

  lemma {:induction false} RunKeepsIntact(env: Env, s: Store, events: seq<Event>, k: Store)
    requires Intact(env, s) && Runs(env, s, events, k)
    ensures Intact(env, k)
    decreases events
  {
    if events != [] {
      hide Step;
      hide Intact;
      StepKeepsIntact(env, s, events[0].op, events[0].after, events[0].ok);
      RunKeepsIntact(env, events[0].after, events[1..], k);
    }
  }

  /**
   Store integrity: after any run of commits, links, unlinks and migrations, whichever of them fail, each stored
   blob hashes to its digest and every link of every repository has its blob in the store.
   */
  lemma {:induction false} StoreStaysIntact(env: Env, events: seq<Event>, s: Store)
    requires Runs(env, EMPTY, events, s)
    ensures forall d :: d in s.blobs ==> ValidDigest(d) && env.matches(d, s.blobs[d])
    ensures forall link :: link in s.links ==>
              link.digest in s.blobs && Canonical(link.repository) && !Taken(s.directories, link)
  {
    RunKeepsIntact(env, EMPTY, events, s);
  }

  lemma StepKeepsBlob(env: Env, s: Store, op: Op, k: Store, ok: bool, digest: string)
    requires Intact(env, s) && Step(env, s, op, k, ok) && digest in s.blobs
    requires forall d, a, b :: env.matches(d, a) && env.matches(d, b) ==> a == b
    ensures digest in k.blobs && k.blobs[digest] == s.blobs[digest]
  {
    hide RepositoryPath;
    hide Canonical;
    hide ValidDigest;
    hide MigrationLinks;
    hide Taken;
    hide Free;
  }

  /** With a hash that has no collisions a stored blob is never lost and never changes. */
  lemma {:induction false} BlobsOnlyGrow(env: Env, s: Store, events: seq<Event>, k: Store, digest: string)
    requires Intact(env, s) && Runs(env, s, events, k)
    requires forall d, a, b :: env.matches(d, a) && env.matches(d, b) ==> a == b
    requires digest in s.blobs
    ensures digest in k.blobs && k.blobs[digest] == s.blobs[digest]
    decreases events
  {
    if events != [] {
      StepKeepsIntact(env, s, events[0].op, events[0].after, events[0].ok);
      StepKeepsBlob(env, s, events[0].op, events[0].after, events[0].ok, digest);
      hide Step;
      hide Intact;
      BlobsOnlyGrow(env, events[0].after, events[1..], k, digest);
    }
  }

  function LinksOf(s: Store, repository: string): set<string> {
    set link | link in s.links && link.repository == repository :: link.digest
  }

  /** Linking, unlinking and committing for one repository leave the links of every other repository alone. */
  lemma OtherRepositoriesKeepTheirLinks(env: Env, s: Store, op: Op, k: Store, ok: bool, other: string)
    requires Step(env, s, op, k, ok) && !op.Migrate?
    requires op.LinkBlob? || op.Unlink? ==> RepositoryPath(op.repository) != Some(other)
    ensures LinksOf(k, other) == LinksOf(s, other)
  {
    assert forall link: Link :: link.repository == other ==> (link in k.links <==> link in s.links);
  }

  /**
   The migration is complete and exact, whatever lies on the disk: when it has run to its end a repository is linked
   to a blob if and only if it was before, or the blob exists and a file the walk takes for the content of a manifest
   of the repository names it and distributes it.
   */
  lemma MigrationIsExact(env: Env, s: Store, files: seq<File>, k: Store, link: Link)
    requires Step(env, s, Migrate(files), k, true) && !s.migrated
    ensures k.migrated && k.blobs == s.blobs
    ensures link in k.links <==>
            || link in s.links
            || (link.digest in s.blobs && !Taken(s.directories, link) && exists file :: file in files && Asks(env, file, link))
  {
    MigrationLinksMean(env, s, files, link);
    hide Asks;
  }

  /** The file holds the content of a manifest of that repository. */
  ghost predicate HoldsManifest(file: File, repository: string, digest: string) {
    var slot := Layout.Content(repository, digest);
    Layout.Findable(slot) && file.path == Layout.Path(slot)
  }

  /**
   On a disk with the files of the layout, of repositories without "manifests" past their first component, those are
   the manifests stored for the repository, all of them and no others.
   */
  lemma MigrationFollowsTheLayout(env: Env, s: Store, files: seq<File>, k: Store, link: Link)
    requires Step(env, s, Migrate(files), k, true) && !s.migrated
    requires forall file :: file in files ==> exists slot :: Layout.Findable(slot) && file.path == Layout.Path(slot)
    ensures link in k.links <==>
            || link in s.links
            || (link.digest in s.blobs && !Taken(s.directories, link)
                && exists file, digest :: file in files && HoldsManifest(file, link.repository, digest)
                                          && Distributes(env, file.content, link.digest))
  {
    MigrationIsExact(env, s, files, k, link);
    hide Step;
    hide Asks;
    hide HoldsManifest;
    hide Distributes;
    hide Layout.Findable;
    hide Layout.Path;
    forall file | file in files
      ensures Asks(env, file, link) <==>
              (exists digest :: HoldsManifest(file, link.repository, digest)) && Distributes(env, file.content, link.digest)
    {
      AsksIsStored(env, file, link);
    }
  }

  lemma AsksIsStored(env: Env, file: File, link: Link)
    requires exists slot :: Layout.Findable(slot) && file.path == Layout.Path(slot)
    ensures Asks(env, file, link) <==>
            (exists digest :: HoldsManifest(file, link.repository, digest)) && Distributes(env, file.content, link.digest)
  {
    hide Distributes;
    hide RepositoryPath;
    hide Layout.NoLaterManifests;
    hide Layout.Picked;
    hide Layout.PickedRepository;
    hide Layout.Path;
    hide ParseDigest;
    hide Split;
    var slot :| Layout.Findable(slot) && file.path == Layout.Path(slot);
    Layout.MigrationFinds(slot);
    if slot.Content? && slot.repository == link.repository {
      assert HoldsManifest(file, link.repository, slot.digest);
    }
    if digest :| HoldsManifest(file, link.repository, digest) {
      Layout.MigrationFinds(Layout.Content(link.repository, digest));
    }
  }
}
