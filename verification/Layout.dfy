/** The storage layout: which file holds what (internal/storage/filesystem.go:105-135, 212-235, 482-495, 689-849). */
module Layout {
  import opened Wrappers
  import opened Names
  import Routes
  import UploadSessions

  /** Everything the registry keeps in a file of its own. */
  datatype Slot =
    | Blob(digest: string)
    | BlobLink(repository: string, digest: string)
    | Content(repository: string, digest: string)
    | MediaType(repository: string, digest: string)
    | Tag(repository: string, tag: string)
    | Lock(repository: string)
    | Upload(repository: string, owner: string, uploadID: string)

  predicate Reserved(component: string) {
    component == "manifests" || component == "tags" || component == "blobs" || component == ".tag.lock"
  }

  predicate UploadShaped(component: string) {
    "upl_" <= component
  }

  /** A directory whose components the layout gives no other meaning. */
  ghost predicate PlainRepository(repository: string) {
    && Canonical(repository)
    && forall c :: c in Split(repository, '/') ==> !Reserved(c)
  }

  /** A single component that names a file of its own. */
  predicate PlainComponent(name: string) {
    name != "" && name != "." && '/' !in name && !Contains(name, "..")
  }

  /** A tag that has a file of its own: every tag the check of tag names accepts, but ".". */
  predicate FileTag(tag: string) {
    ValidTag(tag) && tag != "."
  }

  /** Owners and uploads as the server names them. */
  predicate UploadNames(owner: string, uploadID: string) {
    && PlainComponent(owner) && !UploadShaped(owner)
    && PlainComponent(uploadID) && UploadShaped(uploadID)
  }

  ghost predicate Placed(slot: Slot) {
    match slot
    case Blob(digest) => ValidDigest(digest)
    case BlobLink(repository, digest) => PlainRepository(repository) && ValidDigest(digest)
    case Content(repository, digest) => PlainRepository(repository) && ValidDigest(digest)
    case MediaType(repository, digest) => PlainRepository(repository) && ValidDigest(digest)
    case Tag(repository, tag) => PlainRepository(repository) && FileTag(tag)
    case Lock(repository) => PlainRepository(repository)
    case Upload(repository, owner, uploadID) =>
      && Canonical(repository) && (forall c :: c in Split(repository, '/') ==> !UploadShaped(c))
      && UploadNames(owner, uploadID)
  }

  function Algorithm(digest: string): string
    requires ValidDigest(digest)
  {
    ParseDigest(digest).value.0
  }

  function Encoded(digest: string): string
    requires ValidDigest(digest)
  {
    ParseDigest(digest).value.1
  }

  /** The directory of a repository, below which everything of it lies. */
  function Home(repository: string): seq<string> {
    ["repositories"] + Split(repository, '/')
  }

  function ManifestDirectory(repository: string, digest: string): seq<string>
    requires ValidDigest(digest)
  {
    Home(repository) + ["manifests", Algorithm(digest), Encoded(digest)]
  }

  /** What a repository's file has after the directory of the repository. */
  function Inside(slot: Slot): seq<string>
    requires !slot.Blob? && !slot.Upload?
    requires slot.BlobLink? || slot.Content? || slot.MediaType? ==> ValidDigest(slot.digest)
  {
    match slot
    case BlobLink(_, digest) => ["blobs", Algorithm(digest), Encoded(digest)]
    case Content(_, digest) => ["manifests", Algorithm(digest), Encoded(digest), "content"]
    case MediaType(_, digest) => ["manifests", Algorithm(digest), Encoded(digest), "mediaType"]
    case Tag(_, tag) => ["tags", tag]
    case Lock(_) => [".tag.lock"]
  }

  /** The components of a file's path under the storage root. */
  function Path(slot: Slot): seq<string>
    requires slot.Blob? || slot.BlobLink? || slot.Content? || slot.MediaType? ==> ValidDigest(slot.digest)
  {
    match slot
    case Blob(digest) => ["blobs", Algorithm(digest), EncodedHead(digest), Encoded(digest)]
    case Upload(repository, owner, uploadID) => ["uploads"] + Split(repository, '/') + [owner, uploadID]
    case _ => Home(slot.repository) + Inside(slot)
  }

  function EncodedHead(digest: string): string
    requires ValidDigest(digest)
  {
    Encoded(digest)[..2]
  }

  /** The path as the text the operating system and the upload locks see. */
  function PathText(slot: Slot): string
    requires slot.Blob? || slot.BlobLink? || slot.Content? || slot.MediaType? ==> ValidDigest(slot.digest)
  {
    Join(Path(slot), '/')
  }

  lemma {:induction false} JoinAround(first: string, repository: string, rest: seq<string>)
    requires rest != []
    ensures Join([first] + Split(repository, '/') + rest, '/') == first + "/" + repository + "/" + Join(rest, '/')
  {
    var parts := Split(repository, '/');
    var all := [first] + parts + rest;
    Routes.JoinParts(all, 1 + |parts|);
    Routes.JoinParts([first] + parts, 1);
    JoinSplit(repository, '/');
    assert all[..1 + |parts|] == [first] + parts && all[1 + |parts|..] == rest;
    assert ([first] + parts)[..1] == [first] && ([first] + parts)[1..] == parts;
  }

  lemma JoinWords(a: string, b: string, c: string, d: string)
    ensures Join([a, b], '/') == a + "/" + b
    ensures Join([a, b, c], '/') == a + "/" + b + "/" + c
    ensures Join([a, b, c, d], '/') == a + "/" + b + "/" + c + "/" + d
  {
    assert [a] + [b] == [a, b] && [a, b] + [c] == [a, b, c] && [a, b, c] + [d] == [a, b, c, d];
    JoinLast([a], b);
    JoinLast([a, b], c);
    JoinLast([a, b, c], d);
  }

  /** The paths in words. */
  lemma PathsInWords(repository: string, digest: string, tag: string, owner: string, uploadID: string)
    requires ValidDigest(digest)
    ensures
      var algorithm, encoded, home := Algorithm(digest), Encoded(digest), "repositories" + "/" + repository + "/";
      && PathText(Blob(digest)) == "blobs" + "/" + algorithm + "/" + encoded[..2] + "/" + encoded
      && PathText(BlobLink(repository, digest)) == home + ("blobs" + "/" + algorithm + "/" + encoded)
      && PathText(Content(repository, digest)) == home + ("manifests" + "/" + algorithm + "/" + encoded + "/" + "content")
      && PathText(MediaType(repository, digest)) == home + ("manifests" + "/" + algorithm + "/" + encoded + "/" + "mediaType")
      && PathText(Tag(repository, tag)) == home + ("tags" + "/" + tag)
      && PathText(Lock(repository)) == home + ".tag.lock"
      && PathText(Upload(repository, owner, uploadID)) == "uploads" + "/" + repository + "/" + (owner + "/" + uploadID)
  {
    var algorithm, encoded := Algorithm(digest), Encoded(digest);
    JoinWords("blobs", algorithm, encoded[..2], encoded);
    JoinWords("blobs", algorithm, encoded, "");
    JoinWords("manifests", algorithm, encoded, "content");
    JoinWords("manifests", algorithm, encoded, "mediaType");
    JoinWords("tags", tag, "", "");
    JoinWords(owner, uploadID, "", "");
    hide Split;
    hide Algorithm;
    hide Encoded;
    JoinAround("repositories", repository, ["blobs", algorithm, encoded]);
    JoinAround("repositories", repository, ["manifests", algorithm, encoded, "content"]);
    JoinAround("repositories", repository, ["manifests", algorithm, encoded, "mediaType"]);
    JoinAround("repositories", repository, ["tags", tag]);
    JoinAround("repositories", repository, [".tag.lock"]);
    JoinAround("uploads", repository, [owner, uploadID]);
    hide Join;
  }

  // ---------------------------------------------------------------- no two files meet

  lemma DigestInParts(a: string, b: string)
    requires ValidDigest(a) && ValidDigest(b) && Algorithm(a) == Algorithm(b) && Encoded(a) == Encoded(b)
    ensures a == b
  {
  }

  /** The home of a repository ends at the first reserved component, so it can be read off any path in it. */
  lemma HomesCoincide(a: string, b: string, x: seq<string>, y: seq<string>)
    requires PlainRepository(a) && PlainRepository(b)
    requires x != [] && y != [] && Reserved(x[0]) && Reserved(y[0])
    requires Home(a) + x <= Home(b) + y
    ensures a == b && x <= y
  {
    var p, q, m, n := Home(a) + x, Home(b) + y, |Home(a)|, |Home(b)|;
    assert forall i :: 1 <= i < m ==> p[i] == Split(a, '/')[i - 1] && p[i] in Split(a, '/');
    assert forall i :: 1 <= i < n ==> q[i] == Split(b, '/')[i - 1] && q[i] in Split(b, '/');
    assert p[m] == x[0] && q[n] == y[0] && q[m] == p[m];
    assert m == n;
    assert Home(a) == p[..m] && Home(b) == q[..n] && p[..m] == q[..m];
    assert Split(a, '/') == Home(a)[1..] && Split(b, '/') == Home(b)[1..];
    SplitInjective(a, b, '/');
    assert x == p[m..] && y == q[n..];
  }

  /** Only the last component of an upload's path looks like an upload. */
  lemma UploadComesLast(slot: Slot, i: nat)
    requires slot.Upload? && Placed(slot) && 1 <= i < |Path(slot)| - 1
    ensures !UploadShaped(Path(slot)[i])
  {
    var parts := Split(slot.repository, '/');
    if i <= |parts| {
      assert Path(slot)[i] == parts[i - 1] && parts[i - 1] in parts;
    }
  }

  lemma UploadsApart(a: Slot, b: Slot)
    requires a.Upload? && b.Upload? && Placed(a) && Placed(b) && Path(a) <= Path(b)
    ensures a == b
  {
    var p, q := Path(a), Path(b);
    assert p[|p| - 1] == a.uploadID && q[|p| - 1] == a.uploadID;
    if |p| < |q| {
      UploadComesLast(b, |p| - 1);
    } else {
      assert p == q;
      assert Split(a.repository, '/') == p[1..|p| - 2] && Split(b.repository, '/') == q[1..|q| - 2];
      assert p[|p| - 2] == a.owner && q[|q| - 2] == b.owner;
      SplitInjective(a.repository, b.repository, '/');
    }
  }

  predicate InRepository(slot: Slot) {
    !slot.Blob? && !slot.Upload?
  }

  lemma RepositoryFilesApart(a: Slot, b: Slot)
    requires InRepository(a) && InRepository(b) && Placed(a) && Placed(b) && Path(a) <= Path(b)
    ensures a == b
  {
    HomesCoincide(a.repository, b.repository, Inside(a), Inside(b));
    var x, y := Inside(a), Inside(b);
    assert x[0] == y[0];
    if a.Tag? || a.Lock? {
      assert x[|x| - 1] == y[|x| - 1];
    } else {
      assert x[1] == y[1] && x[2] == y[2];
      DigestInParts(a.digest, b.digest);
      assert |x| == 4 ==> x[3] == y[3];
    }
  }

  lemma FirstComponent(slot: Slot)
    requires Placed(slot)
    ensures Path(slot)[0] == if slot.Blob? then "blobs" else if slot.Upload? then "uploads" else "repositories"
  {
  }

  /**
   The layout is injective: for repositories without reserved components no two things share a file, and no file
   lies below another, so each can be written without touching any other.
   */
  lemma FilesNeverMeet(a: Slot, b: Slot)
    requires Placed(a) && Placed(b) && Path(a) <= Path(b)
    ensures a == b
  {
    FirstComponent(a);
    FirstComponent(b);
    assert Path(a)[0] == Path(b)[0];
    assert "blobs"[0] == 'b' && "uploads"[0] == 'u' && "repositories"[0] == 'r';
    if a.Blob? {
      assert Path(a)[1] == Path(b)[1] && Path(a)[3] == Path(b)[3];
      DigestInParts(a.digest, b.digest);
    } else if a.Upload? {
      UploadsApart(a, b);
    } else {
      RepositoryFilesApart(a, b);
    }
  }

  // ---------------------------------------------------------------- the paths as text

  lemma DigestPartsPlain(digest: string)
    requires ValidDigest(digest)
    ensures '/' !in Algorithm(digest) && '/' !in Encoded(digest)
  {
    assert !HexChar('/');
  }

  lemma InsidePlain(slot: Slot)
    requires InRepository(slot) && Placed(slot)
    ensures Inside(slot) != [] && forall c :: c in Inside(slot) ==> '/' !in c
  {
    hide PlainRepository;
    hide ParseDigest;
    hide Contains;
    if slot.Tag? {
      assert !TagChar('/');
    } else if !slot.Lock? {
      DigestPartsPlain(slot.digest);
    }
  }

  lemma ComponentsPlain(slot: Slot)
    requires Placed(slot)
    ensures Path(slot) != [] && forall c :: c in Path(slot) ==> '/' !in c
  {
    if slot.Blob? {
      BlobPlain(slot);
    } else {
      SplitPartsPlain(slot.repository, '/');
      hide Split;
      hide ParseDigest;
      hide Contains;
      if !slot.Upload? {
        InsidePlain(slot);
        hide Inside;
        hide Placed;
        assert forall c :: c in Home(slot.repository) ==> '/' !in c;
      }
    }
  }

  lemma BlobPlain(slot: Slot)
    requires slot.Blob? && Placed(slot)
    ensures forall c :: c in Path(slot) ==> '/' !in c
  {
    DigestPartsPlain(slot.digest);
    hide ParseDigest;
    assert forall c :: c in EncodedHead(slot.digest) ==> c in Encoded(slot.digest);
  }

  /** Texts of paths are as different as the things they are for. */
  lemma TextsAreDistinct(a: Slot, b: Slot)
    requires Placed(a) && Placed(b) && PathText(a) == PathText(b)
    ensures a == b
  {
    ComponentsPlain(a);
    ComponentsPlain(b);
    SplitJoin(Path(a), '/');
    SplitJoin(Path(b), '/');
    hide Path;
    FilesNeverMeet(a, b);
  }

  lemma {:induction false} DirOfPlain(dir: string, name: string)
    requires '/' !in name
    ensures UploadSessions.Dir(dir + "/" + name) == dir + "/"
    decreases |name|
  {
    var path := dir + "/" + name;
    if name == "" {
      assert path == dir + "/";
    } else {
      assert path[|path| - 1] == name[|name| - 1] && name[|name| - 1] in name;
      assert path[..|path| - 1] == dir + "/" + name[..|name| - 1];
      DirOfPlain(dir, name[..|name| - 1]);
    }
  }

  /** The directory in which the uploads of one repository and owner lie. */
  function UploadDirectory(repository: string, owner: string): seq<string> {
    ["uploads"] + Split(repository, '/') + [owner]
  }

  lemma UploadDir(slot: Slot)
    requires slot.Upload? && '/' !in slot.uploadID
    ensures UploadSessions.Dir(PathText(slot)) == Join(UploadDirectory(slot.repository, slot.owner), '/') + "/"
  {
    var dir := UploadDirectory(slot.repository, slot.owner);
    assert Path(slot) == dir + [slot.uploadID];
    JoinLast(dir, slot.uploadID);
    DirOfPlain(Join(dir, '/'), slot.uploadID);
  }

  lemma {:induction false} JoinLast(parts: seq<string>, last: string)
    requires parts != []
    ensures Join(parts + [last], '/') == Join(parts, '/') + "/" + last
  {
    if |parts| > 1 {
      JoinLast(parts[1..], last);
      assert (parts + [last])[1..] == parts[1..] + [last];
    }
  }

  /** So the directory the session cap counts belongs to exactly one repository and owner, whatever they are called. */
  lemma CapIsPerRepositoryAndOwner(a: Slot, b: Slot)
    requires a.Upload? && '/' !in a.owner && '/' !in a.uploadID
    requires b.Upload? && '/' !in b.owner && '/' !in b.uploadID
    ensures UploadSessions.Dir(PathText(a)) == UploadSessions.Dir(PathText(b)) <==>
            a.repository == b.repository && a.owner == b.owner
  {
    UploadDir(a);
    UploadDir(b);
    var x, y := UploadDirectory(a.repository, a.owner), UploadDirectory(b.repository, b.owner);
    if Join(x, '/') + "/" == Join(y, '/') + "/" {
      assert Join(x, '/') == (Join(x, '/') + "/")[..|Join(x, '/')|] == Join(y, '/');
      SplitPartsPlain(a.repository, '/');
      SplitPartsPlain(b.repository, '/');
      SplitJoin(x, '/');
      SplitJoin(y, '/');
      assert x == y;
      assert x[|x| - 1] == a.owner && y[|y| - 1] == b.owner;
      assert Split(a.repository, '/') == x[1..|x| - 1] && Split(b.repository, '/') == y[1..|y| - 1];
      SplitInjective(a.repository, b.repository, '/');
    }
  }

  // ---------------------------------------------------------------- the disk as independent maps

  type Disk = map<seq<string>, Bytes>

  function ReadFile(disk: Disk, slot: Slot): Option<Bytes>
    requires slot.Blob? || slot.BlobLink? || slot.Content? || slot.MediaType? ==> ValidDigest(slot.digest)
  {
    Get(disk, Path(slot))
  }

  function WriteFile(disk: Disk, slot: Slot, content: Bytes): Disk
    requires slot.Blob? || slot.BlobLink? || slot.Content? || slot.MediaType? ==> ValidDigest(slot.digest)
  {
    disk[Path(slot) := content]
  }

  /** os.RemoveAll: the file of that path, or every file below it. */
  function RemoveAll(disk: Disk, path: seq<string>): Disk {
    map p | p in disk && !(path <= p) :: disk[p]
  }

  lemma SamePathSameSlot(a: Slot, b: Slot)
    requires Placed(a) && Placed(b)
    ensures Path(a) == Path(b) ==> a == b
  {
    if Path(a) == Path(b) {
      FilesNeverMeet(a, b);
    }
  }

  /** Writing one thing changes the reading of that thing alone. */
  lemma WriteIsLocal(disk: Disk, slot: Slot, content: Bytes, other: Slot)
    requires Placed(slot) && Placed(other)
    ensures ReadFile(WriteFile(disk, slot, content), other) == if other == slot then Some(content) else ReadFile(disk, other)
  {
    SamePathSameSlot(slot, other);
    hide Placed;
    hide Path;
  }

  lemma BelowManifest(repository: string, digest: string, other: Slot)
    requires PlainRepository(repository) && ValidDigest(digest) && Placed(other)
    requires ManifestDirectory(repository, digest) <= Path(other)
    ensures other == Content(repository, digest) || other == MediaType(repository, digest)
  {
    var dir := ManifestDirectory(repository, digest);
    FirstComponent(other);
    assert Path(other)[0] == dir[0] == "repositories";
    assert "blobs"[0] == 'b' && "uploads"[0] == 'u' && "repositories"[0] == 'r';
    assert InRepository(other);
    var inside := ["manifests", Algorithm(digest), Encoded(digest)];
    HomesCoincide(repository, other.repository, inside, Inside(other));
    SameManifest(digest, other);
  }

  lemma SameManifest(digest: string, other: Slot)
    requires ValidDigest(digest) && Placed(other) && InRepository(other)
    requires ["manifests", Algorithm(digest), Encoded(digest)] <= Inside(other)
    ensures (other.Content? || other.MediaType?) && other.digest == digest
  {
    var inside := ["manifests", Algorithm(digest), Encoded(digest)];
    assert Inside(other)[0] == inside[0] && "blobs"[0] == 'b' && "tags"[0] == 't' && "manifests"[0] == 'm';
    assert Inside(other)[1] == inside[1] && Inside(other)[2] == inside[2];
    DigestInParts(digest, other.digest);
  }

  /** Removing the directory of a manifest removes its content and media type, and nothing else of any repository. */
  lemma ManifestRemovalIsLocal(disk: Disk, repository: string, digest: string, other: Slot)
    requires PlainRepository(repository) && ValidDigest(digest) && Placed(other)
    ensures
      ReadFile(RemoveAll(disk, ManifestDirectory(repository, digest)), other) ==
        if other == Content(repository, digest) || other == MediaType(repository, digest) then None
        else ReadFile(disk, other)
  {
    BelowManifestExactly(repository, digest, other);
    hide Placed;
    hide PlainRepository;
    hide Path;
    hide ManifestDirectory;
    hide ValidDigest;
  }

  lemma BelowManifestExactly(repository: string, digest: string, other: Slot)
    requires PlainRepository(repository) && ValidDigest(digest) && Placed(other)
    ensures ManifestDirectory(repository, digest) <= Path(other) <==>
            other == Content(repository, digest) || other == MediaType(repository, digest)
  {
    var dir := ManifestDirectory(repository, digest);
    if other == Content(repository, digest) || other == MediaType(repository, digest) {
      assert Path(other)[..|dir|] == dir;
    } else if dir <= Path(other) {
      BelowManifest(repository, digest, other);
    }
  }

  // ---------------------------------------------------------------- the walk of the garbage collector

  /** The walk stops at a directory called "manifests" and does not go below it. */
  ghost predicate Visited(slot: Slot, directory: seq<string>)
    requires Placed(slot)
  {
    && 1 < |directory| < |Path(slot)| && directory <= Path(slot) && directory[0] == "repositories"
    && directory[|directory| - 1] == "manifests"
  }

  /**
   Whatever lies on the disk, the walk stops exactly at the manifest directories of the repositories, and the
   repository it then works on is the one whose directory it stopped in.
   */
  lemma WalkFindsRepositories(slot: Slot, directory: seq<string>)
    requires Placed(slot)
    ensures Visited(slot, directory) <==>
            (slot.Content? || slot.MediaType?) && directory == Home(slot.repository) + ["manifests"]
    ensures Visited(slot, directory) ==> Join(directory[1..|directory| - 1], '/') == slot.repository
  {
    hide ParseDigest;
    hide Split;
    hide Contains;
    if Visited(slot, directory) {
      var k := |directory| - 1;
      InRepositories(slot, directory);
      StopsAtHome(slot, k);
      HomeComponents(slot.repository, Inside(slot));
      assert directory == Path(slot)[..k] + ["manifests"];
      assert directory[1..k] == Split(slot.repository, '/');
      JoinSplit(slot.repository, '/');
    } else if slot.Content? || slot.MediaType? {
      assert Path(slot)[..|Home(slot.repository)| + 1] == Home(slot.repository) + ["manifests"];
    }
  }

  lemma InRepositories(slot: Slot, directory: seq<string>)
    requires Placed(slot) && Visited(slot, directory)
    ensures InRepository(slot) && Path(slot)[|directory| - 1] == "manifests"
  {
    FirstComponent(slot);
    assert Path(slot)[0] == directory[0];
    assert "blobs"[0] == 'b' && "uploads"[0] == 'u' && "repositories"[0] == 'r';
    hide Path;
  }

  lemma {:induction false} HomeComponents(repository: string, inside: seq<string>)
    ensures (Home(repository) + inside)[..|Home(repository)|] == Home(repository)
    ensures (Home(repository) + inside)[1..|Home(repository)|] == Split(repository, '/')
  {
  }

  lemma StopsAtHome(slot: Slot, k: nat)
    requires Placed(slot) && InRepository(slot) && 1 <= k < |Path(slot)| - 1 && Path(slot)[k] == "manifests"
    ensures k == |Home(slot.repository)| && (slot.Content? || slot.MediaType?)
  {
    var n := |Home(slot.repository)|;
    if k < n {
      assert Path(slot)[k] == Split(slot.repository, '/')[k - 1] && Path(slot)[k] in Split(slot.repository, '/');
      assert Reserved(Path(slot)[k]);
    } else {
      assert Path(slot)[k] == Inside(slot)[k - n];
      ManifestsFirst(slot, k - n);
    }
  }

  lemma ManifestsFirst(slot: Slot, k: nat)
    requires Placed(slot) && InRepository(slot) && k < |Inside(slot)| - 1 && Inside(slot)[k] == "manifests"
    ensures k == 0 && (slot.Content? || slot.MediaType?)
  {
    assert "blobs"[0] == 'b' && "tags"[0] == 't' && "manifests"[0] == 'm' && !HexChar('m');
    assert "sha256"[0] == 's' && "sha512"[0] == 's';
    if !slot.Tag? && !slot.Lock? {
      assert |Algorithm(slot.digest)| == 6 && |Encoded(slot.digest)| >= 64 && |"manifests"| == 9;
    }
  }

  // ---------------------------------------------------------------- what Join cleans away

  /** filepath.Join drops empty components and ".", and goes back at "..". */
  function Cleaned(path: seq<string>): seq<string> {
    if path == [] then []
    else
      var rest, last := Cleaned(path[..|path| - 1]), path[|path| - 1];
      if last == "" || last == "." then rest
      else if last == ".." then if rest == [] then [] else rest[..|rest| - 1]
      else rest + [last]
  }

  predicate Plain(component: string) {
    component != "" && component != "." && component != ".."
  }

  lemma {:induction false} NothingToClean(path: seq<string>)
    requires forall c :: c in path ==> Plain(c)
    ensures Cleaned(path) == path
  {
    if path != [] {
      NothingToClean(path[..|path| - 1]);
      assert path == path[..|path| - 1] + [path[|path| - 1]];
      assert path[|path| - 1] in path;
    }
  }

  lemma {:induction false} RepositoryComponentsPlain(repository: string)
    requires Canonical(repository)
    ensures forall c :: c in Split(repository, '/') ==> Plain(c)
  {
    hide Split;
  }

  lemma DoubleDotIsFound(s: string)
    requires !Contains(s, "..")
    ensures s != ".."
  {
    assert ".."[0..2] == "..";
    assert OccursAt("..", "..", 0);
  }

  lemma InsideNotDots(slot: Slot)
    requires InRepository(slot) && Placed(slot)
    ensures forall c :: c in Inside(slot) ==> Plain(c)
  {
    if slot.Tag? {
      DoubleDotIsFound(slot.tag);
    } else if !slot.Lock? {
      assert |Algorithm(slot.digest)| == 6 && |Encoded(slot.digest)| >= 64;
    }
    hide ParseDigest;
    hide Contains;
  }

  lemma BlobNotDots(slot: Slot)
    requires slot.Blob? && Placed(slot)
    ensures forall c :: c in Path(slot) ==> Plain(c)
  {
    assert |Algorithm(slot.digest)| == 6 && |Encoded(slot.digest)| >= 64 && !HexChar('.');
    assert Encoded(slot.digest)[0] in Encoded(slot.digest) && EncodedHead(slot.digest)[0] == Encoded(slot.digest)[0];
  }

  /** The paths of the layout are what Join makes of them: there is nothing in them to clean. */
  lemma PathsAreClean(slot: Slot)
    requires Placed(slot)
    ensures Cleaned(Path(slot)) == Path(slot)
  {
    if slot.Blob? {
      BlobNotDots(slot);
    } else {
      RepositoryComponentsPlain(slot.repository);
      if slot.Upload? {
        DoubleDotIsFound(slot.owner);
        DoubleDotIsFound(slot.uploadID);
      } else {
        InsideNotDots(slot);
        hide Inside;
      }
    }
    hide ParseDigest;
    hide Contains;
    hide Split;
    hide Cleaned;
    assert forall c :: c in Path(slot) ==> Plain(c);
    NothingToClean(Path(slot));
  }

  /**
   The tag "." is accepted but has no file of its own: Join turns its path into the directory above every other tag
   of the repository, so the two are not both files.
   */
  lemma DotTagIsTheTagDirectory(repository: string, tag: string)
    requires Canonical(repository) && FileTag(tag)
    ensures ValidTag(".")
    ensures Cleaned(Path(Tag(repository, "."))) < Cleaned(Path(Tag(repository, tag)))
  {
    DotIsTag();
    DoubleDotIsFound(tag);
    RepositoryComponentsPlain(repository);
    hide Contains;
    hide Split;
    var directory := Home(repository) + ["tags"];
    assert Path(Tag(repository, ".")) == directory + ["."] && Path(Tag(repository, tag)) == directory + [tag];
    assert (directory + ["."])[..|directory|] == directory;
    NothingToClean(directory);
    NothingToClean(directory + [tag]);
  }

  lemma DotIsTag()
    ensures ValidTag(".")
  {
    forall i: nat ensures !OccursAt(".", "..", i) {
    }
  }

  // ---------------------------------------------------------------- uploads of any repository

  /** One upload lies below another exactly when the repository of the second continues the path of the first. */
  lemma UploadsNestExactly(a: Slot, b: Slot)
    requires a.Upload? && b.Upload? && a != b
    requires Canonical(a.repository) && Canonical(b.repository)
    requires UploadNames(a.owner, a.uploadID) && UploadNames(b.owner, b.uploadID)
    ensures Path(a) <= Path(b) <==>
            Split(a.repository, '/') + [a.owner, a.uploadID] <= Split(b.repository, '/')
  {
    hide Split;
    hide Contains;
    var p, q := Path(a), Path(b);
    var x, y := Split(a.repository, '/') + [a.owner, a.uploadID], Split(b.repository, '/');
    assert p == ["uploads"] + x && q == ["uploads"] + y + [b.owner, b.uploadID];
    assert p[1..] == x && q[1..] == y + [b.owner, b.uploadID];
    if x <= y {
      assert p <= q;
    }
    assert (y + [b.owner, b.uploadID])[|y|] == b.owner;
    if p <= q {
      assert x <= y + [b.owner, b.uploadID];
      assert x[|x| - 1] == a.uploadID;
      if |x| == |y| + 2 {
        assert Split(a.repository, '/') == x[..|x| - 2] && y == (y + [b.owner, b.uploadID])[..|y|];
        assert x[|x| - 2] == a.owner;
        SplitInjective(a.repository, b.repository, '/');
      }
    }
  }

  // ---------------------------------------------------------------- reserved names

  /** Something a repository of any accepted name keeps below its directory. */
  ghost predicate KeptBy(slot: Slot, repository: string) {
    && InRepository(slot) && slot.repository == repository
    && (slot.Tag? ==> FileTag(slot.tag))
    && (!slot.Tag? && !slot.Lock? ==> ValidDigest(slot.digest))
  }

  predicate DigestParts(algorithm: string, encoded: string) {
    && (algorithm == "sha256" || algorithm == "sha512")
    && |encoded| == HexLength(algorithm)
    && forall c :: c in encoded ==> HexChar(c)
  }

  /** How one repository can go on inside another: along a file of the outer one, as far as a reserved word leads. */
  predicate Intrudes(outer: seq<string>, inner: seq<string>) {
    && |outer| < |inner| && outer <= inner
    && var w := inner[|outer|..];
       || w[0] == ".tag.lock"
       || (w[0] == "tags" && (|w| == 1 || FileTag(w[1])))
       || (w[0] == "blobs" && |w| >= 3 && DigestParts(w[1], w[2]))
       || (w[0] == "manifests" && |w| >= 4 && DigestParts(w[1], w[2]) && (w[3] == "content" || w[3] == "mediaType"))
  }

  lemma PartsOfDigest(digest: string)
    requires ValidDigest(digest)
    ensures DigestParts(Algorithm(digest), Encoded(digest))
  {
  }

  /** Where a file other than a tag goes on after its first component, there is nothing reserved. */
  lemma ReservedInFront(slot: Slot, repository: string)
    requires KeptBy(slot, repository)
    ensures |Inside(slot)| > 0 && Reserved(Inside(slot)[0])
    ensures !slot.Tag? ==> forall j :: 1 <= j < |Inside(slot)| ==> !Reserved(Inside(slot)[j])
  {
    assert "blobs"[0] == 'b' && "tags"[0] == 't' && "manifests"[0] == 'm' && ".tag.lock"[0] == '.';
    assert "sha256"[0] == 's' && "sha512"[0] == 's' && "content"[0] == 'c' && "mediaType"[1] == 'e' && "manifests"[1] == 'a';
    if slot.BlobLink? || slot.Content? || slot.MediaType? {
      PartsOfDigest(slot.digest);
      assert |Encoded(slot.digest)| >= 64;
      hide ParseDigest;
    }
  }

  lemma DigestOfParts(algorithm: string, encoded: string)
    requires DigestParts(algorithm, encoded)
    ensures
      var digest := algorithm + ":" + encoded;
      ValidDigest(digest) && Algorithm(digest) == algorithm && Encoded(digest) == encoded
  {
    var digest, n := algorithm + ":" + encoded, |algorithm|;
    assert digest[n..n + 1] == ":";
    assert OccursAt(digest, ":", n);
    assert ':' !in algorithm;
    var i := Index(digest, ":");
    assert digest[i..i + 1] == [digest[i]];
    assert forall j :: 0 <= j < n ==> digest[j] == algorithm[j] && algorithm[j] in algorithm;
    assert digest[..n] == algorithm && digest[n + 1..] == encoded;
  }

  /** Along a file of the outer repository. */
  lemma {:induction false} AlongFile(x: Slot, y: Slot, w: seq<string>, outer: string, inner: string)
    requires KeptBy(x, outer) && KeptBy(y, inner) && w != []
    requires Split(inner, '/') == Split(outer, '/') + w && Inside(x) <= w + Inside(y)
    ensures Intrudes(Split(outer, '/'), Split(inner, '/'))
  {
    var ix, z := Inside(x), w + Inside(y);
    assert Split(inner, '/')[|Split(outer, '/')|..] == w;
    assert ix[0] == z[0] == w[0];
    if x.Tag? {
      assert |w| > 1 ==> ix[1] == z[1] == w[1];
    } else if !x.Lock? {
      PartsOfDigest(x.digest);
      AlongDigest(x, y, w, outer, inner);
      assert ix == w[..|ix|];
    }
    hide Split;
    hide ParseDigest;
  }

  lemma AlongDigest(x: Slot, y: Slot, w: seq<string>, outer: string, inner: string)
    requires KeptBy(x, outer) && KeptBy(y, inner) && !x.Tag? && w != []
    requires Inside(x) <= w + Inside(y)
    ensures |w| >= |Inside(x)| && Inside(x) <= w
  {
    ReservedInFront(x, outer);
    ReservedInFront(y, inner);
    hide *;
    var ix, iy, z := Inside(x), Inside(y), w + Inside(y);
    assert z[|w|] == iy[0];
    assert forall j :: 0 <= j < |ix| ==> ix[j] == z[j];
  }

  /** Back along a file of the inner repository there is only one way: a tag with the name of the lock file. */
  lemma {:induction false} AlongTag(x: Slot, y: Slot, v: seq<string>, inner: string, outer: string)
    requires KeptBy(x, inner) && KeptBy(y, outer) && v != []
    requires Split(inner, '/') == Split(outer, '/') + v && v + Inside(x) <= Inside(y)
    ensures Intrudes(Split(outer, '/'), Split(inner, '/'))
  {
    ReservedInFront(x, inner);
    ReservedInFront(y, outer);
    hide Split;
    hide ParseDigest;
    hide Contains;
    var iy, z := Inside(y), v + Inside(x);
    assert Split(inner, '/')[|Split(outer, '/')|..] == v;
    assert z[0] == v[0] == iy[0] && z[|v|] == Inside(x)[0] == iy[|v|];
  }

  lemma {:induction false} BelowTheRoot(x: Slot, y: Slot, a: string, b: string)
    requires KeptBy(x, a) && KeptBy(y, b) && Path(x) <= Path(y)
    ensures Split(a, '/') + Inside(x) <= Split(b, '/') + Inside(y)
  {
    hide Split;
    hide ParseDigest;
    hide ValidTag;
    hide Inside;
    assert Path(x) == ["repositories"] + (Split(a, '/') + Inside(x));
    assert Path(y) == ["repositories"] + (Split(b, '/') + Inside(y));
    assert Path(x)[1..] == Split(a, '/') + Inside(x) && Path(y)[1..] == Split(b, '/') + Inside(y);
  }

  lemma {:induction false} MeetingIntrudes(x: Slot, y: Slot, a: string, b: string)
    requires KeptBy(x, a) && KeptBy(y, b) && a != b && Path(x) <= Path(y)
    ensures Intrudes(Split(a, '/'), Split(b, '/')) || Intrudes(Split(b, '/'), Split(a, '/'))
  {
    hide Split;
    hide ParseDigest;
    hide ValidTag;
    hide Intrudes;
    hide Inside;
    BelowTheRoot(x, y, a, b);
    hide Path;
    var p, q := Split(a, '/'), Split(b, '/');
    var ix, iy := Inside(x), Inside(y);
    assert p == (p + ix)[..|p|] && q == (q + iy)[..|q|];
    if |p| < |q| {
      assert q == p + q[|p|..];
      assert ix == (p + ix)[|p|..] && q[|p|..] + iy == (q + iy)[|p|..];
      AlongFile(x, y, q[|p|..], a, b);
    } else if |q| < |p| {
      assert p == q + p[|q|..];
      assert p[|q|..] + ix == (p + ix)[|q|..] && iy == (q + iy)[|q|..];
      AlongTag(x, y, p[|q|..], a, b);
    } else {
      SplitInjective(a, b, '/');
    }
  }

  /** The file of the outer repository that lies on the way to the lock file of the inner one. */
  lemma IntruderMeets(a: string, b: string) returns (x: Slot)
    requires Intrudes(Split(a, '/'), Split(b, '/'))
    ensures KeptBy(x, a) && KeptBy(Slot.Lock(b), b) && Path(x) <= Path(Slot.Lock(b))
  {
    hide Split;
    hide ParseDigest;
    hide ValidTag;
    var p, q := Split(a, '/'), Split(b, '/');
    x := FileOnTheWay(p, q, a);
    hide Intrudes;
    hide Inside;
    var w := q[|p|..];
    assert q == p + w;
    assert Inside(Slot.Lock(b)) == [".tag.lock"] by { InsideLock(b); }
    assert Path(Slot.Lock(b)) == (["repositories"] + p) + (w + [".tag.lock"]);
    assert Path(x) == (["repositories"] + p) + Inside(x);
  }

  lemma InsideLock(repository: string)
    ensures Inside(Slot.Lock(repository)) == [".tag.lock"]
  {
  }

  lemma FileOnTheWay(outer: seq<string>, inner: seq<string>, repository: string) returns (x: Slot)
    requires Intrudes(outer, inner)
    ensures KeptBy(x, repository) && Inside(x) <= inner[|outer|..] + [".tag.lock"]
  {
    var w := inner[|outer|..];
    if w[0] == ".tag.lock" {
      x := Slot.Lock(repository);
    } else if w[0] == "tags" {
      LockNameIsTag();
      x := Tag(repository, if |w| == 1 then ".tag.lock" else w[1]);
    } else {
      DigestOfParts(w[1], w[2]);
      var digest := w[1] + ":" + w[2];
      x := if w[0] == "blobs" then BlobLink(repository, digest)
           else if w[3] == "content" then Content(repository, digest) else MediaType(repository, digest);
      hide ParseDigest;
      assert Inside(x) <= w;
    }
  }

  /**
   When two repositories get in each other's way: two accepted repositories share a file, or keep one below a file of
   the other, if and only if the components of one continue those of the other along a file of it.
   */
  lemma {:induction false} RepositoriesMeetExactly(a: string, b: string)
    requires Canonical(a) && Canonical(b) && a != b
    ensures (exists x: Slot, y: Slot :: KeptBy(x, a) && KeptBy(y, b) && (Path(x) <= Path(y) || Path(y) <= Path(x)))
            <==> Intrudes(Split(a, '/'), Split(b, '/')) || Intrudes(Split(b, '/'), Split(a, '/'))
  {
    hide Canonical;
    hide Intrudes;
    hide Split;
    hide ParseDigest;
    hide ValidTag;
    hide Inside;
    if x: Slot, y: Slot :| KeptBy(x, a) && KeptBy(y, b) && (Path(x) <= Path(y) || Path(y) <= Path(x)) {
      if Path(x) <= Path(y) {
        MeetingIntrudes(x, y, a, b);
      } else {
        MeetingIntrudes(y, x, b, a);
      }
    }
    if Intrudes(Split(a, '/'), Split(b, '/')) {
      var x := IntruderMeets(a, b);
    } else if Intrudes(Split(b, '/'), Split(a, '/')) {
      var x := IntruderMeets(b, a);
    }
  }

  predicate NoManifests(parts: seq<string>) {
    forall k :: 0 <= k < |parts| ==> parts[k] != "manifests"
  }

  /** How a repository can lie below the directory of a manifest of another, and go with it. */
  predicate Buried(outer: seq<string>, inner: seq<string>) {
    && |outer| + 3 <= |inner| && outer <= inner
    && inner[|outer|] == "manifests" && DigestParts(inner[|outer| + 1], inner[|outer| + 2])
  }

  predicate Meets(outer: string, inner: string) {
    Intrudes(Split(outer, '/'), Split(inner, '/')) || Buried(Split(outer, '/'), Split(inner, '/'))
  }

  /** Two repositories that do not get in each other's way. */
  predicate Apart(a: string, b: string) {
    a == b || (!Meets(a, b) && !Meets(b, a))
  }

  /** What is written for one of them changes nothing that is read for the other. */
  lemma {:induction false} ApartWritesAreLocal(disk: Disk, x: Slot, a: string, content: Bytes, y: Slot, b: string)
    requires KeptBy(x, a) && KeptBy(y, b) && a != b && Apart(a, b)
    ensures ReadFile(WriteFile(disk, x, content), y) == ReadFile(disk, y)
    ensures ReadFile(RemoveAll(disk, Path(x)), y) == ReadFile(disk, y)
  {
    hide Split;
    hide ParseDigest;
    hide ValidTag;
    hide Inside;
    hide Buried;
    if Path(x) <= Path(y) {
      MeetingIntrudes(x, y, a, b);
    }
    hide Intrudes;
    hide Path;
  }

  /** Nor does the removal of a manifest of one of them. */
  lemma {:induction false} ApartRemovalsAreLocal(disk: Disk, a: string, digest: string, y: Slot, b: string)
    requires ValidDigest(digest) && KeptBy(y, b) && a != b && Apart(a, b)
    ensures ReadFile(RemoveAll(disk, ManifestDirectory(a, digest)), y) == ReadFile(disk, y)
  {
    hide Split;
    hide ParseDigest;
    hide ValidTag;
    hide Inside;
    if ManifestDirectory(a, digest) <= Path(y) {
      BuryingMeets(a, digest, y, b);
    }
    hide Meets;
    hide Path;
    hide ManifestDirectory;
  }

  lemma {:induction false} BuryingMeets(a: string, digest: string, y: Slot, b: string)
    requires ValidDigest(digest) && KeptBy(y, b) && a != b && ManifestDirectory(a, digest) <= Path(y)
    ensures Meets(a, b) || Meets(b, a)
  {
    hide Split;
    hide ParseDigest;
    hide ValidTag;
    var p, q, iy := Split(a, '/'), Split(b, '/'), Inside(y);
    var inside := ["manifests", Algorithm(digest), Encoded(digest)];
    BuriedBelowTheRoot(a, inside, y, b, digest);
    PartsOfDigest(digest);
    ReservedInFront(y, b);
    if y.Tag? {
      TagsAreShort(y);
    }
    hide *;
    BuriedOrSame(p, inside, q, iy);
    if p == q {
      SplitInjective(a, b, '/');
    }
    MeetsBuried(a, b);
  }

  lemma {:induction false} MeetsBuried(a: string, b: string)
    ensures Buried(Split(a, '/'), Split(b, '/')) ==> Meets(a, b)
  {
    hide Split;
    hide Intrudes;
    hide Buried;
  }

  lemma {:induction false} BuriedOrSame(p: seq<string>, inside: seq<string>, q: seq<string>, iy: seq<string>)
    requires p + inside <= q + iy && |inside| == 3 && inside[0] == "manifests" && DigestParts(inside[1], inside[2])
    requires iy != [] && Reserved(iy[0]) && (|iy| <= 2 || forall j :: 1 <= j < |iy| ==> !Reserved(iy[j]))
    ensures p == q || Buried(p, q)
  {
    ManifestsNotFurther(p, inside, q, iy);
    hide DigestParts;
    hide Reserved;
    assert p == (p + inside)[..|p|] && q == (q + iy)[..|q|];
    if |p| < |q| {
      var w := q[|p|..];
      assert q == p + w && inside == (p + inside)[|p|..] && w + iy == (q + iy)[|p|..];
      BuryingForward(p, q, w, inside, iy);
    }
  }

  /** No file of a repository goes on below "manifests" behind another name. */
  lemma {:induction false} ManifestsNotFurther(p: seq<string>, inside: seq<string>, q: seq<string>, iy: seq<string>)
    requires p + inside <= q + iy && |inside| == 3 && inside[0] == "manifests"
    requires |iy| <= 2 || forall j :: 1 <= j < |iy| ==> !Reserved(iy[j])
    ensures |p| <= |q|
  {
    assert (p + inside)[|p|] == "manifests" == (q + iy)[|p|];
    assert forall j :: 0 <= j < |iy| ==> (q + iy)[|q| + j] == iy[j];
  }

  lemma {:induction false} TagsAreShort(slot: Slot)
    requires slot.Tag?
    ensures |Inside(slot)| == 2
  {
  }

  lemma {:induction false} BuriedBelowTheRoot(a: string, inside: seq<string>, y: Slot, b: string, digest: string)
    requires ValidDigest(digest) && KeptBy(y, b) && ManifestDirectory(a, digest) <= Path(y)
    requires inside == ["manifests", Algorithm(digest), Encoded(digest)]
    ensures Split(a, '/') + inside <= Split(b, '/') + Inside(y)
  {
    hide Split;
    hide ParseDigest;
    hide ValidTag;
    hide Inside;
    assert ManifestDirectory(a, digest) == ["repositories"] + (Split(a, '/') + inside);
    assert Path(y) == ["repositories"] + (Split(b, '/') + Inside(y));
    assert ManifestDirectory(a, digest)[1..] == Split(a, '/') + inside && Path(y)[1..] == Split(b, '/') + Inside(y);
  }

  lemma {:induction false} BuryingForward(p: seq<string>, q: seq<string>, w: seq<string>, inside: seq<string>, iy: seq<string>)
    requires q == p + w && w != [] && |inside| == 3 && inside[0] == "manifests" && DigestParts(inside[1], inside[2])
    requires iy != [] && Reserved(iy[0]) && inside <= w + iy
    ensures Buried(p, q)
  {
    DigestPartsNotReserved(inside[1], inside[2]);
    hide Reserved;
    assert forall j :: 0 <= j < 3 ==> inside[j] == (w + iy)[j];
    assert (w + iy)[|w|] == iy[0];
    assert |w| >= 3;
    assert forall j :: 0 <= j < 3 ==> q[|p| + j] == inside[j];
  }

  lemma {:induction false} DigestPartsNotReserved(algorithm: string, encoded: string)
    requires DigestParts(algorithm, encoded)
    ensures !Reserved(algorithm) && !Reserved(encoded)
  {
    assert "blobs"[0] == 'b' && "tags"[0] == 't' && "manifests"[0] == 'm' && ".tag.lock"[0] == '.';
    assert "sha256"[0] == 's' && "sha512"[0] == 's';
  }

  /** A repository whose directory lies at or below the place of a blob link of another gets in its way. */
  lemma {:induction false} LinkOnTheWay(a: string, digest: string, b: string)
    requires ValidDigest(digest) && Path(BlobLink(a, digest)) <= Home(b)
    ensures !Apart(a, b)
  {
    hide Split;
    hide ParseDigest;
    var p, q, inside := Split(a, '/'), Split(b, '/'), ["blobs", Algorithm(digest), Encoded(digest)];
    PartsOfDigest(digest);
    assert Path(BlobLink(a, digest)) == ["repositories"] + (p + inside) && Home(b) == ["repositories"] + q;
    assert Path(BlobLink(a, digest))[1..] == p + inside && Home(b)[1..] == q;
    assert p + inside <= q;
    assert p == (p + inside)[..|p|];
    assert q[|p|..][..3] == inside;
    assert q[|p|..][0] == inside[0] && q[|p|..][1] == inside[1] && q[|p|..][2] == inside[2];
    hide Path;
    hide FileTag;
    hide DigestParts;
    hide Buried;
  }

  /** Such a name is accepted. */
  lemma {:induction false} BelowTheLink(repository: string, digest: string)
    requires Canonical(repository) && ValidDigest(digest)
    ensures
      var other := repository + "/" + "blobs" + "/" + Algorithm(digest) + "/" + Encoded(digest);
      Canonical(other) && Path(BlobLink(repository, digest)) <= Home(other)
  {
    hide Canonical;
    hide Split;
    hide Contains;
    NoDoubleDotIn("blobs");
    DigestComponentsPlain(digest);
    hide ParseDigest;
    hide PlainComponent;
    var one := repository + "/" + "blobs";
    var two := one + "/" + Algorithm(digest);
    PlainBlobs();
    ChildIsCanonical(repository, "blobs");
    ChildIsCanonical(one, Algorithm(digest));
    ChildIsCanonical(two, Encoded(digest));
    DigestPartsPlain(digest);
    ChildComponents(repository, "blobs");
    ChildComponents(one, Algorithm(digest));
    ChildComponents(two, Encoded(digest));
    assert Split(two + "/" + Encoded(digest), '/') ==
      Split(repository, '/') + ["blobs", Algorithm(digest), Encoded(digest)];
  }

  lemma {:induction false} PlainBlobs()
    ensures PlainComponent("blobs")
  {
    NoDoubleDotIn("blobs");
  }

  lemma {:induction false} DigestComponentsPlain(digest: string)
    requires ValidDigest(digest)
    ensures PlainComponent(Algorithm(digest)) && PlainComponent(Encoded(digest))
  {
    PartsOfDigest(digest);
    hide ParseDigest;
    hide PlainComponent;
    HexPlain(Encoded(digest));
    AlgorithmPlain(Algorithm(digest));
  }

  lemma {:induction false} HexPlain(s: string)
    requires s != "" && forall c :: c in s ==> HexChar(c)
    ensures PlainComponent(s)
  {
    assert !HexChar('.') && !HexChar('/') && s[0] in s;
    forall i | 0 <= i < |s| - 1 ensures s[i] != '.' {
      assert s[i] in s;
    }
    NoDoubleDotIn(s);
    hide Contains;
  }

  lemma {:induction false} AlgorithmPlain(algorithm: string)
    requires algorithm == "sha256" || algorithm == "sha512"
    ensures PlainComponent(algorithm)
  {
    NoDoubleDotIn(algorithm);
    hide Contains;
  }

  /**
   The lock file of a repository below "tags" of another is a file in the tag directory of that one: whatever was
   pushed, it has the accepted tag ".tag.lock" from then on, which holds no digest.
   */
  lemma {:induction false} LockFileIsTag(disk: Disk, repository: string)
    requires Canonical(repository)
    ensures Canonical(repository + "/tags") && ValidTag(".tag.lock") && !Apart(repository, repository + "/tags")
    ensures
      var locked := WriteFile(disk, Slot.Lock(repository + "/tags"), []);
      ReadFile(locked, Tag(repository, ".tag.lock")) == Some([])
  {
    hide Canonical;
    hide Split;
    hide Contains;
    hide Path;
    hide ValidTag;
    ReservedNamesAlias(repository);
    TagsBelow(repository);
    var p, q := Split(repository, '/'), Split(repository + "/tags", '/');
    assert q[|p|..] == ["tags"];
    hide Buried;
  }

  lemma {:induction false} TagsBelow(repository: string)
    ensures Split(repository + "/tags", '/') == Split(repository, '/') + ["tags"]
  {
    ChildComponents(repository, "tags");
    assert "/" + "tags" == "/tags";
    hide Split;
  }

  lemma DotsApart(s: string)
    requires !Contains(s, "..")
    ensures forall i :: 0 <= i < |s| - 1 ==> s[i] != '.' || s[i + 1] != '.'
  {
    forall i | 0 <= i < |s| - 1 ensures s[i] != '.' || s[i + 1] != '.' {
      assert !OccursAt(s, "..", i);
      assert s[i..i + 2] == [s[i], s[i + 1]];
    }
  }

  lemma NoDoubleDotBetween(a: string, b: string)
    requires !Contains(a, "..") && !Contains(b, "..")
    ensures !Contains(a + "/" + b, "..")
  {
    hide Contains;
    DotsApart(a);
    DotsApart(b);
    NoDoubleDotIn(a + "/" + b);
  }

  /** A name below an accepted name is accepted. */
  lemma ChildIsCanonical(repository: string, name: string)
    requires Canonical(repository) && PlainComponent(name)
    ensures Canonical(repository + "/" + name)
  {
    var child := repository + "/" + name;
    ChildComponents(repository, name);
    NoDoubleDotBetween(repository, name);
    DoubleDotIsFound(name);
    SlashesTrimmed(repository);
    assert name[|name| - 1] in name;
    assert child[0] == repository[0] && child[|child| - 1] == name[|name| - 1];
    assert TrimLeft(child) == child && TrimRight(child) == child;
    hide Split;
    hide Contains;
  }

  lemma SlashesTrimmed(repository: string)
    requires Canonical(repository)
    ensures repository != "" && repository[0] != '/'
  {
    var left := TrimLeft(repository);
    assert repository == TrimRight(left) && repository[0] == left[0];
  }

  /** For every accepted name there is an accepted name with which it shares a file: its own lock file is a tag of the first. */
  lemma ReservedNamesAlias(repository: string)
    requires Canonical(repository)
    ensures Canonical(repository + "/tags") && FileTag(".tag.lock")
    ensures Path(Tag(repository, ".tag.lock")) == Path(Slot.Lock(repository + "/tags"))
  {
    hide Canonical;
    hide ValidTag;
    hide ParseDigest;
    hide Split;
    hide Contains;
    LockNameIsTag();
    NoDoubleDotIn("tags");
    ChildIsCanonical(repository, "tags");
    TagsBelow(repository);
    assert repository + "/" + "tags" == repository + "/tags";
    assert Path(Slot.Lock(repository + "/tags")) == ["repositories"] + (Split(repository, '/') + ["tags"]) + [".tag.lock"];
    assert Path(Tag(repository, ".tag.lock")) == ["repositories"] + Split(repository, '/') + ["tags", ".tag.lock"];
  }

  lemma {:induction false} ChildComponents(repository: string, name: string)
    requires '/' !in name
    ensures Split(repository + "/" + name, '/') == Split(repository, '/') + [name]
    ensures repository + "/" + name == repository + ("/" + name)
  {
    assert repository + "/" + name == repository + ['/'] + name;
    SplitConcat(repository, '/', name);
    SplitPlain(name, '/');
  }

  lemma LockNameIsTag()
    ensures FileTag(".tag.lock")
  {
    NoDoubleDotIn(".tag.lock");
  }

  lemma NoDoubleDotIn(s: string)
    requires forall i :: 0 <= i < |s| - 1 ==> s[i] != '.' || s[i + 1] != '.'
    ensures !Contains(s, "..")
  {
    forall i: nat ensures !OccursAt(s, "..", i) {
      if i + 2 <= |s| {
        assert s[i..i + 2] == [s[i], s[i + 1]];
      }
    }
  }

  // ---------------------------------------------------------------- the walk of the migration

  /** The text of a path below the directory of the repositories. */
  function Relative(path: seq<string>): string
    requires path != []
  {
    Join(path[1..], '/')
  }

  /** A file called "content" below a directory called "manifests", the text of whose path that does not begin. */
  predicate Picked(path: seq<string>) {
    && |path| > 1 && path[0] == "repositories" && path[|path| - 1] == "content"
    && Index(Relative(path), "/manifests/") > 0
  }

  /** The repository the walk takes such a file to belong to: what stands before the first "/manifests/". */
  function PickedRepository(path: seq<string>): string
    requires Picked(path)
  {
    Relative(path)[..Index(Relative(path), "/manifests/")]
  }

  ghost predicate NoLaterManifests(repository: string) {
    forall k :: 1 <= k < |Split(repository, '/')| ==> Split(repository, '/')[k] != "manifests"
  }

  /** A file of the layout, of a repository without "manifests" past its first component. */
  ghost predicate Findable(slot: Slot) {
    if InRepository(slot) then
      KeptBy(slot, slot.repository) && Canonical(slot.repository) && NoLaterManifests(slot.repository)
    else slot.Blob? ==> ValidDigest(slot.digest)
  }

  lemma {:induction false} RelativeText(repository: string, inside: seq<string>)
    requires inside != []
    ensures Relative(Home(repository) + inside) == repository + "/" + Join(inside, '/')
  {
    var parts := Split(repository, '/');
    assert (Home(repository) + inside)[1..] == parts + inside;
    Routes.JoinParts(parts + inside, |parts|);
    assert (parts + inside)[..|parts|] == parts && (parts + inside)[|parts|..] == inside;
    JoinSplit(repository, '/');
  }

  lemma RelativeContent(slot: Slot)
    requires slot.Content? && ValidDigest(slot.digest)
    ensures
      var tail := Join([Algorithm(slot.digest), Encoded(slot.digest), "content"], '/');
      Relative(Path(slot)) == slot.repository + Routes.Marker("manifests") + tail
  {
    var rest := [Algorithm(slot.digest), Encoded(slot.digest), "content"];
    RelativeText(slot.repository, Inside(slot));
    assert Inside(slot) == ["manifests"] + rest && Inside(slot)[1..] == rest;
    hide ParseDigest;
    assert Join(Inside(slot), '/') == "manifests" + ['/'] + Join(rest, '/');
  }

  /**
   A file with the content of a manifest is always picked, for any accepted name, and taken to belong to the right
   repository if and only if that has no "manifests" past its first component.
   */
  lemma MigrationNamesExactly(slot: Slot)
    requires slot.Content? && ValidDigest(slot.digest) && Canonical(slot.repository)
    ensures Picked(Path(slot))
    ensures PickedRepository(Path(slot)) == slot.repository <==> NoLaterManifests(slot.repository)
  {
    hide ParseDigest;
    var repository, path := slot.repository, Path(slot);
    assert path[0] == "repositories" && path[|path| - 1] == "content";
    RelativeContent(slot);
    SlashesTrimmed(repository);
    hide Canonical;
    hide Path;
    var tail := Join([Algorithm(slot.digest), Encoded(slot.digest), "content"], '/');
    ManifestsMarker(repository, tail);
  }

  /** The first "/manifests/" in the path of a manifest. */
  lemma ManifestsMarker(repository: string, tail: string)
    requires repository != "" && repository[0] != '/'
    ensures
      var s := repository + Routes.Marker("manifests") + tail;
      0 < Index(s, "/manifests/") <= |s| && (s[..Index(s, "/manifests/")] == repository <==> NoLaterManifests(repository))
  {
    var s := repository + Routes.Marker("manifests") + tail;
    assert Routes.Marker("manifests") == "/manifests/";
    if NoLaterManifests(repository) {
      Routes.MarkerFound(repository, "manifests", tail);
    } else {
      var k :| 1 <= k < |Split(repository, '/')| && Split(repository, '/')[k] == "manifests";
      var i := Routes.ComponentInside(repository, k);
      hide Split;
      var prefix := repository + "/";
      assert prefix <= s && s[i..i + 11] == prefix[i..i + 11];
      assert OccursAt(s, "/manifests/", i);
      var first := Index(s, "/manifests/");
      assert s[first..first + 11][0] == s[first] && s[0] == repository[0];
    }
  }

  /** Nothing else of a repository is picked: only a tag can have the name of the file, and it lies elsewhere. */
  lemma OthersNotPicked(slot: Slot)
    requires Findable(slot) && InRepository(slot) && !slot.Content?
    ensures !Picked(Path(slot))
  {
    if !slot.Tag? {
      NotCalledContent(slot);
    }
    hide Canonical;
    hide Split;
    hide ParseDigest;
    hide ValidTag;
    var path := Path(slot);
    assert path[|path| - 1] == Inside(slot)[|Inside(slot)| - 1];
    if slot.Tag? && slot.tag == "content" {
      ContentTagText(slot.repository);
    }
    hide Inside;
  }

  lemma NotCalledContent(slot: Slot)
    requires InRepository(slot) && KeptBy(slot, slot.repository) && !slot.Content? && !slot.Tag?
    ensures Inside(slot)[|Inside(slot)| - 1] != "content"
  {
    if slot.BlobLink? {
      PartsOfDigest(slot.digest);
    }
    hide ParseDigest;
  }

  lemma JoinTwo(a: string, b: string)
    ensures Join([a, b], '/') == a + "/" + b
  {
    assert [a, b][1..] == [b];
  }

  lemma ContentTagText(repository: string)
    requires NoLaterManifests(repository)
    ensures Index(Relative(Home(repository) + ["tags", "content"]), "/manifests/") == -1
  {
    hide Split;
    hide Index;
    hide Relative;
    RelativeText(repository, ["tags", "content"]);
    JoinTwo("tags", "content");
    SplitPlain("content", '/');
    Routes.MarkerAbsent(repository, "tags", "content", "manifests");
    hide Home;
    hide Join;
    assert Relative(Home(repository) + ["tags", "content"]) == repository + Routes.Marker("tags") + "content";
    assert Routes.Marker("manifests") == "/manifests/";
  }

  /** What the migration picks is what the layout stores as the content of manifests, each for its repository. */
  lemma MigrationFinds(slot: Slot)
    requires Findable(slot)
    ensures Picked(Path(slot)) <==> slot.Content?
    ensures slot.Content? ==> PickedRepository(Path(slot)) == slot.repository
  {
    if slot.Content? {
      MigrationNamesExactly(slot);
    } else if InRepository(slot) {
      OthersNotPicked(slot);
    } else {
      assert "blobs"[0] == 'b' && "uploads"[0] == 'u' && "repositories"[0] == 'r';
      assert Path(slot)[0] == if slot.Blob? then "blobs" else "uploads";
    }
  }
}
