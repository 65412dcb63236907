/**
 What the walk of the garbage collector takes for manifests, on the storage layout
 (internal/storage/filesystem.go:689-757): it stops at every directory called "manifests", does not look below it for
 another, and takes the directories two levels down for manifests of the repository around it.
 */
module Collector {
  import opened Wrappers
  import opened Names
  import opened Layout

  /** The first component from there on that is called "manifests", or the length of the path. */
  function FirstManifests(path: seq<string>, from: nat): (k: nat)
    requires from <= |path|
    ensures from <= k <= |path| && (k < |path| ==> path[k] == "manifests")
    ensures forall j :: from <= j < k ==> path[j] != "manifests"
    decreases |path| - from
  {
    if from == |path| || path[from] == "manifests" then from else FirstManifests(path, from + 1)
  }

  function StopsAt(path: seq<string>): nat
    requires path != []
  {
    FirstManifests(path, 1)
  }

  /** The directory above a file that the collector takes for a manifest, if there is one. */
  function Candidate(path: seq<string>): Option<seq<string>> {
    if path != [] && path[0] == "repositories" && StopsAt(path) + 3 < |path| then Some(path[..StopsAt(path) + 3]) else None
  }

  /** The repository and the digest it takes the directory to belong to. */
  function TakenFor(path: seq<string>): (string, string)
    requires Candidate(path).Some?
  {
    var k := StopsAt(path);
    (Join(path[1..k], '/'), path[k + 1] + ":" + path[k + 2])
  }

  /** A file in the tag directory of a repository. */
  predicate InTagDirectory(path: seq<string>, repository: string) {
    |path| == |Home(repository)| + 2 && Home(repository) + ["tags"] <= path
  }

  /** referencedManifestDigests: the texts of the tag files, without the white space around them. */
  function Referenced(disk: Disk, text: Bytes -> string, repository: string): set<string> {
    set path | path in disk && InTagDirectory(path, repository) :: text(disk[path])
  }

  /** A collection removes the directories that are old enough and whose digest no tag of their repository names. */
  predicate Removed(disk: Disk, text: Bytes -> string, aged: seq<string> -> bool, path: seq<string>) {
    && Candidate(path).Some?
    && TakenFor(path).1 !in Referenced(disk, text, TakenFor(path).0)
    && aged(Candidate(path).value)
  }

  function Collected(disk: Disk, text: Bytes -> string, aged: seq<string> -> bool): Disk {
    map p | p in disk && !Removed(disk, text, aged, p) :: disk[p]
  }

  /** The walk fails at a directory "manifests" with no repository around it: the empty name has no lock. */
  predicate Halts(path: seq<string>) {
    |path| > 2 && path[0] == "repositories" && path[1] == "manifests"
  }

  // ---------------------------------------------------------------- the files of one repository

  /** In a repository without such a component the walk stops at its own manifests. */
  lemma {:induction false} StopsInside(slot: Slot, repository: string)
    requires KeptBy(slot, repository) && NoManifests(Split(repository, '/'))
    ensures
      var n := |Home(repository)|;
      if slot.Content? || slot.MediaType? then StopsAt(Path(slot)) == n else StopsAt(Path(slot)) + 1 >= |Path(slot)|
  {
    hide ParseDigest;
    hide Split;
    hide ValidTag;
    var n, path := |Home(repository)|, Path(slot);
    OnlyManifestsNamed(slot, repository);
    assert forall j :: 1 <= j < n ==> path[j] == Split(repository, '/')[j - 1];
    assert forall j :: n <= j < |path| ==> path[j] == Inside(slot)[j - n];
    assert n < |path| && path[n] == Inside(slot)[0];
    var k := FirstManifests(path, 1);
    assert k < |path| ==> path[k] == "manifests";
    assert n <= k < |path| ==> path[k] == Inside(slot)[k - n];
    hide Inside;
    hide Path;
  }

  lemma {:induction false} OnlyManifestsNamed(slot: Slot, repository: string)
    requires KeptBy(slot, repository)
    ensures Inside(slot) != []
    ensures if slot.Content? || slot.MediaType? then Inside(slot)[0] == "manifests"
            else forall j :: 0 <= j < |Inside(slot)| - 1 ==> Inside(slot)[j] != "manifests"
    ensures slot.BlobLink? ==> Inside(slot)[2] != "manifests"
  {
    assert "blobs"[0] == 'b' && "tags"[0] == 't' && "manifests"[0] == 'm' && ".tag.lock"[0] == '.';
    assert "sha256"[0] == 's' && "sha512"[0] == 's';
    if slot.BlobLink? {
      PartsOfDigest(slot.digest);
      assert |Encoded(slot.digest)| >= 64;
      hide ParseDigest;
    }
  }

  /** What the collector makes of a file of such a repository: the manifest it belongs to, or nothing. */
  lemma {:induction false} TakesManifests(slot: Slot, repository: string)
    requires KeptBy(slot, repository) && NoManifests(Split(repository, '/'))
    ensures
      var path := Path(slot);
      if slot.Content? || slot.MediaType? then
        && Candidate(path) == Some(ManifestDirectory(repository, slot.digest))
        && TakenFor(path) == (repository, slot.digest)
      else Candidate(path) == None
  {
    StopsInside(slot, repository);
    if slot.Content? || slot.MediaType? {
      ManifestParts(slot, repository);
    }
    hide StopsAt;
    hide Path;
  }

  lemma {:induction false} ManifestParts(slot: Slot, repository: string)
    requires KeptBy(slot, repository) && (slot.Content? || slot.MediaType?)
    ensures
      var path, n := Path(slot), |Home(repository)|;
      && |path| == n + 4 && path[..n + 3] == ManifestDirectory(repository, slot.digest)
      && Join(path[1..n], '/') == repository && path[n + 1] + ":" + path[n + 2] == slot.digest
  {
    var path, n := Path(slot), |Home(repository)|;
    HomeComponents(repository, Inside(slot));
    JoinSplit(repository, '/');
    hide Split;
    assert path == Home(repository) + Inside(slot);
    assert path[n + 1] == Inside(slot)[1] && path[n + 2] == Inside(slot)[2];
    assert path[..n + 3] == Home(repository) + Inside(slot)[..3];
  }

  /** What is referenced is what the tags of the repository name. */
  lemma {:induction false} ReferencedMeans(disk: Disk, text: Bytes -> string, repository: string, digest: string)
    ensures digest in Referenced(disk, text, repository) <==>
            exists tag :: Path(Tag(repository, tag)) in disk && text(disk[Path(Tag(repository, tag))]) == digest
  {
    hide Split;
    hide Home;
    if path :| path in disk && InTagDirectory(path, repository) && text(disk[path]) == digest {
      var tag := path[|path| - 1];
      assert path == Home(repository) + ["tags", tag] == Path(Tag(repository, tag));
    }
    if tag :| Path(Tag(repository, tag)) in disk && text(disk[Path(Tag(repository, tag))]) == digest {
      var path := Path(Tag(repository, tag));
      assert path[..|Home(repository)| + 1] == Home(repository) + ["tags"];
      assert InTagDirectory(path, repository);
    }
  }

  /** No collection takes a tag of such a repository, so it does not matter which repository is collected first. */
  lemma {:induction false} TagsSurvive(disk: Disk, text: Bytes -> string, aged: seq<string> -> bool, repository: string)
    requires NoManifests(Split(repository, '/'))
    ensures Referenced(Collected(disk, text, aged), text, repository) == Referenced(disk, text, repository)
  {
    forall path | InTagDirectory(path, repository) ensures Candidate(path) == None {
      NotACandidate(path, repository);
    }
    hide InTagDirectory;
    hide Candidate;
    hide TakenFor;
    assert forall path :: path in disk && InTagDirectory(path, repository) ==> path in Collected(disk, text, aged);
  }

  lemma {:induction false} NotACandidate(path: seq<string>, repository: string)
    requires InTagDirectory(path, repository) && NoManifests(Split(repository, '/'))
    ensures Candidate(path) == None
  {
    var n := |Home(repository)|;
    assert path[..n + 1] == Home(repository) + ["tags"];
    assert forall j :: 1 <= j < n ==> path[j] == Split(repository, '/')[j - 1];
    assert path[n] == "tags" && "tags"[0] == 't' && "manifests"[0] == 'm';
    hide Split;
  }

  /**
   The collection on the disk is the collection of each repository: whatever else lies there, of the files of a
   repository without a component "manifests" exactly those of its manifests go that are old enough and that no tag
   of it names.
   */
  lemma {:induction false} CollectionIsPerRepository(disk: Disk, text: Bytes -> string, aged: seq<string> -> bool,
                                                     slot: Slot, repository: string)
    requires KeptBy(slot, repository) && NoManifests(Split(repository, '/'))
    ensures
      Get(Collected(disk, text, aged), Path(slot)) ==
        if (slot.Content? || slot.MediaType?) && slot.digest !in Referenced(disk, text, repository)
           && aged(ManifestDirectory(repository, slot.digest))
        then None else Get(disk, Path(slot))
  {
    TakesManifests(slot, repository);
    hide Path;
    hide Candidate;
    hide TakenFor;
    hide KeptBy;
    hide ManifestDirectory;
    hide Referenced;
  }

  // ---------------------------------------------------------------- repositories with "manifests" in their name

  /** A collection gets to its end only if no repository has a name that begins with "manifests". */
  lemma {:induction false} HaltsExactly(slot: Slot, repository: string)
    requires KeptBy(slot, repository)
    ensures Halts(Path(slot)) <==> Split(repository, '/')[0] == "manifests"
  {
    OnlyManifestsNamed(slot, repository);
    hide Split;
    hide ParseDigest;
    hide Inside;
    assert Path(slot)[1] == Split(repository, '/')[0];
  }

  /** With such a component further on, the directory taken for a manifest holds more than one. */
  lemma {:induction false} TakesMore(slot: Slot, repository: string)
    requires KeptBy(slot, repository) && slot.Content? && !NoManifests(Split(repository, '/'))
    ensures Candidate(Path(slot)).Some? && Candidate(Path(slot)).value < ManifestDirectory(repository, slot.digest)
  {
    ManifestParts(slot, repository);
    StopsBefore(slot, repository);
    hide Path;
    hide ManifestDirectory;
    hide StopsAt;
    hide NoManifests;
    hide KeptBy;
    hide Home;
    ShorterPrefix(Path(slot), StopsAt(Path(slot)) + 3, |Home(repository)| + 3);
  }

  lemma {:induction false} ShorterPrefix(path: seq<string>, k: nat, n: nat)
    requires k < n <= |path|
    ensures path[..k] < path[..n]
  {
  }

  lemma {:induction false} StopsBefore(slot: Slot, repository: string)
    requires KeptBy(slot, repository) && slot.Content? && !NoManifests(Split(repository, '/'))
    ensures StopsAt(Path(slot)) < |Home(repository)| && Path(slot)[0] == "repositories"
  {
    hide ParseDigest;
    hide Split;
    hide Inside;
    var path := Path(slot);
    var j :| 0 <= j < |Split(repository, '/')| && Split(repository, '/')[j] == "manifests";
    assert path[j + 1] == Split(repository, '/')[j];
    hide Path;
    assert FirstManifests(path, 1) <= j + 1;
  }

  /**
   Exactly which repositories are collected as they should be: the collector takes every file of a manifest for that
   manifest of that repository, and no other file for one, if and only if no component of the name is "manifests".
   */
  lemma {:induction false} CollectsManifestsExactly(repository: string)
    ensures
      (forall slot: Slot :: KeptBy(slot, repository) ==>
         Candidate(Path(slot)) ==
           if slot.Content? || slot.MediaType? then Some(ManifestDirectory(repository, slot.digest)) else None)
      <==> NoManifests(Split(repository, '/'))
  {
    if NoManifests(Split(repository, '/')) {
      forall slot: Slot | KeptBy(slot, repository)
        ensures Candidate(Path(slot)) ==
          if slot.Content? || slot.MediaType? then Some(ManifestDirectory(repository, slot.digest)) else None
      {
        TakesManifests(slot, repository);
      }
    } else {
      var slot := Content(repository, SomeDigest());
      TakesMore(slot, repository);
      hide Path;
      hide ManifestDirectory;
      hide Candidate;
      hide ParseDigest;
      assert KeptBy(slot, repository);
    }
  }

  function SomeDigest(): (digest: string)
    ensures ValidDigest(digest)
  {
    var encoded := seq(64, _ => 'a');
    DigestOfParts("sha256", encoded);
    "sha256" + ":" + encoded
  }

  /**
   What that costs: of a repository below a directory "manifests" of another, the tags go with the first collection
   that finds their directory old, since what it takes for their digest is none.
   */
  lemma {:induction false} TagsAreCollected(disk: Disk, text: Bytes -> string, aged: seq<string> -> bool,
                                            outer: string, name: string, tag: string)
    requires Canonical(outer) && NoManifests(Split(outer, '/')) && PlainComponent(name) && FileTag(tag)
    requires forall d :: d in Referenced(disk, text, outer) ==> ValidDigest(d)
    ensures
      var repository := outer + "/" + "manifests" + "/" + name;
      && Canonical(repository)
      && (aged(Home(repository) + ["tags"]) ==> Path(Tag(repository, tag)) !in Collected(disk, text, aged))
  {
    hide Canonical;
    hide PlainComponent;
    hide FileTag;
    NestedNames(outer, name);
    var repository := outer + "/" + "manifests" + "/" + name;
    JoinSplit(outer, '/');
    TakesTheTags(repository, Split(outer, '/'), name, tag);
    NoDigest(name + ":tags");
    hide *;
  }

  lemma {:induction false} NestedNames(outer: string, name: string)
    requires Canonical(outer) && PlainComponent(name)
    ensures
      var repository := outer + "/" + "manifests" + "/" + name;
      Canonical(repository) && Split(repository, '/') == Split(outer, '/') + ["manifests", name]
  {
    hide Canonical;
    hide Split;
    hide Contains;
    NoDoubleDotIn("manifests");
    ChildIsCanonical(outer, "manifests");
    ChildIsCanonical(outer + "/" + "manifests", name);
    ChildComponents(outer, "manifests");
    ChildComponents(outer + "/" + "manifests", name);
  }

  lemma {:induction false} TakesTheTags(repository: string, parts: seq<string>, name: string, tag: string)
    requires Split(repository, '/') == parts + ["manifests", name] && NoManifests(parts) && parts != []
    ensures
      var path := Path(Tag(repository, tag));
      && Candidate(path) == Some(Home(repository) + ["tags"])
      && TakenFor(path) == (Join(parts, '/'), name + ":tags")
  {
    hide Split;
    hide Join;
    var path := Path(Tag(repository, tag));
    assert path == ["repositories"] + parts + ["manifests", name, "tags", tag];
    hide Path;
    var k := StopsAt(path);
    assert forall j :: 1 <= j < |parts| + 1 ==> path[j] == parts[j - 1];
    assert path[|parts| + 1] == "manifests";
    assert k == |parts| + 1;
    assert path[..k + 3] == Home(repository) + ["tags"];
    assert path[1..k] == parts && path[k + 1] == name && path[k + 2] == "tags";
    assert TakenFor(path).0 == Join(parts, '/');
    assert name + ":" + "tags" == name + ":tags";
  }

  lemma {:induction false} NoDigest(text: string)
    requires text != "" && text[|text| - 1] == 's'
    ensures !ValidDigest(text)
  {
    if ValidDigest(text) {
      EndsInHex(text);
    }
  }

  lemma {:induction false} EndsInHex(digest: string)
    requires ValidDigest(digest)
    ensures digest != "" && HexChar(digest[|digest| - 1])
  {
    PartsOfDigest(digest);
    var encoded := Encoded(digest);
    assert digest[|digest| - 1] == encoded[|encoded| - 1] && encoded[|encoded| - 1] in encoded;
  }
}
