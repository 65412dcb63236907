/** The registry routes: how the paths the server prints are read back (internal/httpserver/server.go:980-1077, 1232-1234). */
module Routes {
  import opened Wrappers
  import opened Names

  datatype Verb = GET | HEAD | PUT | POST | PATCH | DELETE | OTHER

  datatype Action = Pull | Push | Delete | Admin

  /** What a path can ask for. */
  datatype Target =
    | Catalog
    | Blob(repository: string, reference: string)
    | UploadStart(repository: string)
    | Upload(repository: string, uploadID: string)
    | Manifest(repository: string, reference: string)
    | Tags(repository: string)
    | Referrers(repository: string, reference: string)

  datatype Route = Route(target: Target, action: Action)

  const BASE := "/v2/"

  function TrimBase(path: string): string {
    if BASE <= path then path[|BASE|..] else path
  }

  /** cutMarker: around the first occurrence, which must not be at the start. */
  function CutMarker(value: string, marker: string): Option<(string, string)> {
    var i := Index(value, marker);
    if i <= 0 then None else Some((value[..i], value[i + |marker|..]))
  }

  function ManifestAction(verb: Verb): Option<Action> {
    match verb
    case GET => Some(Pull)
    case HEAD => Some(Pull)
    case PUT => Some(Push)
    case DELETE => Some(Delete)
    case _ => None
  }

  /** The action a target needs under an HTTP method; None when the target does not answer it. */
  function ActionOf(target: Target, verb: Verb): Option<Action> {
    match target
    case Catalog => Some(Admin)
    case Tags(_) => Some(Pull)
    case Referrers(_, _) => if verb == GET then Some(Pull) else None
    case Manifest(_, _) => ManifestAction(verb)
    case Blob(_, _) =>
      if verb == DELETE then Some(Delete) else if verb == GET || verb == HEAD then Some(Pull) else None
    case UploadStart(_) => if verb == POST then Some(Push) else None
    case Upload(_, _) =>
      if verb == PATCH || verb == PUT || verb == GET || verb == DELETE then Some(Push) else None
  }

  function Routed(target: Target, verb: Verb): Option<Route> {
    match ActionOf(target, verb)
    case Some(action) => Some(Route(target, action))
    case None => None
  }

  function CutUploads(rest: string): Option<Target> {
    match CutMarker(rest, "/blobs/uploads/")
    case Some((repository, uploadID)) => Some(if uploadID == "" then UploadStart(repository) else Upload(repository, uploadID))
    case None => None
  }

  /** The first marker that fits decides. */
  function Recognised(rest: string): Option<Target> {
    var tags := Index(rest, "/tags/list");
    var referrers := CutMarker(rest, "/referrers/");
    var manifests := CutMarker(rest, "/manifests/");
    var blobs := CutMarker(rest, "/blobs/");
    if rest == "" then None
    else if rest == "_catalog" then Some(Catalog)
    else if tags > 0 then Some(Tags(rest[..tags]))
    else if referrers.Some? && referrers.value.1 != "" then Some(Referrers(referrers.value.0, referrers.value.1))
    else if manifests.Some? then
      if manifests.value.1 == "" then None else Some(Manifest(manifests.value.0, manifests.value.1))
    else if blobs.Some? && blobs.value.1 != "" && !("uploads/" <= blobs.value.1) then
      Some(Blob(blobs.value.0, blobs.value.1))
    else CutUploads(rest)
  }

  /** parseRegistryRoute */
  function Parse(verb: Verb, path: string): Option<Route> {
    match Recognised(TrimBase(path))
    case Some(target) => Routed(target, verb)
    case None => None
  }

  /** The part of a path after the base. */
  function Rest(target: Target): string {
    match target
    case Catalog => "_catalog"
    case Blob(repository, reference) => repository + "/blobs/" + reference
    case UploadStart(repository) => repository + "/blobs/uploads/"
    case Upload(repository, uploadID) => repository + "/blobs/uploads/" + uploadID
    case Manifest(repository, reference) => repository + "/manifests/" + reference
    case Tags(repository) => repository + "/tags/list"
    case Referrers(repository, reference) => repository + "/referrers/" + reference
  }

  /** The paths the server puts into Location and Link headers, and the ones its clients ask for. */
  function Print(target: Target): string {
    BASE + Rest(target)
  }

  // ---------------------------------------------------------------- markers and components

  /** Components that mean something to the parser anywhere but in front. */
  predicate Reserved(component: string) {
    component == "tags" || component == "referrers" || component == "manifests" || component == "blobs"
  }

  /** The place of a target's branch in the parser, after the one for tag lists. */
  function Branch(target: Target): nat {
    match target
    case Catalog => 0
    case Tags(_) => 0
    case Referrers(_, _) => 1
    case Manifest(_, _) => 2
    case _ => 3
  }

  /** The markers of the branches up to that one. */
  predicate Taken(component: string, branch: nat) {
    || (branch >= 1 && component == "referrers")
    || (branch >= 2 && component == "manifests")
    || (branch >= 3 && component == "blobs")
  }

  /** A later component at which an earlier branch of the parser, or the branch itself, fits too early. */
  predicate Misleads(parts: seq<string>, k: nat, branch: nat)
    requires k < |parts|
  {
    Taken(parts[k], branch) || (parts[k] == "tags" && k + 1 < |parts| && "list" <= parts[k + 1])
  }

  /** A repository none of whose later components misleads the parser. */
  ghost predicate Passes(repository: string, branch: nat) {
    && repository != ""
    && var parts := Split(repository, '/');
       forall k :: 1 <= k < |parts| ==> !Misleads(parts, k, branch)
  }

  lemma {:induction false} NotMisled(repository: string, branch: nat, k: nat)
    requires Passes(repository, branch)
    ensures 1 <= k < |Split(repository, '/')| ==> !Misleads(Split(repository, '/'), k, branch)
  {
  }

  lemma {:induction false} Avoids(repository: string, branch: nat, word: string)
    requires Passes(repository, branch) && Taken(word, branch)
    ensures forall k :: 1 <= k < |Split(repository, '/')| ==> Split(repository, '/')[k] != word
  {
    hide Split;
    forall k | 1 <= k < |Split(repository, '/')| ensures Split(repository, '/')[k] != word {
      NotMisled(repository, branch, k);
    }
  }

  lemma MarkerWord(word: string)
    requires Taken(word, 3)
    ensures '/' !in word && word != "tags" && !("list" <= word)
  {
    assert "list"[0] == 'l' && "tags"[0] == 't';
  }

  function Marker(word: string): string {
    "/" + word + "/"
  }

  /** A marker cuts the components of a text in two. */
  lemma {:induction false} SplitAtMarker(s: string, word: string, i: nat)
    requires OccursAt(s, Marker(word), i) && '/' !in word
    ensures Split(s, '/') == Split(s[..i], '/') + [word] + Split(s[i + |word| + 2..], '/')
  {
    var before, after := s[..i], s[i + |word| + 2..];
    assert s[i..i + |word| + 2] == Marker(word);
    assert s == before + ['/'] + (word + ['/'] + after);
    SplitConcat(before, '/', word + ['/'] + after);
    SplitConcat(word, '/', after);
    SplitPlain(word, '/');
  }

  /** A marker inside a text is a whole component of it, neither the first nor the last. */
  lemma MarkerIsComponent(s: string, word: string, i: nat) returns (k: nat)
    requires OccursAt(s, Marker(word), i) && '/' !in word
    ensures 1 <= k < |Split(s, '/')| - 1 && Split(s, '/')[k] == word
    ensures k == |Split(s[..i], '/')|
  {
    SplitAtMarker(s, word, i);
    k := |Split(s[..i], '/')|;
  }

  /** Every component but the first and the last is a marker. */
  lemma {:induction false} ComponentIsMarker(s: string, k: nat) returns (i: nat)
    requires 1 <= k < |Split(s, '/')| - 1
    ensures OccursAt(s, Marker(Split(s, '/')[k]), i) && i + |Split(s, '/')[k]| + 2 <= |s|
    ensures |Split(s[..i], '/')| == k
    decreases |s|
  {
    var parts := Split(s, '/');
    SplitPartsPlain(s, '/');
    JoinSplit(s, '/');
    var before, word, after := Join(parts[..k], '/'), parts[k], Join(parts[k + 1..], '/');
    JoinParts(parts, k);
    JoinParts(parts[k..], 1);
    assert parts[k..][..1] == [word] && parts[k..][1..] == parts[k + 1..];
    i := |before|;
    assert s == before + ['/'] + word + ['/'] + after;
    assert s[i..i + |Marker(word)|] == Marker(word);
    assert s[..i] == before;
    SplitJoin(parts[..k], '/');
  }

  lemma {:induction false} JoinParts(parts: seq<string>, k: nat)
    requires 0 < k < |parts|
    ensures Join(parts, '/') == Join(parts[..k], '/') + ['/'] + Join(parts[k..], '/')
  {
    if k == 1 {
      assert parts[..1] == [parts[0]];
    } else {
      JoinParts(parts[1..], k - 1);
      assert parts[1..][..k - 1] == parts[..k][1..];
      assert parts[1..][k - 1..] == parts[k..];
    }
  }

  /** The components of a repository followed by a marker and a tail. */
  lemma {:induction false} MarkedComponents(repository: string, word: string, tail: string)
    requires '/' !in word
    ensures Split(repository + Marker(word) + tail, '/') == Split(repository, '/') + [word] + Split(tail, '/')
  {
    assert repository + Marker(word) + tail == repository + ['/'] + (word + ['/'] + tail);
    SplitConcat(repository, '/', word + ['/'] + tail);
    SplitConcat(word, '/', tail);
    SplitPlain(word, '/');
  }

  /** A marker found before the one that was put is a later component of the repository. */
  lemma EarlierMarker(repository: string, word: string, tail: string, j: nat) returns (k: nat)
    requires '/' !in word && j < |repository|
    requires OccursAt(repository + Marker(word) + tail, Marker(word), j)
    ensures 1 <= k < |Split(repository, '/')| && Split(repository, '/')[k] == word
    ensures k == |Split((repository + Marker(word) + tail)[..j], '/')|
  {
    var s := repository + Marker(word) + tail;
    k := MarkerIsComponent(s, word, j);
    MarkedComponents(repository, word, tail);
    assert s[j..j + |Marker(word)|][0] == '/';
    var before, after := repository[..j], repository[j + 1..];
    assert s[..j] == before && repository == before + ['/'] + after;
    SplitConcat(before, '/', after);
  }

  /** A marker that is no later component of the repository is first found where it was put. */
  lemma {:induction false} MarkerFound(repository: string, word: string, tail: string)
    requires '/' !in word
    requires forall k :: 1 <= k < |Split(repository, '/')| ==> Split(repository, '/')[k] != word
    ensures Index(repository + Marker(word) + tail, Marker(word)) == |repository|
  {
    var s := repository + Marker(word) + tail;
    assert s[|repository|..|repository| + |Marker(word)|] == Marker(word);
    assert OccursAt(s, Marker(word), |repository|);
    var i := Index(s, Marker(word));
    if i < |repository| {
      var k := EarlierMarker(repository, word, tail, i);
    }
  }

  /** A marker is absent when no component of the repository or word of the tail is it. */
  lemma {:induction false} MarkerAbsent(repository: string, word: string, tail: string, other: string)
    requires '/' !in word && '/' !in other && word != other
    requires forall k :: 1 <= k < |Split(repository, '/')| ==> Split(repository, '/')[k] != other
    requires forall k :: 0 <= k < |Split(tail, '/')| - 1 ==> Split(tail, '/')[k] != other
    ensures Index(repository + Marker(word) + tail, Marker(other)) == -1
  {
    var s := repository + Marker(word) + tail;
    MarkedComponents(repository, word, tail);
    forall j: nat ensures !OccursAt(s, Marker(other), j) {
      if OccursAt(s, Marker(other), j) {
        var k := MarkerIsComponent(s, other, j);
      }
    }
  }

  lemma TagsListIsMarker(s: string, j: nat)
    requires OccursAt(s, "/tags/list", j)
    ensures OccursAt(s, Marker("tags"), j)
  {
    assert s[j..j + 10][..6] == Marker("tags");
    assert s[j..j + 6] == s[j..j + 10][..6];
  }

  lemma TagsListIsComponents(s: string, i: nat) returns (k: nat)
    requires OccursAt(s, "/tags/list", i)
    ensures 1 <= k < |Split(s, '/')| - 1 && Split(s, '/')[k] == "tags" && "list" <= Split(s, '/')[k + 1]
    ensures k == |Split(s[..i], '/')|
  {
    TagsListIsMarker(s, i);
    k := MarkerIsComponent(s, "tags", i);
    SplitAtMarker(s, "tags", i);
    var after := s[i + 6..];
    assert Split(s, '/')[k + 1] == Split(after, '/')[0];
    assert after[..4] == s[i..i + 10][6..] == "list";
    HeadComponent(after, "list");
  }

  lemma {:induction false} HeadComponent(s: string, word: string)
    requires '/' !in word
    ensures word <= s <==> word <= Split(s, '/')[0]
  {
    if s != "" && word != "" {
      HeadComponent(s[1..], word[1..]);
      assert word == [word[0]] + word[1..] && s == [s[0]] + s[1..];
      assert word <= s <==> word[0] == s[0] && word[1..] <= s[1..];
      if s[0] != '/' {
        var head := Split(s, '/')[0];
        assert head == [s[0]] + head[1..] && head[1..] == Split(s[1..], '/')[0];
        assert word <= head <==> word[0] == head[0] && word[1..] <= head[1..];
      } else {
        assert word[0] in word;
      }
    }
  }

  // ---------------------------------------------------------------- round trips

  /** No tag list is seen in a path of another kind. */
  lemma {:induction false} TagsListAbsent(repository: string, branch: nat, word: string, tail: string)
    requires Passes(repository, branch) && Taken(word, 3)
    requires forall k :: 0 <= k < |Split(tail, '/')| - 1 ==> !Reserved(Split(tail, '/')[k])
    ensures Index(repository + Marker(word) + tail, "/tags/list") == -1
  {
    var s := repository + Marker(word) + tail;
    var parts, rest := Split(repository, '/'), Split(tail, '/');
    MarkerWord(word);
    MarkedComponents(repository, word, tail);
    assert forall k :: |parts| < k < |parts| + 1 + |rest| ==> Split(s, '/')[k] == rest[k - |parts| - 1];
    if Index(s, "/tags/list") >= 0 {
      var k := TagsListIsComponents(s, Index(s, "/tags/list"));
      NotMisled(repository, branch, k);
      hide Split;
      hide Passes;
    }
  }

  /** Every word before the one the path was made with is absent, so the parser passes those branches. */
  lemma {:induction false} EarlierBranchesPass(repository: string, branch: nat, word: string, tail: string)
    requires Passes(repository, branch) && Taken(word, 3)
    requires forall k :: 0 <= k < |Split(tail, '/')| - 1 ==> !Reserved(Split(tail, '/')[k])
    ensures
      var s := repository + Marker(word) + tail;
      && s != "" && s != "_catalog" && Index(s, "/tags/list") == -1
      && (word != "referrers" && branch >= 1 ==> CutMarker(s, "/referrers/") == None)
      && (word != "manifests" && branch >= 2 ==> CutMarker(s, "/manifests/") == None)
  {
    var s := repository + Marker(word) + tail;
    assert s[|repository|] == '/' && '/' !in "_catalog";
    assert Marker("referrers") == "/referrers/" && Marker("manifests") == "/manifests/";
    MarkerWord(word);
    TagsListAbsent(repository, branch, word, tail);
    hide Split;
    if word != "referrers" && branch >= 1 {
      Avoids(repository, branch, "referrers");
      MarkerAbsent(repository, word, tail, "referrers");
    }
    if word != "manifests" && branch >= 2 {
      Avoids(repository, branch, "manifests");
      MarkerAbsent(repository, word, tail, "manifests");
    }
  }

  lemma {:induction false} PlainTail(tail: string)
    requires '/' !in tail
    ensures forall k :: 0 <= k < |Split(tail, '/')| - 1 ==> !Reserved(Split(tail, '/')[k])
  {
    SplitPlain(tail, '/');
  }

  lemma CutAt(repository: string, marker: string, tail: string)
    requires repository != "" && Index(repository + marker + tail, marker) == |repository|
    ensures CutMarker(repository + marker + tail, marker) == Some((repository, tail))
  {
    var s := repository + marker + tail;
    assert s[..|repository|] == repository && s[|repository| + |marker|..] == tail;
  }

  lemma ReferrersRecognised(repository: string, reference: string)
    requires Passes(repository, 1) && reference != "" && '/' !in reference
    ensures Recognised(Rest(Referrers(repository, reference))) == Some(Referrers(repository, reference))
  {
    assert Rest(Referrers(repository, reference)) == repository + Marker("referrers") + reference;
    PlainTail(reference);
    EarlierBranchesPass(repository, 1, "referrers", reference);
    Avoids(repository, 1, "referrers");
    MarkerFound(repository, "referrers", reference);
    CutAt(repository, Marker("referrers"), reference);
  }

  lemma ManifestRecognised(repository: string, reference: string)
    requires Passes(repository, 2) && reference != "" && '/' !in reference
    ensures Recognised(Rest(Manifest(repository, reference))) == Some(Manifest(repository, reference))
  {
    var s := Rest(Manifest(repository, reference));
    assert "/manifests/" == Marker("manifests");
    PlainTail(reference);
    EarlierBranchesPass(repository, 2, "manifests", reference);
    Avoids(repository, 2, "manifests");
    MarkerFound(repository, "manifests", reference);
    CutAt(repository, "/manifests/", reference);
    assert s == repository + "/manifests/" + reference;
    hide *;
    ManifestBranch(s, repository, reference);
  }

  lemma ManifestBranch(s: string, repository: string, reference: string)
    requires s != "" && s != "_catalog" && Index(s, "/tags/list") == -1 && CutMarker(s, "/referrers/") == None
    requires CutMarker(s, "/manifests/") == Some((repository, reference)) && reference != ""
    ensures Recognised(s) == Some(Manifest(repository, reference))
  {
    hide CutMarker;
  }

  lemma BlobRecognised(repository: string, reference: string)
    requires Passes(repository, 3) && reference != "" && '/' !in reference
    ensures Recognised(Rest(Blob(repository, reference))) == Some(Blob(repository, reference))
  {
    var s := Rest(Blob(repository, reference));
    assert "/blobs/" == Marker("blobs");
    PlainTail(reference);
    EarlierBranchesPass(repository, 3, "blobs", reference);
    Avoids(repository, 3, "blobs");
    MarkerFound(repository, "blobs", reference);
    CutAt(repository, "/blobs/", reference);
    assert s == repository + "/blobs/" + reference;
    assert "uploads/"[7] == '/';
    assert !("uploads/" <= reference);
    hide *;
    BlobBranch(s, repository, reference);
  }

  lemma BlobBranch(s: string, repository: string, reference: string)
    requires s != "" && s != "_catalog" && Index(s, "/tags/list") == -1
    requires CutMarker(s, "/referrers/") == None && CutMarker(s, "/manifests/") == None
    requires CutMarker(s, "/blobs/") == Some((repository, reference)) && reference != "" && !("uploads/" <= reference)
    ensures Recognised(s) == Some(Blob(repository, reference))
  {
    hide CutMarker;
  }

  lemma UploadBranch(s: string, repository: string, tail: string, uploadID: string)
    requires s != "" && s != "_catalog" && Index(s, "/tags/list") == -1
    requires CutMarker(s, "/referrers/") == None && CutMarker(s, "/manifests/") == None
    requires CutMarker(s, "/blobs/") == Some((repository, tail)) && "uploads/" <= tail
    requires CutMarker(s, "/blobs/uploads/") == Some((repository, uploadID))
    ensures Recognised(s) == Some(if uploadID == "" then UploadStart(repository) else Upload(repository, uploadID))
  {
    hide CutMarker;
  }

  lemma TagsRecognised(repository: string)
    requires Passes(repository, 0)
    ensures Recognised(Rest(Tags(repository))) == Some(Tags(repository))
  {
    var s := Rest(Tags(repository));
    TagsListFound(repository);
    assert s[|repository|] == '/' && '/' !in "_catalog";
    assert s[..|repository|] == repository;
    hide Index;
    hide CutMarker;
    hide CutUploads;
    hide Split;
  }

  lemma TagsListText(repository: string)
    ensures
      var s := Rest(Tags(repository));
      s == repository + Marker("tags") + "list" && OccursAt(s, "/tags/list", |repository|)
  {
    var s := Rest(Tags(repository));
    assert s == repository + Marker("tags") + "list";
    assert s[|repository|..|repository| + 10] == "/tags/list";
  }

  lemma TagsListFound(repository: string)
    requires Passes(repository, 0)
    ensures Index(Rest(Tags(repository)), "/tags/list") == |repository| > 0
  {
    var s := Rest(Tags(repository));
    TagsListText(repository);
    var i := Index(s, "/tags/list");
    hide Rest;
    if i < |repository| {
      TagsListIsMarker(s, i);
      var k := EarlierMarker(repository, "tags", "list", i);
      var other := TagsListIsComponents(s, i);
      MarkedComponents(repository, "tags", "list");
      NotMisled(repository, 0, k);
      hide Split;
    }
  }

  lemma UploadRecognised(repository: string, uploadID: string)
    requires Passes(repository, 3) && '/' !in uploadID
    ensures
      var target := if uploadID == "" then UploadStart(repository) else Upload(repository, uploadID);
      Recognised(Rest(target)) == Some(target)
  {
    var tail := "uploads/" + uploadID;
    var s := repository + "/blobs/" + tail;
    UploadTexts(repository, uploadID);
    UploadCuts(repository, uploadID);
    hide *;
    UploadBranch(s, repository, tail, uploadID);
  }

  lemma UploadTexts(repository: string, uploadID: string)
    ensures
      var s := repository + "/blobs/" + ("uploads/" + uploadID);
      && s == repository + "/blobs/uploads/" + uploadID
      && (if uploadID == "" then Rest(UploadStart(repository)) else Rest(Upload(repository, uploadID))) == s
      && "uploads/" <= "uploads/" + uploadID
  {
    assert repository + "/blobs/uploads/" + "" == repository + "/blobs/uploads/";
  }

  lemma UploadCuts(repository: string, uploadID: string)
    requires Passes(repository, 3) && '/' !in uploadID
    ensures
      var s := repository + "/blobs/" + ("uploads/" + uploadID);
      && s != "" && s != "_catalog" && Index(s, "/tags/list") == -1
      && CutMarker(s, "/referrers/") == None && CutMarker(s, "/manifests/") == None
      && CutMarker(s, "/blobs/") == Some((repository, "uploads/" + uploadID))
      && CutMarker(s, "/blobs/uploads/") == Some((repository, uploadID))
  {
    var tail := "uploads/" + uploadID;
    assert "/blobs/" == Marker("blobs");
    UploadTail(uploadID);
    UploadTexts(repository, uploadID);
    hide Rest;
    EarlierBranchesPass(repository, 3, "blobs", tail);
    Avoids(repository, 3, "blobs");
    MarkerFound(repository, "blobs", tail);
    hide Passes;
    hide Marker;
    CutAt(repository, "/blobs/", tail);
    UploadMarkerFound(repository, uploadID);
    CutAt(repository, "/blobs/uploads/", uploadID);
  }

  lemma {:induction false} UploadTail(uploadID: string)
    requires '/' !in uploadID
    ensures forall k :: 0 <= k < |Split("uploads/" + uploadID, '/')| - 1 ==> !Reserved(Split("uploads/" + uploadID, '/')[k])
  {
    assert "uploads/" + uploadID == "uploads" + ['/'] + uploadID;
    SplitConcat("uploads", '/', uploadID);
    SplitPlain("uploads", '/');
    SplitPlain(uploadID, '/');
  }

  lemma UploadMarkerFound(repository: string, uploadID: string)
    requires Index(repository + "/blobs/" + ("uploads/" + uploadID), "/blobs/") == |repository|
    ensures Index(repository + "/blobs/uploads/" + uploadID, "/blobs/uploads/") == |repository|
  {
    var s := repository + "/blobs/uploads/" + uploadID;
    assert s == repository + "/blobs/" + ("uploads/" + uploadID);
    assert s[|repository|..|repository| + 15] == "/blobs/uploads/";
    assert OccursAt(s, "/blobs/uploads/", |repository|);
    var i := Index(s, "/blobs/uploads/");
    UploadsMarkerBegins(s, i);
  }

  lemma UploadsMarkerBegins(s: string, i: nat)
    requires OccursAt(s, "/blobs/uploads/", i)
    ensures OccursAt(s, "/blobs/", i)
  {
    var marker := "/blobs/uploads/";
    assert marker[..7] == "/blobs/";
    assert s[i..i + 7] == s[i..i + 15][..7];
  }

  /** What the last part of a path can carry. */
  predicate Addressed(target: Target) {
    match target
    case Catalog => true
    case UploadStart(_) => true
    case Tags(_) => true
    case Upload(_, uploadID) => uploadID != "" && '/' !in uploadID
    case _ => target.reference != "" && '/' !in target.reference
  }

  /** A target whose parts the paths can carry. */
  ghost predicate Printable(target: Target) {
    Addressed(target) && (!target.Catalog? ==> Passes(target.repository, Branch(target)))
  }

  lemma RecognisedAsPrinted(target: Target)
    requires Printable(target)
    ensures Recognised(Rest(target)) == Some(target)
  {
    match target
    case Catalog =>
    case UploadStart(repository) => UploadRecognised(repository, "");
    case Tags(repository) => TagsRecognised(repository);
    case Blob(repository, reference) => BlobRecognised(repository, reference);
    case Upload(repository, uploadID) => UploadRecognised(repository, uploadID);
    case Manifest(repository, reference) => ManifestRecognised(repository, reference);
    case Referrers(repository, reference) => ReferrersRecognised(repository, reference);
  }

  /**
   The route round trip: what the server prints for a target reads back as that target, with the action of the
   request's method, and as no route at all under a method the target does not answer.
   */
  lemma RoundTrip(target: Target, verb: Verb)
    requires Printable(target)
    ensures Parse(verb, Print(target)) == Routed(target, verb)
    ensures
      var read := Parse(verb, Print(target));
      && (read.Some? ==> read.value.target == target)
      && (read == Some(Route(target, Pull)) <==>
            || target.Tags?
            || ((target.Manifest? || target.Blob?) && (verb == GET || verb == HEAD))
            || (target.Referrers? && verb == GET))
      && (read == Some(Route(target, Push)) <==>
            || (target.Manifest? && verb == PUT)
            || (target.UploadStart? && verb == POST)
            || (target.Upload? && (verb == PATCH || verb == PUT || verb == GET || verb == DELETE)))
      && (read == Some(Route(target, Delete)) <==> (target.Manifest? || target.Blob?) && verb == DELETE)
      && (read == Some(Route(target, Admin)) <==> target.Catalog?)
  {
    RecognisedAsPrinted(target);
    ReadAsRouted(target, verb);
    hide *;
    RoutedMeans(target, verb);
  }

  lemma ReadAsRouted(target: Target, verb: Verb)
    requires Recognised(Rest(target)) == Some(target)
    ensures Parse(verb, Print(target)) == Routed(target, verb)
  {
    hide Recognised;
    hide Rest;
    assert TrimBase(Print(target)) == Rest(target);
  }

  lemma RoutedMeans(target: Target, verb: Verb)
    ensures
      var read := Routed(target, verb);
      && (read.Some? ==> read.value.target == target)
      && (read == Some(Route(target, Pull)) <==>
            || target.Tags?
            || ((target.Manifest? || target.Blob?) && (verb == GET || verb == HEAD))
            || (target.Referrers? && verb == GET))
      && (read == Some(Route(target, Push)) <==>
            || (target.Manifest? && verb == PUT)
            || (target.UploadStart? && verb == POST)
            || (target.Upload? && (verb == PATCH || verb == PUT || verb == GET || verb == DELETE)))
      && (read == Some(Route(target, Delete)) <==> (target.Manifest? || target.Blob?) && verb == DELETE)
      && (read == Some(Route(target, Admin)) <==> target.Catalog?)
  {
  }

  /** The paths in words, for a repository that misleads no branch. */
  lemma PathsInWords(repository: string, reference: string)
    requires Passes(repository, 3) && reference != "" && '/' !in reference
    ensures Parse(GET, "/v2/_catalog") == Some(Route(Catalog, Admin))
    ensures Parse(GET, "/v2/" + (repository + "/tags/list")) == Some(Route(Tags(repository), Pull))
    ensures Parse(GET, "/v2/" + (repository + "/referrers/" + reference)) == Some(Route(Referrers(repository, reference), Pull))
    ensures Parse(PUT, "/v2/" + (repository + "/manifests/" + reference)) == Some(Route(Manifest(repository, reference), Push))
    ensures Parse(GET, "/v2/" + (repository + "/blobs/" + reference)) == Some(Route(Blob(repository, reference), Pull))
    ensures Parse(POST, "/v2/" + (repository + "/blobs/uploads/")) == Some(Route(UploadStart(repository), Push))
    ensures Parse(PATCH, "/v2/" + (repository + "/blobs/uploads/" + reference)) == Some(Route(Upload(repository, reference), Push))
  {
    CatalogInWords();
    PassesEarlier(repository, reference);
    hide *;
    RoundTrip(Tags(repository), GET);
    RoundTrip(Referrers(repository, reference), GET);
    RoundTrip(Manifest(repository, reference), PUT);
    RoundTrip(Blob(repository, reference), GET);
    RoundTrip(UploadStart(repository), POST);
    RoundTrip(Upload(repository, reference), PATCH);
    PrintedInWords(repository, reference);
  }

  lemma CatalogInWords()
    ensures Parse(GET, "/v2/_catalog") == Some(Route(Catalog, Admin))
  {
    assert "/v2/" + "_catalog" == "/v2/_catalog";
    RoundTrip(Catalog, GET);
  }

  lemma PrintedInWords(repository: string, reference: string)
    ensures Print(Tags(repository)) == "/v2/" + (repository + "/tags/list")
    ensures Print(Referrers(repository, reference)) == "/v2/" + (repository + "/referrers/" + reference)
    ensures Print(Manifest(repository, reference)) == "/v2/" + (repository + "/manifests/" + reference)
    ensures Print(Blob(repository, reference)) == "/v2/" + (repository + "/blobs/" + reference)
    ensures Print(UploadStart(repository)) == "/v2/" + (repository + "/blobs/uploads/")
    ensures Print(Upload(repository, reference)) == "/v2/" + (repository + "/blobs/uploads/" + reference)
  {
  }

  lemma PassesEarlier(repository: string, reference: string)
    requires Passes(repository, 3) && reference != "" && '/' !in reference
    ensures Printable(Tags(repository)) && Printable(Referrers(repository, reference)) && Printable(Manifest(repository, reference))
    ensures Printable(Blob(repository, reference)) && Printable(UploadStart(repository)) && Printable(Upload(repository, reference))
  {
    hide Split;
    var parts := Split(repository, '/');
    forall k, branch: nat | 1 <= k < |parts| && branch <= 3 ensures !Misleads(parts, k, branch) {
      assert !Misleads(parts, k, 3);
    }
  }

  /** A request that would change tags, manifests, blobs or uploads. */
  predicate Changes(target: Target, verb: Verb) {
    match target
    case Manifest(_, _) => verb == PUT || verb == DELETE
    case Blob(_, _) => verb == DELETE
    case UploadStart(_) => verb == POST
    case Upload(_, _) => verb == PATCH || verb == PUT || verb == DELETE
    case _ => false
  }

  /** Whatever the path, such a request is asked for another right than that to pull, and only the catalog for admin. */
  lemma ChangesNeedMore(verb: Verb, path: string)
    ensures
      match Parse(verb, path)
      case Some(route) =>
        && (Changes(route.target, verb) ==> route.action == Push || route.action == Delete)
        && (route.action == Admin <==> route.target.Catalog?)
      case None => true
  {
    hide Recognised;
  }

  /** So different targets never share a path. */
  lemma PathsAreDistinct(a: Target, b: Target)
    requires Printable(a) && Printable(b) && Print(a) == Print(b)
    ensures a == b
  {
    assert TrimBase(Print(a)) == Rest(a) && TrimBase(Print(b)) == Rest(b);
    RecognisedAsPrinted(a);
    RecognisedAsPrinted(b);
  }

  lemma CutMeans(value: string, marker: string)
    ensures
      match CutMarker(value, marker)
      case Some((before, after)) => before != "" && value == before + marker + after
      case None => true
  {
    var i := Index(value, marker);
    if i > 0 {
      assert value == value[..i] + value[i..i + |marker|] + value[i + |marker|..];
    }
  }

  /** Conversely, a path that is read as a target is the path printed for it; only a tag list ignores what follows. */
  lemma ReadIsPrinted(verb: Verb, path: string)
    requires BASE <= path && Parse(verb, path).Some?
    ensures
      var target := Parse(verb, path).value.target;
      if target.Tags? then Print(target) <= path else path == Print(target)
  {
    var rest := TrimBase(path);
    assert path == BASE + rest;
    RecognisedIsRest(rest);
    hide Recognised;
    hide Rest;
  }

  lemma RecognisedIsRest(rest: string)
    ensures
      match Recognised(rest)
      case Some(target) => if target.Tags? then Rest(target) <= rest else rest == Rest(target)
      case None => true
  {
    CutMeans(rest, "/referrers/");
    CutMeans(rest, "/manifests/");
    CutMeans(rest, "/blobs/");
    CutMeans(rest, "/blobs/uploads/");
    TagsListIsRest(rest);
    hide CutMarker;
    hide Index;
  }

  lemma TagsListIsRest(rest: string)
    ensures
      var i := Index(rest, "/tags/list");
      i > 0 ==> Rest(Tags(rest[..i])) <= rest
  {
    var i := Index(rest, "/tags/list");
    if i > 0 {
      assert rest == rest[..i] + rest[i..i + 10] + rest[i + 10..];
    }
  }

  // ---------------------------------------------------------------- which names the paths can have

  /** Where a component of the repository stands as a marker, followed by what. */
  lemma ComponentInside(repository: string, k: nat) returns (i: nat)
    requires 1 <= k < |Split(repository, '/')|
    ensures
      var word, s := Split(repository, '/')[k], repository + "/";
      && OccursAt(s, Marker(word), i) && i < |repository|
      && Split(s[i + |Marker(word)|..], '/') == Split(repository, '/')[k + 1..] + [""]
  {
    var parts, s := Split(repository, '/'), repository + "/";
    assert s == repository + ['/'] + "";
    SplitConcat(repository, '/', "");
    assert Split(s, '/') == parts + [""];
    i := ComponentIsMarker(s, k);
    SplitPartsPlain(repository, '/');
    SplitAtMarker(s, parts[k], i);
    var after := s[i + |parts[k]| + 2..];
    assert (parts + [""])[k + 1..] == parts[k + 1..] + [""];
    assert (Split(s[..i], '/') + [parts[k]] + Split(after, '/'))[k + 1..] == Split(after, '/');
  }

  lemma TagsListInside(repository: string, k: nat) returns (i: nat)
    requires 1 <= k < |Split(repository, '/')| - 1
    requires Split(repository, '/')[k] == "tags" && "list" <= Split(repository, '/')[k + 1]
    ensures OccursAt(repository + "/", "/tags/list", i) && i < |repository|
  {
    i := ComponentInside(repository, k);
    var s := repository + "/";
    var after := s[i + 6..];
    assert Split(after, '/')[0] == Split(repository, '/')[k + 1];
    HeadComponent(after, "list");
    hide Split;
    assert s[i..i + 10] == s[i..i + 6] + after[..4];
  }

  /** The marker first fits inside the repository, and there is more after it. */
  predicate FitsEarly(s: string, repository: string, marker: string) {
    0 < Index(s, marker) < |repository| && Index(s, marker) + |marker| < |s|
  }

  /** What occurs in the repository and the slash after it fits early in every path of the repository. */
  lemma OccursInPath(repository: string, s: string, marker: string, i: nat)
    requires repository != "" && repository[0] != '/' && marker != "" && marker[0] == '/'
    requires repository + "/" < s && OccursAt(repository + "/", marker, i) && i < |repository|
    ensures FitsEarly(s, repository, marker)
  {
    var prefix := repository + "/";
    assert s[i..i + |marker|] == prefix[i..i + |marker|];
    assert OccursAt(s, marker, i);
    var first := Index(s, marker);
    assert s[first..first + |marker|][0] == s[first] && s[0] == prefix[0];
  }

  lemma PathStartsWithRepository(target: Target)
    requires Addressed(target) && !target.Catalog?
    ensures target.repository + "/" < Rest(target)
  {
  }

  /** A misleading component makes the marker of some branch fit early. */
  lemma {:induction false} MisledBefore(target: Target, k: nat) returns (word: string)
    requires Addressed(target) && !target.Catalog? && target.repository != "" && target.repository[0] != '/'
    requires 1 <= k < |Split(target.repository, '/')| && Misleads(Split(target.repository, '/'), k, Branch(target))
    ensures
      || FitsEarly(Rest(target), target.repository, "/tags/list")
      || (Taken(word, Branch(target)) && FitsEarly(Rest(target), target.repository, Marker(word)))
  {
    hide Split;
    hide Rest;
    hide Index;
    var repository := target.repository;
    PathStartsWithRepository(target);
    word := Split(repository, '/')[k];
    if Taken(word, Branch(target)) {
      var i := ComponentInside(repository, k);
      OccursInPath(repository, Rest(target), Marker(word), i);
    } else {
      var i := TagsListInside(repository, k);
      OccursInPath(repository, Rest(target), "/tags/list", i);
    }
  }

  /** Then the parser takes a branch of another kind, or reads another repository. */
  lemma MisledBranch(target: Target, word: string)
    requires Addressed(target) && !target.Catalog?
    requires
      || FitsEarly(Rest(target), target.repository, "/tags/list")
      || (Taken(word, Branch(target)) && FitsEarly(Rest(target), target.repository, Marker(word)))
    ensures Recognised(Rest(target)) != Some(target)
  {
    var s := Rest(target);
    assert Marker("referrers") == "/referrers/" && Marker("manifests") == "/manifests/" && Marker("blobs") == "/blobs/";
    hide Recognised;
    hide FitsEarly;
    hide Rest;
    if FitsEarly(s, target.repository, "/tags/list") {
      EarlyTags(s, target);
    } else if word == "referrers" {
      EarlyReferrers(s, target);
    } else if word == "manifests" {
      EarlyManifests(s, target);
    } else {
      EarlyBlobs(s, target);
    }
  }

  lemma EarlyTags(s: string, target: Target)
    requires !target.Catalog? && FitsEarly(s, target.repository, "/tags/list")
    ensures Recognised(s) != Some(target)
  {
    hide Index;
    hide CutMarker;
    hide CutUploads;
    assert |s[..Index(s, "/tags/list")]| < |target.repository|;
  }

  lemma EarlyReferrers(s: string, target: Target)
    requires Branch(target) >= 1 && FitsEarly(s, target.repository, "/referrers/")
    ensures Recognised(s) != Some(target)
  {
    hide Index;
    hide CutUploads;
  }

  lemma EarlyManifests(s: string, target: Target)
    requires Branch(target) >= 2 && FitsEarly(s, target.repository, "/manifests/")
    ensures Recognised(s) != Some(target)
  {
    hide Index;
    hide CutUploads;
  }

  /** At an early "/blobs/" the parser reads a blob of another repository, or an upload of one. */
  lemma EarlyBlobs(s: string, target: Target)
    requires Branch(target) == 3 && FitsEarly(s, target.repository, "/blobs/")
    ensures Recognised(s) != Some(target)
  {
    UploadsStartAtBlobs(s);
    hide OccursAt;
    hide Index;
  }

  /** If an upload marker starts at the first "/blobs/", that is the first upload marker. */
  lemma UploadsStartAtBlobs(s: string)
    ensures
      var blobs := Index(s, "/blobs/");
      blobs >= 0 && "uploads/" <= s[blobs + 7..] ==> Index(s, "/blobs/uploads/") == blobs
  {
    var blobs := Index(s, "/blobs/");
    var uploads := Index(s, "/blobs/uploads/");
    if blobs >= 0 && "uploads/" <= s[blobs + 7..] {
      var tail := s[blobs + 7..];
      assert s[blobs..blobs + 15] == s[blobs..blobs + 7] + tail[..8];
      assert OccursAt(s, "/blobs/uploads/", blobs);
      UploadsMarkerBegins(s, uploads);
    }
  }

  /**
   Exactly which names work: what the server prints for a target is read back as that target if and only if no later
   component of the repository is "tags" before one that starts with "list", or the marker of the target's own branch
   of the parser or of an earlier one.
   */
  lemma NamesExactly(target: Target)
    requires Addressed(target) && !target.Catalog? && target.repository != "" && target.repository[0] != '/'
    ensures Recognised(Rest(target)) == Some(target) <==> Printable(target)
  {
    if Printable(target) {
      RecognisedAsPrinted(target);
    } else {
      var parts := Split(target.repository, '/');
      var k :| 1 <= k < |parts| && Misleads(parts, k, Branch(target));
      var word := MisledBefore(target, k);
      MisledBranch(target, word);
    }
  }
}
