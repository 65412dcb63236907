/**
 The tag and manifest protocol of one repository, one atomic file or database operation at a time:
 pushes and added tags, rollback, deletion, garbage collection and policy updates run under the
 repository lock; pulls and the delete of a repository row do not take it.
 (internal/httpserver/server.go:663-824, internal/storage/filesystem.go:155-330, 689-849,
 internal/db/store.go:286-560)
 */
module TagMachine {
  import opened Wrappers
  import opened Names
  import opened ReadModel

  /** What the protocol only calls: hashing, manifest parsing, trimming of white space and regular expressions. */
  datatype Env = Env(
    algorithm: Bytes -> string,
    sum: (string, Bytes) -> string,
    estimate: Bytes -> nat,
    trim: string -> string,
    compiles: string -> bool,
    matches: (string, string) -> bool)

  function DigestOf(env: Env, algorithm: string, content: Bytes): string {
    algorithm + ":" + env.sum(algorithm, content)
  }

  /** verifyDigest: the digest parses and is the hash of the content under its own algorithm. */
  predicate Hashes(env: Env, digest: string, content: Bytes) {
    var parsed := ParseDigest(digest);
    parsed.Some? && DigestOf(env, parsed.value.0, content) == digest
  }

  /** The hash function yields well-formed digests under the algorithm picked for a manifest. */
  ghost predicate Sound(env: Env) {
    forall content: Bytes :: Hashes(env, DigestOf(env, env.algorithm(content), content), content)
  }

  // ---------------------------------------------------------------- files of one repository

  /** A manifest directory: either file may be missing, and the time is the directory's. */
  datatype Stored = Stored(content: Option<Bytes>, mediaType: Option<string>, modified: int)

  datatype Files = Files(tags: map<string, string>, manifests: map<string, Stored>)

  const NO_FILES := Files(map[], map[])

  predicate Complete(files: Files, digest: string) {
    digest in files.manifests && files.manifests[digest].content.Some? && files.manifests[digest].mediaType.Some?
  }

  /** Writing a file into a manifest directory moves the directory's time only when the file is new. */
  function ContentWritten(files: Files, digest: string, content: Bytes, now: int): Files {
    var prior := if digest in files.manifests then files.manifests[digest] else Stored(None, None, now);
    var time := if prior.content.None? then now else prior.modified;
    files.(manifests := files.manifests[digest := Stored(Some(content), prior.mediaType, time)])
  }

  function MediaWritten(files: Files, digest: string, mediaType: string, now: int): Files {
    var prior := if digest in files.manifests then files.manifests[digest] else Stored(None, None, now);
    var time := if prior.mediaType.None? then now else prior.modified;
    files.(manifests := files.manifests[digest := Stored(prior.content, Some(mediaType), time)])
  }

  /** What a failed write of the content leaves: the directory, and perhaps a first part of the file. */
  function ContentTorn(files: Files, digest: string, left: Option<Bytes>, now: int): Files {
    match left
    case Some(part) => ContentWritten(files, digest, part, now)
    case None => if digest in files.manifests then files
                 else files.(manifests := files.manifests[digest := Stored(None, None, now)])
  }

  function MediaTorn(files: Files, digest: string, left: Option<string>, now: int): Files {
    match left
    case Some(part) => MediaWritten(files, digest, part, now)
    case None => files
  }

  function TagLinked(files: Files, tag: string, digest: string): Files {
    files.(tags := files.tags[tag := digest])
  }

  function TagRemoved(files: Files, tag: string): Files {
    files.(tags := files.tags - {tag})
  }

  function ManifestRemoved(files: Files, digest: string): Files {
    files.(manifests := files.manifests - {digest})
  }

  /** A removal that failed part-way: some of the directory's files may be gone. */
  function ManifestTorn(files: Files, digest: string, content: bool, mediaType: bool): Files
    requires digest in files.manifests
  {
    var prior := files.manifests[digest];
    files.(manifests := files.manifests[digest := prior.(
      content := if content then prior.content else None,
      mediaType := if mediaType then prior.mediaType else None)])
  }

  function Named(files: Files, digest: string): set<string> {
    set t | t in files.tags && files.tags[t] == digest
  }

  // ---------------------------------------------------------------- the lock holder

  predicate Protects(env: Env, policy: Policy, tag: string) {
    match policy.mode
    case Immutable => true
    case Pattern => env.compiles(policy.pattern) && env.matches(policy.pattern, tag)
    case Mutable => false
  }

  /** manifestTagState */
  datatype Saved = Saved(tag: string, before: Option<string>)

  /** Undoing one link: the tag names again what it named before, or nothing. */
  function TagRestored(files: Files, saved: Saved): Files {
    match saved.before
    case Some(digest) => TagLinked(files, saved.tag, digest)
    case None => TagRemoved(files, saved.tag)
  }

  /** `base` is a history variable: the tag files when linking began. */
  datatype Link = Link(
    digest: string, mediaType: string, size: nat, tags: seq<string>, now: int,
    policy: Policy, saved: seq<Saved>, base: map<string, string>)

  datatype Job =
    | Storing(digest: string, mediaType: string, content: Bytes, tags: seq<string>, now: int, written: bool)
    | Starting(digest: string, mediaType: string, size: nat, tags: seq<string>, now: int)
    | Checking(link: Link)
    | Linking(link: Link, next: nat)
    | Undoing(link: Link, left: nat, linked: nat)
    | Removing(digest: string)
    | Untagging(reference: string, digest: string, pending: set<string>)
    | Unrecording(reference: string, digest: string)
    | Collecting(cutoff: int, referenced: set<string>)
    | SettingPolicy(policy: Policy)

  /**
   What went wrong in the past: a rollback write failed; a removal failed and left a tag without its manifest; the
   database write of a delete failed; a failed write left content that does not hash to its digest; a policy was
   stored for a repository whose row was gone; an unlocked delete took tag rows with it.
   */
  datatype Faults = Faults(undo: bool, removal: bool, recording: bool, torn: bool, orphan: bool, dropped: bool)

  const NO_FAULTS := Faults(false, false, false, false, false, false)

  datatype Local = Local(name: string, files: Files, rows: Rows, job: Option<Job>, faults: Faults)

  datatype Event =
    | BeginPush(reference: string, mediaType: string, content: Bytes, tags: seq<string>, now: int)
    | WriteContent
    | WriteContentFails(part: Option<Bytes>)
    | WriteMedia
    | WriteMediaFails(text: Option<string>)
    | BeginAddTag(tag: string, digest: string, now: int)
    | ReadPolicy
    | Check
    | LinkNext
    | LinkFails
    | Commit
    | CommitFails
    | UndoNext
    | UndoFails
    | BeginDelete(reference: string)
    | RemoveManifest
    | RemoveManifestFails(keepContent: bool, keepMedia: bool)
    | Untag(tag: string)
    | UntagFails
    | Unrecord
    | UnrecordFails
    | BeginCollect(cutoff: int)
    | Collect(digest: string)
    | CollectFails(digest: string, keepContent: bool, keepMedia: bool)
    | BeginPolicy(policy: Policy)
    | StorePolicy
    | Abandon
    | PullManifest(reference: string, now: int)
    | DropRepository

  /**
   The events that do not hold the repository lock. The user interface drops a repository once it has listed no tags
   of it, but it does not look again: by then there may be any.
   */
  predicate Unlocked(e: Event) {
    e.PullManifest? || e.DropRepository?
  }

  /** The events in which a call fails, or a request gives up. */
  predicate Failing(e: Event) {
    || e.WriteContentFails? || e.WriteMediaFails? || e.LinkFails? || e.CommitFails? || e.UndoFails?
    || e.RemoveManifestFails? || e.UntagFails? || e.UnrecordFails? || e.CollectFails? || e.Abandon?
  }

  predicate NoneFails(es: seq<Event>) {
    forall e :: e in es ==> !Failing(e)
  }

  /** No step of a garbage collection is among them. */
  predicate Uncollected(es: seq<Event>) {
    forall e :: e in es ==> !e.BeginCollect?
  }

  /** The delete of a repository row that takes tag rows with it. */
  predicate Erases(l: Local, e: Event) {
    e.DropRepository? && l.rows.repository.Some? && l.rows.tags != map[]
  }

  /**
   Whether the file of a tag can be reached while these tags are there. "." passes sanitizeReference and names the
   tag directory itself: its file can only stand where the directory would, and then no other tag has a file.
   */
  predicate Reaches(tags: set<string>, tag: string) {
    if tag == "." then tags <= {"."} else "." !in tags
  }

  function PushDigest(env: Env, reference: string, content: Bytes): string {
    if DigestReference(reference) then reference else DigestOf(env, env.algorithm(content), content)
  }

  predicate ValidPolicy(env: Env, policy: Policy) {
    policy.mode == Pattern ==> policy.pattern != "" && env.compiles(policy.pattern)
  }

  /** One tag passes the overwrite check. */
  predicate Permitted(env: Env, link: Link, saved: Saved) {
    saved.before.Some? && saved.before.value != link.digest ==> !Protects(env, link.policy, saved.tag)
  }

  predicate CanCheck(env: Env, files: Files, link: Link) {
    && |link.saved| < |link.tags|
    && var tag := link.tags[|link.saved|];
       && ValidTag(tag) && Reaches(files.tags.Keys, tag)
       && Permitted(env, link, Saved(tag, Get(files.tags, tag)))
  }

  predicate StoringEvent(e: Event) {
    || e.BeginPush? || e.WriteContent? || e.WriteContentFails? || e.WriteMedia? || e.WriteMediaFails?
    || e.BeginAddTag? || e.ReadPolicy?
  }

  predicate LinkingEvent(e: Event) {
    e.Check? || e.LinkNext? || e.LinkFails? || e.Commit? || e.CommitFails? || e.UndoNext? || e.UndoFails?
  }

  predicate DeletingEvent(e: Event) {
    || e.BeginDelete? || e.RemoveManifest? || e.RemoveManifestFails? || e.Untag? || e.UntagFails?
    || e.Unrecord? || e.UnrecordFails?
  }

  predicate CollectingEvent(e: Event) {
    e.BeginCollect? || e.Collect? || e.CollectFails?
  }

  predicate Collectable(files: Files, job: Job, digest: string)
    requires job.Collecting?
  {
    && digest in files.manifests
    && digest !in job.referenced
    && files.manifests[digest].modified <= job.cutoff
  }

  function Rolling(link: Link, left: nat, linked: nat): Option<Job> {
    if left == 0 then None else Some(Undoing(link, left, linked))
  }

  function Dropping(reference: string, digest: string, pending: set<string>): Option<Job> {
    if pending == {} then Some(Unrecording(reference, digest)) else Some(Untagging(reference, digest, pending))
  }

  function LinkParams(name: string, link: Link): (params: seq<TagParams>)
    ensures |params| == |link.tags|
    ensures forall p :: p in params ==> p.size >= 0
  {
    seq(|link.tags|, i requires 0 <= i < |link.tags| =>
      TagParams(name, link.tags[i], link.digest, link.mediaType, link.size))
  }

  predicate StoringEnabled(env: Env, l: Local, e: Event)
    requires StoringEvent(e)
  {
    match e
    case BeginPush(reference, mediaType, content, tags, now) =>
      l.job.None? && if DigestReference(reference) then Hashes(env, reference, content) else ValidTag(reference)
    case BeginAddTag(tag, digest, now) =>
      l.job.None? && ValidTag(tag) && ValidDigest(digest) && Complete(l.files, digest)
    case WriteContent => l.job.Some? && l.job.value.Storing? && !l.job.value.written
    case WriteContentFails(part) =>
      && l.job.Some? && l.job.value.Storing? && !l.job.value.written
      && (part.Some? ==> part.value <= l.job.value.content)
    case WriteMedia => l.job.Some? && l.job.value.Storing? && l.job.value.written
    case WriteMediaFails(text) =>
      && l.job.Some? && l.job.value.Storing? && l.job.value.written
      && (text.Some? ==> text.value <= l.job.value.mediaType)
    case ReadPolicy =>
      && l.job.Some? && l.job.value.Starting?
      && (PolicyInForce(l.rows).mode == Pattern ==> env.compiles(PolicyInForce(l.rows).pattern))
  }

  function StoringApply(env: Env, l: Local, e: Event): Local
    requires StoringEvent(e) && StoringEnabled(env, l, e)
  {
    match e
    case BeginPush(reference, mediaType, content, tags, now) =>
      l.(job := Some(Storing(PushDigest(env, reference, content), mediaType, content, tags, now, false)))
    case BeginAddTag(tag, digest, now) =>
      var stored := l.files.manifests[digest];
      l.(job := Some(Starting(digest, env.trim(stored.mediaType.value), env.estimate(stored.content.value), [tag], now)))
    case WriteContent =>
      var job := l.job.value;
      l.(files := ContentWritten(l.files, job.digest, job.content, job.now), job := Some(job.(written := true)))
    case WriteContentFails(part) =>
      var job := l.job.value;
      l.(files := ContentTorn(l.files, job.digest, part, job.now), job := None,
         faults := l.faults.(torn := l.faults.torn || (part.Some? && !Hashes(env, job.digest, part.value))))
    case WriteMediaFails(text) =>
      var job := l.job.value;
      l.(files := MediaTorn(l.files, job.digest, text, job.now), job := None)
    case WriteMedia =>
      var job := l.job.value;
      l.(files := MediaWritten(l.files, job.digest, job.mediaType, job.now),
         job := if job.tags == [] then None
                else Some(Starting(job.digest, job.mediaType, env.estimate(job.content), job.tags, job.now)))
    case ReadPolicy =>
      var job := l.job.value;
      l.(job := Some(Checking(Link(job.digest, job.mediaType, job.size, job.tags, job.now,
                                   PolicyInForce(l.rows), [], l.files.tags))))
  }

  predicate LinkingEnabled(env: Env, l: Local, e: Event)
    requires LinkingEvent(e)
  {
    && l.job.Some?
    && var job := l.job.value;
       if e.Check? then job.Checking? && CanCheck(env, l.files, job.link)
       else if e.LinkNext? then
         && job.Linking? && job.next < |job.link.tags| && job.link.digest in l.files.manifests
         && Reaches(l.files.tags.Keys, job.link.tags[job.next])
       else if e.LinkFails? then job.Linking? && job.next < |job.link.tags|
       else if e.Commit? || e.CommitFails? then job.Linking? && job.next == |job.link.tags|
       else
         && job.Undoing? && 0 < job.left <= |job.link.saved|
         && var saved := job.link.saved[job.left - 1];
            e.UndoNext? ==>
              && Reaches(l.files.tags.Keys, saved.tag)
              && (saved.before.Some? ==> saved.before.value in l.files.manifests)
  }

  ghost function LinkingApply(env: Env, l: Local, e: Event): Local
    requires LinkingEvent(e) && LinkingEnabled(env, l, e)
  {
    var job := l.job.value;
    match e
    case Check =>
      var link := job.link;
      var tag := link.tags[|link.saved|];
      var more := link.(saved := link.saved + [Saved(tag, Get(l.files.tags, tag))]);
      l.(job := Some(if |more.saved| == |more.tags| then Linking(more, 0) else Checking(more)))
    case LinkNext =>
      l.(files := TagLinked(l.files, job.link.tags[job.next], job.link.digest), job := Some(job.(next := job.next + 1)))
    case LinkFails => l.(job := Rolling(job.link, job.next, job.next))
    case Commit => l.(rows := Upserted(l.rows, LinkParams(l.name, job.link), job.link.now), job := None)
    case CommitFails => l.(job := Rolling(job.link, job.next, job.next))
    case UndoNext =>
      l.(files := TagRestored(l.files, job.link.saved[job.left - 1]), job := Rolling(job.link, job.left - 1, job.linked))
    case UndoFails => l.(job := Rolling(job.link, job.left - 1, job.linked), faults := l.faults.(undo := true))
  }

  predicate DeletingEnabled(l: Local, e: Event)
    requires DeletingEvent(e)
  {
    if e.BeginDelete? then
      && l.job.None?
      && if DigestReference(e.reference) then ValidDigest(e.reference) && e.reference in l.files.manifests
         else ValidTag(e.reference) && e.reference in l.files.tags
    else
      && l.job.Some?
      && var job := l.job.value;
         if e.RemoveManifest? then job.Removing?
         else if e.RemoveManifestFails? then job.Removing? && job.digest in l.files.manifests
         else if e.Untag? then
           job.Untagging? && e.tag in job.pending && (DigestReference(job.reference) ==> "." !in l.files.tags)
         else if e.UntagFails? then job.Untagging?
         else job.Unrecording? && (e.Unrecord? && DigestReference(job.reference) ==> "." !in l.files.tags)
  }

  ghost function DeletingApply(l: Local, e: Event): Local
    requires DeletingEvent(e) && DeletingEnabled(l, e)
  {
    match e
    case BeginDelete(reference) =>
      l.(job := Some(if DigestReference(reference) then Removing(reference)
                     else Untagging(reference, l.files.tags[reference], {reference})))
    case RemoveManifest =>
      var digest := l.job.value.digest;
      l.(files := ManifestRemoved(l.files, digest), job := Dropping(digest, digest, Named(l.files, digest)))
    case RemoveManifestFails(content, media) =>
      l.(files := ManifestTorn(l.files, l.job.value.digest, content, media), job := None,
         faults := l.faults.(removal :=
           l.faults.removal || ((!content || !media) && Named(l.files, l.job.value.digest) != {})))
    case Untag(tag) =>
      var job := l.job.value;
      l.(files := TagRemoved(l.files, tag), job := Dropping(job.reference, job.digest, job.pending - {tag}))
    case UntagFails =>
      l.(job := None, faults := l.faults.(removal := l.faults.removal || DigestReference(l.job.value.reference)))
    case Unrecord =>
      l.(rows := ReferenceDeleted(l.rows, l.job.value.reference, l.job.value.digest), job := None)
    case UnrecordFails => l.(job := None, faults := l.faults.(recording := true))
  }

  predicate CollectingEnabled(l: Local, e: Event)
    requires CollectingEvent(e)
  {
    if e.BeginCollect? then l.job.None? && "." !in l.files.tags
    else l.job.Some? && l.job.value.Collecting? && Collectable(l.files, l.job.value, e.digest)
  }

  function CollectingApply(l: Local, e: Event): Local
    requires CollectingEvent(e) && CollectingEnabled(l, e)
  {
    match e
    case BeginCollect(cutoff) => l.(job := Some(Collecting(cutoff, l.files.tags.Values)))
    case Collect(digest) => l.(files := ManifestRemoved(l.files, digest))
    case CollectFails(digest, content, media) =>
      l.(files := ManifestTorn(l.files, digest, content, media), job := None)
  }

  /** Policy updates, and sections that end early: an error before anything was linked, or a finished collection. */
  predicate OtherEnabled(env: Env, l: Local, e: Event) {
    if e.BeginPolicy? then l.job.None? && l.rows.repository.Some? && ValidPolicy(env, e.policy)
    else
      && l.job.Some?
      && var job := l.job.value;
         if e.StorePolicy? then job.SettingPolicy?
         else e.Abandon? && (job.Storing? || job.Starting? || job.Checking? || job.Collecting? || job.SettingPolicy?)
  }

  function OtherApply(env: Env, l: Local, e: Event): Local
    requires OtherEnabled(env, l, e)
  {
    if e.BeginPolicy? then l.(job := Some(SettingPolicy(e.policy)))
    else if e.StorePolicy? then
      l.(rows := l.rows.(policy := Some(l.job.value.policy)), job := None,
         faults := l.faults.(orphan := l.faults.orphan || l.rows.repository.None?))
    else l.(job := None)
  }

  predicate Enabled(env: Env, l: Local, e: Event) {
    if Unlocked(e) then true
    else if StoringEvent(e) then StoringEnabled(env, l, e)
    else if LinkingEvent(e) then LinkingEnabled(env, l, e)
    else if DeletingEvent(e) then DeletingEnabled(l, e)
    else if CollectingEvent(e) then CollectingEnabled(l, e)
    else OtherEnabled(env, l, e)
  }

  ghost function Apply(env: Env, l: Local, e: Event): Local
    requires Enabled(env, l, e)
  {
    if e.PullManifest? then l.(rows := Pulled(l.rows, e.reference, e.now))
    else if e.DropRepository? then
      l.(rows := Dropped(l.rows), faults := l.faults.(dropped := l.faults.dropped || Erases(l, e)))
    else if StoringEvent(e) then StoringApply(env, l, e)
    else if LinkingEvent(e) then LinkingApply(env, l, e)
    else if DeletingEvent(e) then DeletingApply(l, e)
    else if CollectingEvent(e) then CollectingApply(l, e)
    else OtherApply(env, l, e)
  }

  // ---------------------------------------------------------------- invariants

  ghost predicate Hashed(env: Env, files: Files) {
    forall d :: d in files.manifests && files.manifests[d].content.Some? ==> Hashes(env, d, files.manifests[d].content.value)
  }

  /** The policy in force is the one given, or the default that protects nothing. */
  predicate AtMost(rows: Rows, policy: Policy) {
    PolicyInForce(rows) == policy || PolicyInForce(rows) == DEFAULT_POLICY
  }

  /** Every tag file has a row with the same digest. */
  ghost predicate Agrees(tags: map<string, string>, rows: Rows) {
    forall t :: t in tags ==> t in rows.tags && rows.tags[t].digest == tags[t]
  }

  /** Where a tag has both a file and a row, they name the same digest. */
  ghost predicate Consonant(tags: map<string, string>, rows: Rows) {
    forall t :: t in tags && t in rows.tags ==> rows.tags[t].digest == tags[t]
  }

  /** Every row has its tag file. */
  ghost predicate Covers(tags: map<string, string>, rows: Rows) {
    forall t :: t in rows.tags ==> t in tags
  }

  ghost predicate Resolves(tags: map<string, string>, files: Files) {
    forall t :: t in tags ==> Complete(files, tags[t])
  }

  predicate NoFaults(faults: Faults) {
    !faults.undo && !faults.removal && !faults.recording
  }

  ghost predicate Settled(l: Local, tags: map<string, string>) {
    && (!l.faults.undo && !l.faults.dropped ==> Agrees(tags, l.rows))
    && (!l.faults.undo ==> Consonant(tags, l.rows))
    && (NoFaults(l.faults) ==> Covers(tags, l.rows))
    && (!l.faults.removal ==> Resolves(tags, l.files))
  }

  function Elements(tags: seq<string>): set<string> {
    set t | t in tags
  }

  /** The tags a link or rollback in progress has moved and not moved back. */
  function Moved(job: Job): set<string>
    requires job.Checking? || job.Linking? || job.Undoing?
  {
    match job
    case Checking(link) => {}
    case Linking(link, next) => if next <= |link.tags| then Elements(link.tags[..next]) else {}
    case Undoing(link, left, linked) =>
      if left <= linked <= |link.tags|
      then Elements(link.tags[..left]) - Elements(link.tags[left..linked]) else {}
  }

  ghost predicate Mixed(tags: map<string, string>, link: Link, moved: set<string>) {
    forall t :: Get(tags, t) == if t in moved then Some(link.digest) else Get(link.base, t)
  }

  ghost predicate Loose(tags: map<string, string>, link: Link) {
    forall t :: t in tags ==> tags[t] == link.digest || Get(link.base, t) == Some(tags[t])
  }

  ghost predicate SavedWell(env: Env, link: Link) {
    && |link.saved| <= |link.tags|
    && forall i :: 0 <= i < |link.saved| ==>
         && link.saved[i].tag == link.tags[i]
         && link.saved[i].before == Get(link.base, link.tags[i])
         && Permitted(env, link, link.saved[i])
  }

  /** The tags linked so far could all be reached, and there are no others but those of before. */
  ghost predicate Reached(tags: set<string>, link: Link, linked: nat) {
    && linked <= |link.tags|
    && var all := link.base.Keys + Elements(link.tags[..linked]);
       tags <= all && forall t :: t in Elements(link.tags[..linked]) ==> Reaches(all, t)
  }

  ghost predicate LinkInv(env: Env, l: Local, job: Job)
    requires job.Checking? || job.Linking? || job.Undoing?
  {
    var link := job.link;
    && link.tags != []
    && Settled(l, link.base)
    && Complete(l.files, link.digest)
    && (l.rows.tags != map[] ==> PolicyInForce(l.rows) == link.policy)
    && (!l.faults.orphan ==> AtMost(l.rows, link.policy))
    && SavedWell(env, link)
    && (job.Checking? ==> |link.saved| < |link.tags| && l.files.tags == link.base)
    && (job.Linking? ==> |link.saved| == |link.tags| && job.next <= |link.tags|)
    && (job.Undoing? ==> |link.saved| == |link.tags| && 0 < job.left <= job.linked <= |link.tags|)
    && (!job.Checking? ==> Reached(l.files.tags.Keys, link, if job.Linking? then job.next else job.linked))
    && ((job.Undoing? && l.faults.undo) || Mixed(l.files.tags, link, Moved(job)))
    && Loose(l.files.tags, link)
  }

  predicate Unwanted(row: TagRow, tag: string, reference: string, digest: string) {
    if DigestReference(reference) then row.digest == digest else tag == reference
  }

  ghost predicate DeleteInv(l: Local, job: Job)
    requires job.Untagging? || job.Unrecording?
  {
    var tags := l.files.tags;
    var pending := if job.Untagging? then job.pending else {};
    && (!l.faults.undo && !l.faults.dropped ==> Agrees(tags, l.rows))
    && (!l.faults.undo ==> Consonant(tags, l.rows))
    && (NoFaults(l.faults) ==>
          forall t :: t in l.rows.tags ==> t in tags || Unwanted(l.rows.tags[t], t, job.reference, job.digest))
    && (if DigestReference(job.reference) then
          pending == Named(l.files, job.digest) && job.digest !in l.files.manifests && (job.Untagging? ==> pending != {})
        else
          if job.Untagging? then pending == {job.reference} && job.reference in tags else job.reference !in tags)
    && (!l.faults.removal ==>
          forall t :: t in tags && (DigestReference(job.reference) ==> tags[t] != job.digest) ==> Complete(l.files, tags[t]))
  }

  ghost predicate JobInv(env: Env, l: Local) {
    match l.job
    case None => Settled(l, l.files.tags)
    case Some(job) =>
      match job
      case Storing(digest, mediaType, content, tags, now, written) =>
        && Settled(l, l.files.tags) && Hashes(env, digest, content)
        && (written ==> digest in l.files.manifests && l.files.manifests[digest].content.Some?)
      case Starting(digest, mediaType, size, tags, now) =>
        Settled(l, l.files.tags) && Complete(l.files, digest) && tags != []
      case Checking(link) => LinkInv(env, l, job)
      case Linking(link, next) => LinkInv(env, l, job)
      case Undoing(link, left, linked) => LinkInv(env, l, job)
      case Removing(digest) => Settled(l, l.files.tags) && DigestReference(digest)
      case Untagging(reference, digest, pending) => DeleteInv(l, job)
      case Unrecording(reference, digest) => DeleteInv(l, job)
      case Collecting(cutoff, referenced) => Settled(l, l.files.tags) && referenced == l.files.tags.Values
      case SettingPolicy(policy) => Settled(l, l.files.tags)
  }

  ghost predicate Inv(env: Env, l: Local) {
    && (!l.faults.torn ==> Hashed(env, l.files))
    && Rooted(l.rows)
    && (!l.faults.orphan ==> PolicyRooted(l.rows))
    && JobInv(env, l)
  }

  // ---------------------------------------------------------------- runs of one lock section

  /** The events lead from `l` to `k` one after the other. */
  ghost predicate Runs(env: Env, l: Local, es: seq<Event>, k: Local)
    decreases es
  {
    if es == [] then l == k
    else Enabled(env, l, es[0]) && Runs(env, Apply(env, l, es[0]), es[1..], k)
  }

  lemma {:induction false} RunsConcat(env: Env, l: Local, es: seq<Event>, m: Local, fs: seq<Event>, k: Local)
    requires Runs(env, l, es, m) && Runs(env, m, fs, k)
    ensures Runs(env, l, es + fs, k)
    decreases es
  {
    if es == [] {
      assert es + fs == fs;
    } else {
      RunsConcat(env, Apply(env, l, es[0]), es[1..], m, fs, k);
      assert (es + fs)[1..] == es[1..] + fs;
    }
  }

  lemma {:induction false} RunsOne(env: Env, l: Local, e: Event)
    requires Enabled(env, l, e)
    ensures Runs(env, l, [e], Apply(env, l, e))
  {
    assert [e][1..] == [];
  }

  lemma Extend(env: Env, l: Local, es: seq<Event>, m: Local, e: Event) returns (fs: seq<Event>, k: Local)
    requires Runs(env, l, es, m) && Enabled(env, m, e)
    ensures fs == es + [e] && k == Apply(env, m, e) && Runs(env, l, fs, k)
  {
    fs, k := es + [e], Apply(env, m, e);
    RunsOne(env, m, e);
    RunsConcat(env, l, es, m, [e], k);
  }
}
