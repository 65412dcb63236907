/**
 The SQLite read model (internal/db/store.go). Each table is kept partitioned by its
 repository name: `Rows` is everything the three registry tables hold for one name. A statement
 of the source that says `WHERE repository_name = ?` is a function on one `Rows`.
 */
module ReadModel {
  import opened Wrappers

  datatype TagRow = TagRow(digest: string, mediaType: string, size: nat, pushedAt: int, pulledAt: Option<int>)

  datatype RepositoryRow = RepositoryRow(
    tagCount: nat, manifestCount: nat, size: nat, lastPush: Option<int>, lastPull: Option<int>)

  datatype Mode = Mutable | Immutable | Pattern

  datatype Policy = Policy(mode: Mode, pattern: string)

  datatype Rows = Rows(repository: Option<RepositoryRow>, tags: map<string, TagRow>, policy: Option<Policy>)

  datatype TagParams = TagParams(repository: string, tag: string, digest: string, mediaType: string, size: int)

  const NO_ROWS := Rows(None, map[], None)

  const DEFAULT_POLICY := Policy(Mutable, "")

  // ---------------------------------------------------------------- aggregates

  ghost function Digests(tags: map<string, TagRow>): set<string> {
    set t | t in tags :: tags[t].digest
  }

  /** `g` gives each digest of the table the largest size any of its rows carries. */
  ghost predicate IsGroupMax(tags: map<string, TagRow>, g: map<string, nat>) {
    && g.Keys == Digests(tags)
    && (forall t :: t in tags ==> tags[t].size <= g[tags[t].digest])
    && (forall d :: d in g ==> exists t :: t in tags && tags[t].digest == d && tags[t].size == g[d])
  }

  lemma GroupMaxUnique(tags: map<string, TagRow>, g: map<string, nat>, h: map<string, nat>)
    requires IsGroupMax(tags, g) && IsGroupMax(tags, h)
    ensures g == h
  {
    forall d | d in g ensures g[d] == h[d] {
      var t :| t in tags && tags[t].digest == d && tags[t].size == g[d];
      var u :| u in tags && tags[u].digest == d && tags[u].size == h[d];
    }
  }

  /** One more row: its digest's entry becomes the larger of the old entry and the row's size. */
  function Raise(g: map<string, nat>, row: TagRow): map<string, nat> {
    g[row.digest := if row.digest in g && g[row.digest] > row.size then g[row.digest] else row.size]
  }

  lemma RaiseKeepsMax(tags: map<string, TagRow>, g: map<string, nat>, t: string, row: TagRow)
    requires IsGroupMax(tags, g) && t !in tags
    ensures IsGroupMax(tags[t := row], Raise(g, row))
  {
    var more, h := tags[t := row], Raise(g, row);
    forall d | d in Digests(more) ensures d in h {
      var u :| u in more && more[u].digest == d;
      if u != t { assert tags[u].digest == d; }
    }
    forall d | d in h ensures d in Digests(more) {
      if d == row.digest {
        assert more[t].digest == d;
      } else {
        var u :| u in tags && tags[u].digest == d;
        assert more[u].digest == d;
      }
    }
    forall d | d in h ensures exists u :: u in more && more[u].digest == d && more[u].size == h[d] {
      if d in g && (d != row.digest || g[d] > row.size) {
        var u :| u in tags && tags[u].digest == d && tags[u].size == g[d];
        assert more[u] == tags[u];
      } else {
        assert more[t].digest == d && more[t].size == h[d];
      }
    }
  }

  ghost function GroupMax(tags: map<string, TagRow>): (g: map<string, nat>)
    ensures IsGroupMax(tags, g)
  {
    if tags == map[] then map[]
    else
      var t :| t in tags;
      var fewer := tags - {t};
      RaiseKeepsMax(fewer, GroupMax(fewer), t, tags[t]);
      assert fewer[t := tags[t]] == tags;
      Raise(GroupMax(fewer), tags[t])
  }

  ghost function Sum<K>(m: map<K, nat>): nat {
    if m == map[] then 0
    else
      var k :| k in m;
      m[k] + Sum(m - {k})
  }

  /** The order in which a sum is taken does not matter. */
  lemma {:induction false} SumRemove<K>(m: map<K, nat>, k: K)
    requires k in m
    ensures Sum(m) == m[k] + Sum(m - {k})
    decreases |m|
  {
    var j :| j in m && Sum(m) == m[j] + Sum(m - {j});
    if j != k {
      SumRemove(m - {j}, k);
      SumRemove(m - {k}, j);
      assert m - {j} - {k} == m - {k} - {j};
    }
  }

  lemma SumPut<K>(m: map<K, nat>, k: K, v: nat)
    ensures Sum(m[k := v]) == Sum(m - {k}) + v
  {
    SumRemove(m[k := v], k);
    assert m[k := v] - {k} == m - {k};
  }

  ghost function TotalSize(tags: map<string, TagRow>): nat {
    Sum(GroupMax(tags))
  }

  function Standing(g: map<string, nat>, d: string): nat {
    if d in g then g[d] else 0
  }

  lemma {:induction false} RaiseSum(g: map<string, nat>, row: TagRow)
    ensures Sum(Raise(g, row)) == Sum(g) - Standing(g, row.digest) + Raise(g, row)[row.digest]
  {
    var d := row.digest;
    SumPut(g, d, Raise(g, row)[d]);
    if d in g {
      SumRemove(g, d);
    } else {
      assert g - {d} == g;
    }
  }

  /** The state of the grouping query when the rows of `left` are still to be read. */
  ghost predicate Grouped(tags: map<string, TagRow>, left: set<string>, groups: map<string, nat>, size: int) {
    left <= tags.Keys && groups == GroupMax(tags - left) && size == Sum(groups)
  }

  lemma GroupOneMore(tags: map<string, TagRow>, left: set<string>, groups: map<string, nat>, size: int, t: string)
    requires Grouped(tags, left, groups, size) && t in left
    ensures
      var more := Raise(groups, tags[t]);
      var d := tags[t].digest;
      Grouped(tags, left - {t}, more, size - Standing(groups, d) + more[d])
  {
    var seen := tags - left;
    RaiseKeepsMax(seen, groups, t, tags[t]);
    assert seen[t := tags[t]] == tags - (left - {t});
    GroupMaxUnique(tags - (left - {t}), Raise(groups, tags[t]), GroupMax(tags - (left - {t})));
    RaiseSum(groups, tags[t]);
  }

  lemma GroupedAll(tags: map<string, TagRow>, groups: map<string, nat>, size: int)
    requires Grouped(tags, {}, groups, size)
    ensures size == TotalSize(tags) && groups.Keys == Digests(tags)
  {
    assert tags - {} == tags;
  }

  /**
   Evaluates the three aggregate sub-queries of lines 333-338: COUNT(*), COUNT(DISTINCT digest)
   and the sum over distinct digests of the largest size, in one pass over the rows.
   */
  method Aggregate(tags: map<string, TagRow>) returns (count: nat, manifests: nat, size: nat)
    ensures count == |tags|
    ensures manifests == |Digests(tags)|
    ensures size == TotalSize(tags)
  {
    var total: int := 0;
    var groups: map<string, nat> := map[];
    var left := tags.Keys;
    assert tags - left == map[];
    while left != {}
      invariant Grouped(tags, left, groups, total)
      decreases |left|
    {
      var t :| t in left;
      var row := tags[t];
      GroupOneMore(tags, left, groups, total, t);
      var before := Standing(groups, row.digest);
      groups := Raise(groups, row);
      total := total - before + groups[row.digest];
      left := left - {t};
    }
    GroupedAll(tags, groups, total);
    count, manifests, size := |tags.Keys|, |groups.Keys|, total;
  }

  // ---------------------------------------------------------------- statements

  /** The row an upsert leaves for one tag: the pull time survives only when the digest does not change. */
  function PutRow(tags: map<string, TagRow>, p: TagParams, now: int): TagRow
    requires p.size >= 0
  {
    TagRow(p.digest, p.mediaType, p.size, now,
           if p.tag in tags && tags[p.tag].digest == p.digest then tags[p.tag].pulledAt else None)
  }

  predicate ValidParams(name: string, params: seq<TagParams>) {
    && name != ""
    && forall p :: p in params ==> p.repository == name && p.tag != "" && p.digest != "" && p.size >= 0
  }

  ghost function PutRows(tags: map<string, TagRow>, params: seq<TagParams>, now: int): map<string, TagRow>
    requires forall p :: p in params ==> p.size >= 0
  {
    if params == [] then tags
    else
      var before := PutRows(tags, params[..|params| - 1], now);
      var p := params[|params| - 1];
      before[p.tag := PutRow(before, p, now)]
  }

  ghost function Recount(rows: Rows): Rows {
    if rows.repository.None? then rows
    else
      rows.(repository := Some(rows.repository.value.(
        tagCount := |rows.tags|,
        manifestCount := |Digests(rows.tags)|,
        size := TotalSize(rows.tags))))
  }

  /** UpsertRepositoryTags, committed. */
  ghost function Upserted(rows: Rows, params: seq<TagParams>, now: int): Rows
    requires forall p :: p in params ==> p.size >= 0
  {
    if params == [] then rows
    else
      var row := if rows.repository.Some? then rows.repository.value.(lastPush := Some(now))
                    else RepositoryRow(0, 0, 0, Some(now), None);
      Recount(rows.(repository := Some(row), tags := PutRows(rows.tags, params, now)))
  }

  // ---------------------------------------------------------------- what the statements leave

  /** The given parameters say nothing else of the tag than these do. */
  predicate LastFor(params: seq<TagParams>, i: nat)
    requires i < |params|
  {
    forall j :: i < j < |params| ==> params[j].tag != params[i].tag
  }

  /** Whether the row of a tag named the digest of each of its parameters already. */
  ghost predicate NamedAlready(tags: map<string, TagRow>, params: seq<TagParams>, tag: string) {
    tag in tags && forall j :: 0 <= j < |params| && params[j].tag == tag ==> params[j].digest == tags[tag].digest
  }

  /** The rows after an upsert: the last parameters of each tag, and a pull time that only the same digest keeps. */
  ghost predicate TagsRecorded(was: map<string, TagRow>, params: seq<TagParams>, now: int, tags: map<string, TagRow>) {
    && (forall i :: 0 <= i < |params| && LastFor(params, i) ==>
          params[i].tag in tags && RowRecorded(was, params, now, i, tags[params[i].tag]))
    && (forall t :: (forall p :: p in params ==> p.tag != t) ==> Get(tags, t) == Get(was, t))
  }

  /** The row that the last parameters of a tag leave. */
  ghost predicate RowRecorded(was: map<string, TagRow>, params: seq<TagParams>, now: int, i: nat, row: TagRow)
    requires i < |params|
  {
    var p := params[i];
    && row.digest == p.digest && row.mediaType == p.mediaType && row.size == p.size && row.pushedAt == now
    && row.pulledAt == if NamedAlready(was, params, p.tag) then was[p.tag].pulledAt else None
  }

  /** The repository after an upsert: pushed now, pulled and protected as before, with exact aggregates. */
  ghost predicate PushCounted(was: Rows, now: int, rows: Rows) {
    && rows.repository.Some? && rows.policy == was.policy
    && var row := rows.repository.value;
       && row.lastPush == Some(now)
       && row.lastPull == (if was.repository.Some? then was.repository.value.lastPull else None)
       && row.tagCount == |rows.tags| && row.manifestCount == |Digests(rows.tags)| && row.size == TotalSize(rows.tags)
  }

  lemma {:induction false} PutRowsRecord(was: map<string, TagRow>, params: seq<TagParams>, now: int)
    requires forall p :: p in params ==> p.size >= 0
    ensures TagsRecorded(was, params, now, PutRows(was, params, now))
  {
    if params != [] {
      var most, last := params[..|params| - 1], params[|params| - 1];
      PutRowsRecord(was, most, now);
      RecordOneMore(was, most, last, now, PutRows(was, most, now));
      assert params == most + [last];
    }
  }

  lemma {:induction false} RecordOneMore(was: map<string, TagRow>, most: seq<TagParams>, last: TagParams, now: int,
                                         tags: map<string, TagRow>)
    requires last.size >= 0 && TagsRecorded(was, most, now, tags)
    ensures TagsRecorded(was, most + [last], now, tags[last.tag := PutRow(tags, last, now)])
  {
    var params, after := most + [last], tags[last.tag := PutRow(tags, last, now)];
    PullTimeKept(was, most, last, now, tags);
    PutRowMeans(tags, last, now);
    forall i | 0 <= i < |params| && LastFor(params, i)
      ensures params[i].tag in after && RowRecorded(was, params, now, i, after[params[i].tag])
    {
      if i < |most| {
        OlderRowKept(was, most, last, now, tags, i);
      }
    }
    forall t | forall p :: p in params ==> p.tag != t ensures Get(after, t) == Get(was, t) {
      assert last in params && forall p :: p in most ==> p in params;
    }
  }

  lemma {:induction false} OlderRowKept(was: map<string, TagRow>, most: seq<TagParams>, last: TagParams, now: int,
                                        tags: map<string, TagRow>, i: nat)
    requires TagsRecorded(was, most, now, tags) && i < |most| && LastFor(most + [last], i)
    ensures most[i].tag != last.tag && most[i].tag in tags
    ensures RowRecorded(was, most + [last], now, i, tags[most[i].tag])
  {
    var params := most + [last];
    assert params[|most|] == last;
    assert forall j :: 0 <= j < |most| ==> params[j] == most[j];
    assert LastFor(most, i);
    assert NamedAlready(was, params, most[i].tag) == NamedAlready(was, most, most[i].tag);
  }

  lemma {:induction false} PutRowMeans(tags: map<string, TagRow>, p: TagParams, now: int)
    requires p.size >= 0
    ensures PutRow(tags, p, now) == TagRow(p.digest, p.mediaType, p.size, now, PutRow(tags, p, now).pulledAt)
  {
  }

  lemma {:induction false} LastOfTag(params: seq<TagParams>, tag: string) returns (i: nat)
    requires exists p :: p in params && p.tag == tag
    ensures i < |params| && params[i].tag == tag && LastFor(params, i)
  {
    if params[|params| - 1].tag == tag {
      i := |params| - 1;
    } else {
      var most := params[..|params| - 1];
      assert params == most + [params[|params| - 1]];
      i := LastOfTag(most, tag);
    }
  }

  /** The row at hand kept the pull time of the first exactly if every parameter so far named the same digest. */
  lemma {:induction false} PullTimeKept(was: map<string, TagRow>, most: seq<TagParams>, last: TagParams, now: int,
                                        tags: map<string, TagRow>)
    requires last.size >= 0 && TagsRecorded(was, most, now, tags)
    ensures PutRow(tags, last, now).pulledAt ==
            if NamedAlready(was, most + [last], last.tag) then was[last.tag].pulledAt else None
  {
    var params := most + [last];
    assert params[|most|] == last;
    assert forall j :: 0 <= j < |most| ==> params[j] == most[j];
    if exists p :: p in most && p.tag == last.tag {
      var i := LastOfTag(most, last.tag);
      assert most[i].tag in tags;
      assert NamedAlready(was, params, last.tag) <==>
             NamedAlready(was, most, last.tag) && last.digest == most[i].digest;
    } else {
      assert Get(tags, last.tag) == Get(was, last.tag);
      assert forall j :: 0 <= j < |most| ==> most[j] in most;
    }
  }

  lemma {:induction false} UpsertRecords(rows: Rows, params: seq<TagParams>, now: int)
    requires params != [] && forall p :: p in params ==> p.size >= 0
    ensures TagsRecorded(rows.tags, params, now, Upserted(rows, params, now).tags)
    ensures PushCounted(rows, now, Upserted(rows, params, now))
  {
    PutRowsRecord(rows.tags, params, now);
    hide TagsRecorded;
    hide PutRows;
  }

  /**
   What a delete leaves: exactly the rows of the tag, or of the digest, are gone. As long as one is left the policy,
   the last push and the last pull stay and the aggregates are exact; with the last one the repository and its policy go.
   */
  ghost predicate DeleteRecorded(was: Rows, reference: string, digest: string, rows: Rows) {
    && (forall t :: Get(rows.tags, t) ==
          if t in was.tags && (if ':' in reference then was.tags[t].digest == digest else t == reference)
          then None else Get(was.tags, t))
    && (rows.tags == map[] ==> rows.repository.None? && rows.policy.None?)
    && (rows.tags != map[] && was.repository.Some? ==>
          && rows.repository.Some? && rows.policy == was.policy
          && var row, before := rows.repository.value, was.repository.value;
             && row.lastPush == before.lastPush && row.lastPull == before.lastPull
             && row.tagCount == |rows.tags| && row.manifestCount == |Digests(rows.tags)| && row.size == TotalSize(rows.tags))
  }

  lemma DeleteRecords(rows: Rows, reference: string, digest: string)
    ensures DeleteRecorded(rows, reference, digest, ReferenceDeleted(rows, reference, digest))
  {
  }

  function Unnamed(tags: map<string, TagRow>, reference: string, digest: string): map<string, TagRow> {
    if ':' in reference then map t | t in tags && tags[t].digest != digest :: tags[t]
    else tags - {reference}
  }

  /** DeleteRepositoryManifestReference, committed: an emptied repository loses its row and its policy. */
  ghost function ReferenceDeleted(rows: Rows, reference: string, digest: string): Rows {
    var counted := Recount(rows.(tags := Unnamed(rows.tags, reference, digest)));
    match counted.repository
    case None => counted.(policy := None)
    case Some(r) => if r.tagCount == 0 && r.manifestCount == 0 then NO_ROWS else counted
  }

  function MarkRow(t: string, row: TagRow, reference: string, now: int): TagRow {
    if reference != "" && (if ':' in reference then row.digest == reference else t == reference)
    then row.(pulledAt := Some(now))
    else row
  }

  /** MarkRepositoryPulled, committed. */
  function Pulled(rows: Rows, reference: string, now: int): Rows {
    var row := if rows.repository.Some? then rows.repository.value.(lastPull := Some(now))
                  else RepositoryRow(0, 0, 0, None, Some(now));
    rows.(repository := Some(row), tags := map t | t in rows.tags :: MarkRow(t, rows.tags[t], reference, now))
  }

  /** DeleteRepository: a missing row rolls the transaction back, an existing one cascades to its tags. */
  function Dropped(rows: Rows): Rows {
    if rows.repository.None? then rows else NO_ROWS
  }

  /** GetRepositoryTagPolicy: a repository without a row, or without a policy row, is mutable. */
  function PolicyInForce(rows: Rows): Policy {
    if rows.repository.None? || rows.policy.None? then DEFAULT_POLICY else rows.policy.value
  }

  datatype Statement =
    | Upsert(params: seq<TagParams>, at: int)
    | DeleteReference(reference: string, digest: string)
    | Pull(pulled: string, at: int)
    | Drop
    | WritePolicy(policy: Policy)

  ghost predicate WellFormed(st: Statement) {
    st.Upsert? ==> forall p :: p in st.params ==> p.size >= 0
  }

  ghost function Execute(rows: Rows, st: Statement): Rows
    requires WellFormed(st)
  {
    match st
    case Upsert(params, now) => Upserted(rows, params, now)
    case DeleteReference(reference, digest) => ReferenceDeleted(rows, reference, digest)
    case Pull(reference, now) => Pulled(rows, reference, now)
    case Drop => Dropped(rows)
    case WritePolicy(policy) => rows.(policy := Some(policy))
  }

  // ---------------------------------------------------------------- invariants

  /** The foreign key of repository_tags. */
  ghost predicate Rooted(rows: Rows) {
    rows.tags != map[] ==> rows.repository.Some?
  }

  ghost predicate Counted(rows: Rows) {
    rows.repository.Some? ==>
      && rows.repository.value.tagCount == |rows.tags|
      && rows.repository.value.manifestCount == |Digests(rows.tags)|
      && rows.repository.value.size == TotalSize(rows.tags)
  }

  ghost predicate PolicyRooted(rows: Rows) {
    rows.policy.Some? ==> rows.repository.Some?
  }

  ghost predicate Consistent(rows: Rows) {
    Rooted(rows) && Counted(rows)
  }

  lemma PulledKeepsGroups(tags: map<string, TagRow>, marked: map<string, TagRow>)
    requires marked.Keys == tags.Keys
    requires forall t :: t in tags ==> marked[t].digest == tags[t].digest && marked[t].size == tags[t].size
    ensures |marked| == |tags| && Digests(marked) == Digests(tags) && TotalSize(marked) == TotalSize(tags)
  {
    assert |marked| == |marked.Keys| == |tags.Keys| == |tags|;
    SameDigestsMarked(tags, marked);
    hide Digests;
    var g := GroupMax(tags);
    forall d | d in g ensures exists t :: t in marked && marked[t].digest == d && marked[t].size == g[d] {
      var t :| t in tags && tags[t].digest == d && tags[t].size == g[d];
      assert marked[t].digest == d;
    }
    assert IsGroupMax(marked, g);
    GroupMaxUnique(marked, g, GroupMax(marked));
  }

  lemma SameDigestsMarked(tags: map<string, TagRow>, marked: map<string, TagRow>)
    requires marked.Keys == tags.Keys && forall t :: t in tags ==> marked[t].digest == tags[t].digest
    ensures Digests(marked) == Digests(tags)
  {
    forall d | d in Digests(tags) ensures d in Digests(marked) {
      var t :| t in tags && tags[t].digest == d;
      assert marked[t].digest == d;
    }
    forall d | d in Digests(marked) ensures d in Digests(tags) {
      var t :| t in marked && marked[t].digest == d;
      assert tags[t].digest == d;
    }
  }

  lemma EmptyAggregates()
    ensures Digests(map[]) == {} && TotalSize(map[]) == 0
  {
    assert GroupMax(map[]) == map[];
  }

  lemma DeleteKeepsConsistent(rows: Rows, reference: string, digest: string)
    requires Consistent(rows)
    ensures Consistent(ReferenceDeleted(rows, reference, digest))
  {
    if rows.repository.None? {
      assert Unnamed(map[], reference, digest) == map[];
    }
  }

  lemma PullKeepsConsistent(rows: Rows, reference: string, now: int)
    requires Consistent(rows)
    ensures Consistent(Pulled(rows, reference, now))
  {
    PulledKeepsGroups(rows.tags, Pulled(rows, reference, now).tags);
    EmptyAggregates();
  }

  lemma ExecuteKeepsConsistent(rows: Rows, st: Statement)
    requires Consistent(rows) && WellFormed(st)
    ensures Consistent(Execute(rows, st))
  {
    match st
    case Upsert(params, now) =>
    case DeleteReference(reference, digest) => DeleteKeepsConsistent(rows, reference, digest);
    case Pull(reference, now) => PullKeepsConsistent(rows, reference, now);
    case Drop =>
    case WritePolicy(policy) =>
  }

  /** The tables of one repository name before each statement of a run, and after the last. */
  ghost function TableStates(rows: Rows, run: seq<Statement>): (states: seq<Rows>)
    requires forall st :: st in run ==> WellFormed(st)
    ensures |states| == |run| + 1 && states[0] == rows
    decreases run
  {
    if run == [] then [rows] else [rows] + TableStates(Execute(rows, run[0]), run[1..])
  }

  /** Every reachable state has exact aggregates and no tag row without its repository row. */
  lemma {:induction false} AggregatesExactOverRuns(rows: Rows, run: seq<Statement>, i: nat)
    requires Consistent(rows) && (forall st :: st in run ==> WellFormed(st)) && i <= |run|
    ensures Consistent(TableStates(rows, run)[i])
    decreases run
  {
    if i > 0 {
      ExecuteKeepsConsistent(rows, run[0]);
      AggregatesExactOverRuns(Execute(rows, run[0]), run[1..], i - 1);
    }
  }

  /**
   UpdateRepositoryTagPolicy looks the repository up and writes the policy in two statements, and the
   tagless delete of the user interface takes no lock. Policy rows keep their repository row throughout a
   run if and only if every policy write still finds it.
   */
  lemma {:induction false} PoliciesRootedExactly(rows: Rows, run: seq<Statement>)
    requires PolicyRooted(rows) && forall st :: st in run ==> WellFormed(st)
    ensures
      (forall i :: 0 <= i <= |run| ==> PolicyRooted(TableStates(rows, run)[i])) <==>
      (forall i :: 0 <= i < |run| ==> run[i].WritePolicy? ==> TableStates(rows, run)[i].repository.Some?)
    decreases run
  {
    var states := TableStates(rows, run);
    if run != [] {
      var next := Execute(rows, run[0]);
      PolicyStep(rows, run[0]);
      assert states == [rows] + TableStates(next, run[1..]);
      hide Execute;
      hide PolicyRooted;
      if PolicyRooted(next) {
        PoliciesRootedExactly(next, run[1..]);
        assert forall i :: 0 <= i <= |run| - 1 ==> TableStates(next, run[1..])[i] == states[i + 1];
        if forall i :: 0 <= i < |run| ==> run[i].WritePolicy? ==> states[i].repository.Some? {
          assert forall i :: 0 <= i < |run| - 1 ==> run[1..][i].WritePolicy? ==> states[i + 1].repository.Some?;
          forall i | 0 <= i <= |run| ensures PolicyRooted(states[i]) {
            assert i > 0 ==> PolicyRooted(TableStates(next, run[1..])[i - 1]);
          }
        }
        if forall i :: 0 <= i <= |run| ==> PolicyRooted(states[i]) {
          forall i | 0 <= i < |run| && run[i].WritePolicy? ensures states[i].repository.Some? {
            assert i > 0 ==> run[1..][i - 1].WritePolicy?;
          }
        }
      } else {
        assert states[1] == next;
        assert run[0].WritePolicy? && states[0].repository.None?;
      }
    }
  }

  lemma PolicyStep(rows: Rows, st: Statement)
    requires PolicyRooted(rows) && WellFormed(st)
    ensures PolicyRooted(Execute(rows, st)) <==> (st.WritePolicy? ==> rows.repository.Some?)
  {
  }

  /** The lookup, the unlocked delete and the policy write in that order leave a policy without a repository. */
  lemma PolicyOutlivesRepository(policy: Policy)
    ensures
      var rows := Pulled(NO_ROWS, "", 0);
      rows.repository.Some? && !PolicyRooted(Execute(Execute(rows, Drop), WritePolicy(policy)))
  {
  }
}
