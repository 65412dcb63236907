/**
 The database methods of internal/db/store.go on in-memory tables. Each method is one transaction: it
 commits, and the rows of its repository become what ReadModel says, or it fails and nothing changes.
 */
module Database {
  import opened Wrappers
  import opened ReadModel

  class Store {
    var repositories: map<string, RepositoryRow>
    var tags: map<string, map<string, TagRow>>
    var policies: map<string, Policy>

    constructor ()
      ensures forall n :: RowsOf(n) == NO_ROWS
    {
      repositories, tags, policies := map[], map[], map[];
    }

    function TagsOf(name: string): map<string, TagRow>
      reads this
    {
      if name in tags then tags[name] else map[]
    }

    function RowsOf(name: string): Rows
      reads this
    {
      Rows(Get(repositories, name), TagsOf(name), Get(policies, name))
    }

    twostate predicate OthersKept(name: string)
      reads this
    {
      forall n :: n != name ==> RowsOf(n) == old(RowsOf(n))
    }

    /** Makes the rows of one name what a committed transaction left of them. */
    method Save(name: string, rows: Rows)
      modifies this
      ensures RowsOf(name) == rows && OthersKept(name)
    {
      repositories := if rows.repository.Some? then repositories[name := rows.repository.value] else repositories - {name};
      tags := tags[name := rows.tags];
      policies := if rows.policy.Some? then policies[name := rows.policy.value] else policies - {name};
    }

    /** The UPDATE that recomputes the aggregates of a repository row, if there is one. */
    static method Recounted(rows: Rows) returns (counted: Rows)
      ensures counted == Recount(rows)
    {
      counted := rows;
      if rows.repository.Some? {
        var count, manifests, size := Aggregate(rows.tags);
        counted := rows.(repository := Some(rows.repository.value.(
          tagCount := count, manifestCount := manifests, size := size)));
      }
    }

    method UpsertRepositoryTags(params: seq<TagParams>, now: int) returns (r: Result<()>)
      modifies this
      ensures params == [] ==> r.Ok? && unchanged(this)
      ensures params != [] && !ValidParams(params[0].repository, params) ==> r == Err(InvalidArgument)
      ensures params != [] && r.Ok? ==>
        RowsOf(params[0].repository) == Upserted(old(RowsOf(params[0].repository)), params, now)
      ensures params != [] && r.Ok? ==>
        var was, rows := old(RowsOf(params[0].repository)), RowsOf(params[0].repository);
        TagsRecorded(was.tags, params, now, rows.tags) && PushCounted(was, now, rows)
      ensures params != [] && ValidParams(params[0].repository, params) ==> r.Ok? || r == Err(Io)
      ensures params != [] ==> OthersKept(params[0].repository)
      ensures r.Err? ==> unchanged(this)
    {
      if params == [] {
        return Ok(());
      }
      var name := params[0].repository;
      if !ValidParams(name, params) {
        return Err(InvalidArgument);
      }
      var rows := RowsOf(name);
      var row := if rows.repository.Some? then rows.repository.value.(lastPush := Some(now))
                 else RepositoryRow(0, 0, 0, Some(now), None);
      var written := rows.tags;
      for i := 0 to |params|
        invariant written == PutRows(rows.tags, params[..i], now)
      {
        assert params[..i + 1][..i] == params[..i];
        written := written[params[i].tag := PutRow(written, params[i], now)];
      }
      assert params[..|params|] == params;
      var counted := Recounted(rows.(repository := Some(row), tags := written));
      var committed: bool := *;
      if !committed {
        return Err(Io);
      }
      UpsertRecords(rows, params, now);
      hide TagsRecorded;
      hide PushCounted;
      Save(name, counted);
      return Ok(());
    }

    /** One row of repository_tags. */
    method GetRepositoryTag(name: string, tag: string) returns (r: Result<TagRow>)
      ensures r.Ok? ==> tag in RowsOf(name).tags && r.value == RowsOf(name).tags[tag]
      ensures r.Err? ==> r.error == Io || (r.error == NotFound && tag !in RowsOf(name).tags)
    {
      var read: bool := *;
      if !read {
        return Err(Io);
      }
      if tag !in TagsOf(name) {
        return Err(NotFound);
      }
      return Ok(TagsOf(name)[tag]);
    }

    method GetRepositoryTagPolicy(name: string) returns (r: Result<Policy>)
      ensures r.Ok? ==> r.value == PolicyInForce(RowsOf(name))
      ensures r.Ok? && RowsOf(name).repository.Some? && RowsOf(name).policy.Some? ==> r.value == RowsOf(name).policy.value
      ensures r.Ok? && (RowsOf(name).repository.None? || RowsOf(name).policy.None?) ==> r.value == Policy(Mutable, "")
      ensures if name == "" then r == Err(InvalidArgument) else r.Ok? || r == Err(Io)
    {
      if name == "" {
        return Err(InvalidArgument);
      }
      var read: bool := *;
      if !read {
        return Err(Io);
      }
      if name !in repositories || name !in policies {
        return Ok(DEFAULT_POLICY);
      }
      return Ok(policies[name]);
    }

    /** `compiles` stands for the regular expression compiler. */
    method UpdateRepositoryTagPolicy(name: string, policy: Policy, compiles: string -> bool) returns (r: Result<Policy>)
      modifies this
      ensures r.Err? ==> unchanged(this)
      ensures OthersKept(name)
      ensures r.Ok? ==>
        && name != ""
        && old(RowsOf(name)).repository.Some?
        && r.value.mode == policy.mode
        && (policy.mode == Pattern ==> policy.pattern != "" && compiles(policy.pattern) && r.value == policy)
        && (policy.mode != Pattern ==> r.value.pattern == "")
        && RowsOf(name) == old(RowsOf(name)).(policy := Some(r.value))
      ensures
        if name == "" then r == Err(InvalidArgument)
        else if old(RowsOf(name)).repository.None? then r == Err(NotFound) || r == Err(Io)
        else if policy.mode == Pattern && (policy.pattern == "" || !compiles(policy.pattern)) then
          r == Err(InvalidPattern) || r == Err(Io)
        else r.Ok? || r == Err(Io)
    {
      if name == "" {
        return Err(InvalidArgument);
      }
      var read: bool := *;
      if !read {
        return Err(Io);
      }
      if name !in repositories {
        return Err(NotFound);
      }
      var stored := policy;
      if policy.mode == Pattern {
        if policy.pattern == "" || !compiles(policy.pattern) {
          return Err(InvalidPattern);
        }
      } else {
        stored := policy.(pattern := "");
      }
      var committed: bool := *;
      if !committed {
        return Err(Io);
      }
      policies := policies[name := stored];
      return Ok(stored);
    }

    method DeleteRepositoryManifestReference(name: string, reference: string, digest: string) returns (r: Result<()>)
      modifies this
      ensures r.Err? ==> unchanged(this)
      ensures name == "" || reference == "" || digest == "" ==> r == Err(InvalidArgument)
      ensures r.Ok? ==> RowsOf(name) == ReferenceDeleted(old(RowsOf(name)), reference, digest)
      ensures r.Ok? ==> DeleteRecorded(old(RowsOf(name)), reference, digest, RowsOf(name))
      ensures name != "" && reference != "" && digest != "" ==> r.Ok? || r == Err(Io)
      ensures OthersKept(name)
    {
      if name == "" || reference == "" || digest == "" {
        return Err(InvalidArgument);
      }
      var rows := RowsOf(name);
      var counted := Recounted(rows.(tags := Unnamed(rows.tags, reference, digest)));
      if counted.repository.None? {
        counted := counted.(policy := None);
      } else if counted.repository.value.tagCount == 0 && counted.repository.value.manifestCount == 0 {
        counted := NO_ROWS;
      }
      var committed: bool := *;
      if !committed {
        return Err(Io);
      }
      Save(name, counted);
      return Ok(());
    }

    /** A pull of a reference marks the repository, and of its tags those the reference names. */
    static lemma PulledMeans(rows: Rows, reference: string, now: int)
      ensures
        var k := Pulled(rows, reference, now);
        && k.repository.Some? && k.repository.value.lastPull == Some(now)
        && k.policy == rows.policy && k.tags.Keys == rows.tags.Keys
        && (forall t :: t in k.tags ==>
              k.tags[t] == rows.tags[t].(pulledAt :=
                if reference != "" && reference == (if ':' in reference then rows.tags[t].digest else t) then Some(now)
                else rows.tags[t].pulledAt))
        && (rows.repository.Some? ==> k.repository.value == rows.repository.value.(lastPull := Some(now)))
        && (rows.repository.None? ==> k.repository.value == RepositoryRow(0, 0, 0, None, Some(now)))
    {
    }

    method MarkRepositoryPulled(name: string, reference: string, now: int) returns (r: Result<()>)
      modifies this
      ensures r.Err? ==> unchanged(this)
      ensures if name == "" then r == Err(InvalidArgument) else r.Ok? || r == Err(Io)
      ensures r.Ok? ==> RowsOf(name) == Pulled(old(RowsOf(name)), reference, now)
      ensures r.Ok? ==>
        && RowsOf(name).repository.Some? && RowsOf(name).repository.value.lastPull == Some(now)
        && RowsOf(name).policy == old(RowsOf(name)).policy
        && RowsOf(name).tags.Keys == old(RowsOf(name)).tags.Keys
        && (forall t :: t in RowsOf(name).tags ==>
              var was := old(RowsOf(name)).tags[t];
              RowsOf(name).tags[t] == was.(pulledAt :=
                if reference != "" && reference == (if ':' in reference then was.digest else t) then Some(now)
                else was.pulledAt))
      ensures r.Ok? && old(RowsOf(name)).repository.Some? ==>
        RowsOf(name).repository.value == old(RowsOf(name)).repository.value.(lastPull := Some(now))
      ensures r.Ok? && old(RowsOf(name)).repository.None? ==>
        RowsOf(name).repository.value == RepositoryRow(0, 0, 0, None, Some(now))
      ensures r.Ok? && Consistent(old(RowsOf(name))) ==> Consistent(RowsOf(name))
      ensures OthersKept(name)
    {
      if name == "" {
        return Err(InvalidArgument);
      }
      var committed: bool := *;
      if !committed {
        return Err(Io);
      }
      if Consistent(RowsOf(name)) {
        PullKeepsConsistent(RowsOf(name), reference, now);
      }
      PulledMeans(RowsOf(name), reference, now);
      hide Consistent;
      hide Pulled;
      Save(name, Pulled(RowsOf(name), reference, now));
      return Ok(());
    }

    method DeleteRepository(name: string) returns (r: Result<()>)
      modifies this
      ensures r.Err? ==> unchanged(this)
      ensures if old(RowsOf(name)).repository.None? then r == Err(NotFound) || r == Err(Io) else r.Ok? || r == Err(Io)
      ensures r.Ok? ==> RowsOf(name) == NO_ROWS && old(RowsOf(name)).repository.Some?
      ensures OthersKept(name)
    {
      var committed: bool := *;
      if !committed {
        return Err(Io);
      }
      if name !in repositories {
        return Err(NotFound);
      }
      Save(name, NO_ROWS);
      return Ok(());
    }

    // ---------------------------------------------------------------- dashboard

    ghost predicate AllConsistent()
      reads this
    {
      forall n :: Consistent(RowsOf(n))
    }

    ghost function StoredTagCounts(): map<string, nat>
      reads this
    {
      map n | n in repositories :: repositories[n].tagCount
    }

    ghost function TagTotals(): map<string, nat>
      reads this
    {
      map n | n in tags :: |tags[n]|
    }

    ghost function ManifestBytes(): map<string, nat>
      reads this
    {
      map n | n in repositories :: TotalSize(TagsOf(n))
    }

    /**
     The dashboard counts repository rows and tag rows, and adds up the size column. In a consistent read
     model the tag count is the sum of the stored tag counts, and the size is the sum, over all repositories,
     of the largest recorded size of each distinct manifest.
     */
    method DashboardSummary() returns (count: nat, tagCount: nat, bytes: nat)
      requires AllConsistent()
      ensures count == |repositories|
      ensures tagCount == Sum(TagTotals()) == Sum(StoredTagCounts())
      ensures bytes == Sum(ManifestBytes())
    {
      count := |repositories|;
      tagCount := CountTagRows();
      bytes := AddSizes();
      StoredSizesAreExact();
      EmptyNamesAddNothing();
    }

    method CountTagRows() returns (total: nat)
      ensures total == Sum(TagTotals())
    {
      total := 0;
      var left := tags.Keys;
      ghost var totals := TagTotals();
      SumEnds(totals);
      hide SumOutside;
      while left != {}
        invariant left <= tags.Keys && total == SumOutside(totals, left)
        decreases |left|
      {
        var n :| n in left;
        SumStep(totals, left, n);
        total := total + |tags[n]|;
        left := left - {n};
      }
    }

    /** The size column. */
    ghost function StoredSizes(): map<string, nat>
      reads this
    {
      map n | n in repositories :: repositories[n].size
    }

    method AddSizes() returns (total: nat)
      ensures total == Sum(StoredSizes())
    {
      total := 0;
      var left := repositories.Keys;
      ghost var sizes := StoredSizes();
      SumEnds(sizes);
      hide SumOutside;
      while left != {}
        invariant left <= repositories.Keys && total == SumOutside(sizes, left)
        decreases |left|
      {
        var n :| n in left;
        SumStep(sizes, left, n);
        total := total + repositories[n].size;
        left := left - {n};
      }
    }

    lemma StoredSizesAreExact()
      requires AllConsistent()
      ensures StoredSizes() == ManifestBytes()
    {
      forall n | n in repositories ensures TotalSize(TagsOf(n)) == repositories[n].size {
        assert Consistent(RowsOf(n));
      }
    }

    /** The tag rows of names without a repository row, of which there are none, add nothing. */
    lemma EmptyNamesAddNothing()
      requires AllConsistent()
      ensures Sum(TagTotals()) == Sum(StoredTagCounts())
    {
      forall n ensures n in repositories ==> repositories[n].tagCount == |TagsOf(n)|
               ensures n !in repositories ==> TagsOf(n) == map[]
      {
        assert Consistent(RowsOf(n));
      }
      SameSum(TagTotals(), StoredTagCounts(), tags.Keys + repositories.Keys);
    }

    /** The sum over the keys already dealt with. */
    static ghost function SumOutside(m: map<string, nat>, left: set<string>): nat {
      Sum(m - left)
    }

    static lemma {:induction false} SumEnds(m: map<string, nat>)
      ensures SumOutside(m, m.Keys) == 0 && SumOutside(m, {}) == Sum(m)
    {
      assert m - m.Keys == map[] && m - {} == m;
    }

    static lemma SumStep(m: map<string, nat>, left: set<string>, n: string)
      requires n in left && n in m
      ensures SumOutside(m, left - {n}) == SumOutside(m, left) + m[n]
    {
      SumRemove(m - (left - {n}), n);
      assert m - (left - {n}) - {n} == m - left;
    }

    static function ValueAt(m: map<string, nat>, n: string): nat {
      if n in m then m[n] else 0
    }

    static lemma {:induction false} SumWithout(m: map<string, nat>, n: string)
      ensures Sum(m) == ValueAt(m, n) + Sum(m - {n})
    {
      if n in m {
        SumRemove(m, n);
      } else {
        assert m - {n} == m;
      }
    }

    static lemma WithoutAt(m: map<string, nat>, k: map<string, nat>, n: string)
      requires forall x :: ValueAt(m, x) == ValueAt(k, x)
      ensures forall x :: ValueAt(m - {n}, x) == ValueAt(k - {n}, x)
    {
      forall x ensures ValueAt(m - {n}, x) == ValueAt(k - {n}, x) {
        assert ValueAt(m, x) == ValueAt(k, x);
      }
    }

    /** Two sums agree when their maps do, reading a missing key as zero. */
    static lemma {:induction false} SameSum(m: map<string, nat>, k: map<string, nat>, keys: set<string>)
      requires m.Keys <= keys && k.Keys <= keys
      requires forall n :: ValueAt(m, n) == ValueAt(k, n)
      ensures Sum(m) == Sum(k)
      decreases keys
    {
      if keys != {} {
        var n :| n in keys;
        SumWithout(m, n);
        SumWithout(k, n);
        WithoutAt(m, k, n);
        assert ValueAt(m, n) == ValueAt(k, n);
        SameSum(m - {n}, k - {n}, keys - {n});
      } else {
        assert m == map[] && k == map[];
      }
    }
  }
}
