/**
 The reference-counted table of upload locks (internal/storage/filesystem.go:32-92) under any interleaving of
 any number of goroutines. The two sections under the table mutex are single steps; so are taking and
 dropping the mutex of an entry.
 */
module UploadLocks {
  import opened Wrappers

  /** One entry: the path it was made for, how many goroutines are registered, and which of them has its mutex. */
  datatype Entry = Entry(path: string, refs: int, holder: Option<nat>)

  datatype Phase = Waiting | Holding | Leaving

  /** A goroutine between registering and unregistering, with the entry it was given. */
  datatype User = User(path: string, entry: nat, phase: Phase)

  /** Entries are numbered in the order they are made; the table names some of them. */
  datatype Locks = Locks(table: map<string, nat>, entries: seq<Entry>, users: map<nat, User>)

  const UNUSED := Locks(map[], [], map[])

  datatype Step =
    | Register(p: nat, path: string)
    | Acquire(p: nat)
    | Unlock(p: nat)
    | Unregister(p: nat)

  predicate Enabled(s: Locks, step: Step) {
    if step.Register? then
      step.p !in s.users && (step.path in s.table ==> s.table[step.path] < |s.entries|)
    else
      && step.p in s.users
      && var u := s.users[step.p];
         && u.entry < |s.entries|
         && match step
            case Acquire(p) => u.phase == Waiting && s.entries[u.entry].holder.None?
            case Unlock(p) => u.phase == Holding
            case Unregister(p) => u.phase == Leaving
  }

  function WithEntry(s: Locks, path: string): Locks {
    if path in s.table then s
    else s.(table := s.table[path := |s.entries|], entries := s.entries + [Entry(path, 0, None)])
  }

  function CountedIn(s: Locks, p: nat, path: string): Locks
    requires path in s.table && s.table[path] < |s.entries|
  {
    var e := s.table[path];
    s.(entries := s.entries[e := s.entries[e].(refs := s.entries[e].refs + 1)], users := s.users[p := User(path, e, Waiting)])
  }

  function Apply(s: Locks, step: Step): Locks
    requires Enabled(s, step)
  {
    match step
    case Register(p, path) =>
      CountedIn(WithEntry(s, path), p, path)
    case Acquire(p) =>
      var u := s.users[p];
      s.(entries := s.entries[u.entry := s.entries[u.entry].(holder := Some(p))], users := s.users[p := u.(phase := Holding)])
    case Unlock(p) =>
      var u := s.users[p];
      s.(entries := s.entries[u.entry := s.entries[u.entry].(holder := None)], users := s.users[p := u.(phase := Leaving)])
    case Unregister(p) =>
      var u := s.users[p];
      var refs := s.entries[u.entry].refs - 1;
      Locks(if refs == 0 then s.table - {u.path} else s.table,
            s.entries[u.entry := s.entries[u.entry].(refs := refs)],
            s.users - {p})
  }

  /** What a step does to the goroutine that takes it; every other one stays where it is. */
  lemma UsersAfter(s: Locks, step: Step)
    requires Enabled(s, step)
    ensures Apply(s, step).users.Keys == if step.Unregister? then s.users.Keys - {step.p} else s.users.Keys + {step.p}
    ensures forall q :: q in s.users && q != step.p ==> q in Apply(s, step).users && Apply(s, step).users[q] == s.users[q]
    ensures step.Register? ==>
      Apply(s, step).users[step.p].path == step.path && Apply(s, step).users[step.p].phase == Waiting
    ensures !step.Register? ==> step.p in s.users
    ensures step.Acquire? ==> s.users[step.p].phase == Waiting
    ensures step.Unlock? ==> s.users[step.p].phase == Holding
    ensures step.Unregister? ==> s.users[step.p].phase == Leaving
    ensures step.Acquire? || step.Unlock? ==>
      && Apply(s, step).users[step.p].path == s.users[step.p].path
      && Apply(s, step).users[step.p].phase == if step.Acquire? then Holding else Leaving
  {
  }

  // ---------------------------------------------------------------- what every step keeps

  function UsersOf(users: map<nat, User>, e: nat): set<nat> {
    set p | p in users && users[p].entry == e
  }

  /** All live users of a path share the one entry the table has for it. */
  ghost predicate Shared(s: Locks) {
    forall p :: p in s.users ==> s.users[p].path in s.table && s.table[s.users[p].path] == s.users[p].entry
  }

  ghost predicate Numbered(s: Locks) {
    forall path :: path in s.table ==> s.table[path] < |s.entries| && s.entries[s.table[path]].path == path
  }

  /** The count of an entry is the number of goroutines registered with it. */
  ghost predicate Counted(s: Locks) {
    forall e: nat :: e < |s.entries| ==> s.entries[e].refs == |UsersOf(s.users, e)|
  }

  ghost predicate Used(s: Locks) {
    forall path :: path in s.table ==> s.table[path] < |s.entries| && s.entries[s.table[path]].refs > 0
  }

  ghost predicate Held(s: Locks) {
    && (forall p :: p in s.users && s.users[p].phase == Holding ==>
          s.users[p].entry < |s.entries| && s.entries[s.users[p].entry].holder == Some(p))
    && (forall e: nat :: e < |s.entries| && s.entries[e].holder.Some? ==>
          var p := s.entries[e].holder.value;
          p in s.users && s.users[p].entry == e && s.users[p].phase == Holding)
  }

  ghost predicate Inv(s: Locks) {
    Shared(s) && Numbered(s) && Counted(s) && Used(s) && Held(s)
  }

  lemma UsersRise(s: map<nat, User>, p: nat, u: User, e: nat)
    requires p !in s
    ensures UsersOf(s[p := u], e) == if u.entry == e then UsersOf(s, e) + {p} else UsersOf(s, e)
    ensures |UsersOf(s[p := u], e)| == |UsersOf(s, e)| + if u.entry == e then 1 else 0
  {
    var a, b := UsersOf(s, e), UsersOf(s[p := u], e);
    if u.entry == e {
      assert b == a + {p};
    } else {
      assert b == a;
    }
  }

  lemma UsersFall(s: map<nat, User>, p: nat, e: nat)
    requires p in s
    ensures UsersOf(s - {p}, e) == UsersOf(s, e) - {p}
    ensures |UsersOf(s - {p}, e)| == |UsersOf(s, e)| - if s[p].entry == e then 1 else 0
  {
    var a, b := UsersOf(s, e), UsersOf(s - {p}, e);
    assert b == a - {p};
  }

  lemma UsersStay(s: map<nat, User>, p: nat, u: User, e: nat)
    requires p in s && u.entry == s[p].entry
    ensures UsersOf(s[p := u], e) == UsersOf(s, e)
  {
  }

  /** Everything but that the entry of `path` is in use. */
  ghost predicate InvBut(s: Locks, path: string) {
    && Shared(s) && Numbered(s) && Counted(s) && Held(s)
    && forall q :: q in s.table && q != path ==> s.table[q] < |s.entries| && s.entries[s.table[q]].refs > 0
  }

  lemma CountingInKeepsCounts(s: Locks, p: nat, path: string)
    requires InvBut(s, path) && p !in s.users && path in s.table && s.table[path] < |s.entries|
    ensures Counted(CountedIn(s, p, path)) && Used(CountedIn(s, p, path))
  {
    var k := CountedIn(s, p, path);
    var e := s.table[path];
    forall f: nat ensures |UsersOf(k.users, f)| == |UsersOf(s.users, f)| + if f == e then 1 else 0 {
      UsersRise(s.users, p, User(path, e, Waiting), f);
    }
    hide UsersOf;
  }

  lemma CountingInKeepsTable(s: Locks, p: nat, path: string)
    requires InvBut(s, path) && p !in s.users && path in s.table && s.table[path] < |s.entries|
    ensures Shared(CountedIn(s, p, path)) && Numbered(CountedIn(s, p, path))
  {
    hide UsersOf;
    hide Held;
    hide Counted;
  }

  lemma CountingInKeepsHolders(s: Locks, p: nat, path: string)
    requires Held(s) && p !in s.users && path in s.table && s.table[path] < |s.entries|
    ensures Held(CountedIn(s, p, path))
  {
  }

  lemma RegisterKeeps(s: Locks, step: Step)
    requires step.Register? && Enabled(s, step) && Inv(s)
    ensures Inv(Apply(s, step))
  {
    var k := WithEntry(s, step.path);
    if step.path !in s.table {
      assert UsersOf(s.users, |s.entries|) == {};
      assert Counted(k);
      hide UsersOf;
    }
    CountingInKeepsCounts(k, step.p, step.path);
    CountingInKeepsTable(k, step.p, step.path);
    CountingInKeepsHolders(k, step.p, step.path);
  }

  lemma MutexKeepsCounts(s: Locks, step: Step)
    requires (step.Acquire? || step.Unlock?) && Enabled(s, step) && Inv(s)
    ensures Counted(Apply(s, step)) && Used(Apply(s, step))
  {
    var k := Apply(s, step);
    forall f: nat ensures UsersOf(k.users, f) == UsersOf(s.users, f) {
      UsersStay(s.users, step.p, k.users[step.p], f);
    }
    hide UsersOf;
  }

  lemma UnregisterKeepsCounts(s: Locks, step: Step)
    requires step.Unregister? && Enabled(s, step) && Inv(s)
    ensures Counted(Apply(s, step)) && Used(Apply(s, step))
  {
    var k := Apply(s, step);
    forall f: nat
      ensures |UsersOf(k.users, f)| == |UsersOf(s.users, f)| - if s.users[step.p].entry == f then 1 else 0
    {
      UsersFall(s.users, step.p, f);
    }
    hide UsersOf;
  }

  lemma TwoUsers(s: Locks, p: nat, q: nat)
    requires Inv(s) && p in s.users && q in s.users && p != q && s.users[p].entry == s.users[q].entry < |s.entries|
    ensures s.entries[s.users[p].entry].refs >= 2
  {
    var users := UsersOf(s.users, s.users[p].entry);
    assert p in users && q in users;
    assert |users - {p}| == |users| - 1;
    NonEmpty(users - {p}, q);
  }

  /** The path is dropped from the table only when nobody is left with its entry. */
  lemma UnregisterKeepsSharing(s: Locks, step: Step)
    requires step.Unregister? && Enabled(s, step) && Inv(s)
    ensures Shared(Apply(s, step))
  {
    var u := s.users[step.p];
    forall q | q in s.users && q != step.p && s.users[q].path == u.path
      ensures s.entries[u.entry].refs >= 2
    {
      TwoUsers(s, step.p, q);
    }
    hide UsersOf;
  }

  lemma MutexKeepsTable(s: Locks, step: Step)
    requires (step.Acquire? || step.Unlock?) && Enabled(s, step) && Inv(s)
    ensures Shared(Apply(s, step)) && Numbered(Apply(s, step))
  {
    hide UsersOf;
    hide Held;
    hide Counted;
  }

  lemma MutexKeepsHolders(s: Locks, step: Step)
    requires (step.Acquire? || step.Unlock?) && Enabled(s, step) && Held(s)
    ensures Held(Apply(s, step))
  {
  }

  lemma UnregisterKeepsTable(s: Locks, step: Step)
    requires step.Unregister? && Enabled(s, step) && Inv(s)
    ensures Numbered(Apply(s, step)) && Held(Apply(s, step))
  {
    hide UsersOf;
  }

  lemma StepKeeps(s: Locks, step: Step)
    requires Enabled(s, step) && Inv(s)
    ensures Inv(Apply(s, step))
  {
    match step
    case Register(p, path) => RegisterKeeps(s, step);
    case Acquire(p) => MutexKeepsCounts(s, step); MutexKeepsTable(s, step); MutexKeepsHolders(s, step);
    case Unlock(p) => MutexKeepsCounts(s, step); MutexKeepsTable(s, step); MutexKeepsHolders(s, step);
    case Unregister(p) => UnregisterKeepsCounts(s, step); UnregisterKeepsSharing(s, step); UnregisterKeepsTable(s, step);
  }

  ghost predicate Runs(s: Locks, steps: seq<Step>, k: Locks)
    decreases steps
  {
    if steps == [] then s == k else Enabled(s, steps[0]) && Runs(Apply(s, steps[0]), steps[1..], k)
  }

  lemma {:induction false} RunKeeps(s: Locks, steps: seq<Step>, k: Locks)
    requires Inv(s) && Runs(s, steps, k)
    ensures Inv(k)
    decreases steps
  {
    if steps != [] {
      StepKeeps(s, steps[0]);
      RunKeeps(Apply(s, steps[0]), steps[1..], k);
    }
  }

  /**
   In every reachable state: at most one goroutine holds a path, users of a path share one entry, the count
   of an entry is the number of goroutines registered with it, and a path is in the table exactly while some
   goroutine is registered for it, which is while its count is positive.
   */
  lemma {:induction false} LockTableIsSound(steps: seq<Step>, s: Locks)
    requires Runs(UNUSED, steps, s)
    ensures forall p, q :: p in s.users && q in s.users && s.users[p].path == s.users[q].path ==>
              && s.users[p].entry == s.users[q].entry
              && (s.users[p].phase == Holding && s.users[q].phase == Holding ==> p == q)
    ensures forall path :: path in s.table <==> exists p :: p in s.users && s.users[p].path == path
    ensures forall path :: path in s.table ==>
              && s.table[path] < |s.entries| && s.entries[s.table[path]].refs > 0
              && s.entries[s.table[path]].refs == |set p | p in s.users && s.users[p].path == path|
    ensures forall e: nat :: e < |s.entries| && e !in s.table.Values ==> s.entries[e].refs == 0
    ensures s.users == map[] ==> s.table == map[]
  {
    RunKeeps(UNUSED, steps, s);
    hide Runs;
    hide Counted;
    forall path | path in s.table
      ensures exists p :: p in s.users && s.users[p].path == path
      ensures s.entries[s.table[path]].refs == |set p | p in s.users && s.users[p].path == path|
    {
      PathInUse(s, path);
    }
    forall e: nat | e < |s.entries| && e !in s.table.Values ensures s.entries[e].refs == 0 {
      ForgottenEntry(s, e);
    }
  }

  lemma PathInUse(s: Locks, path: string)
    requires Inv(s) && path in s.table
    ensures exists p :: p in s.users && s.users[p].path == path
    ensures s.entries[s.table[path]].refs == |set p | p in s.users && s.users[p].path == path|
  {
    var e := s.table[path];
    assert UsersOf(s.users, e) != {};
    var p :| p in UsersOf(s.users, e);
    assert s.users[p].path == path;
    assert UsersOf(s.users, e) == set q | q in s.users && s.users[q].path == path;
  }

  lemma ForgottenEntry(s: Locks, e: nat)
    requires Inv(s) && e < |s.entries| && e !in s.table.Values
    ensures s.entries[e].refs == 0
  {
    assert forall p :: p in s.users ==> s.table[s.users[p].path] == s.users[p].entry;
    assert UsersOf(s.users, e) == {};
  }

  lemma NonEmpty(s: set<nat>, x: nat)
    requires x in s
    ensures |s| > 0
  {
  }

  /** Nobody waits on a free or forgotten mutex: a waiter can go ahead, or a goroutine holding its path can let go. */
  lemma NobodyIsStuck(s: Locks, p: nat)
    requires Inv(s) && p in s.users && s.users[p].phase == Waiting
    ensures Enabled(s, Acquire(p)) ||
            exists q :: q in s.users && s.users[q].path == s.users[p].path && s.users[q].phase == Holding && Enabled(s, Unlock(q))
  {
    var e := s.users[p].entry;
    assert e < |s.entries|;
    if s.entries[e].holder.Some? {
      var q := s.entries[e].holder.value;
      assert s.users[q].entry == e && s.table[s.users[q].path] == s.table[s.users[p].path];
    }
  }
}
