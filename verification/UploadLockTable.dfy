/** The upload lock table as the code keeps it (internal/storage/filesystem.go:32-92). */
module UploadLockTable {
  import opened Wrappers
  import opened UploadLocks

  class UploadLock {
    var locked: bool
    var refs: int
    ghost var holder: Option<nat>
    ghost const id: nat
    ghost const path: string

    constructor (ghost id: nat, ghost path: string)
      ensures !locked && refs == 0 && holder == None && this.id == id && this.path == path
    {
      locked, refs, holder := false, 0, None;
      this.id, this.path := id, path;
    }
  }

  /** The lock set; the ghost fields are history variables that name its state in the machine above. */
  class UploadLockSet {
    var locks: map<string, UploadLock>
    ghost var made: seq<UploadLock>
    ghost var users: map<nat, User>

    ghost predicate Valid()
      reads this, made
    {
      && (forall i :: 0 <= i < |made| ==> made[i].id == i)
      && (forall path :: path in locks ==> locks[path] in made)
      && (forall lock :: lock in made ==> lock.locked == lock.holder.Some?)
    }

    ghost function State(): Locks
      requires Valid()
      reads this, made
    {
      Locks(map path | path in locks :: locks[path].id,
            seq(|made|, i requires 0 <= i < |made| reads this, made => Entry(made[i].path, made[i].refs, made[i].holder)), users)
    }

    constructor ()
      ensures Valid() && State() == UNUSED
    {
      locks, made, users := map[], [], map[];
    }

    /** The first section of LockUpload: find or make the entry of the path and count in. */
    method Register(path: string, ghost p: nat) returns (entry: UploadLock)
      requires Valid() && Inv(State()) && p !in users
      modifies this, made
      ensures Valid() && State() == Apply(old(State()), Step.Register(p, path))
      ensures entry in made && users[p] == User(path, entry.id, Waiting)
    {
      hide Inv;
      entry := EntryOf(path);
      ghost var with := State();
      entry.refs := entry.refs + 1;
      users := users[p := User(path, entry.id, Waiting)];
      assert State().table == with.table;
      assert State().entries == CountedIn(with, p, path).entries;
    }

    method EntryOf(path: string) returns (entry: UploadLock)
      requires Valid()
      modifies this
      ensures Valid() && State() == WithEntry(old(State()), path) && fresh(set o | o in made && o !in old(made))
      ensures path in locks && entry == locks[path]
    {
      ghost var before := State();
      if path in locks {
        entry := locks[path];
      } else {
        entry := new UploadLock(|made|, path);
        locks := locks[path := entry];
        made := made + [entry];
        assert State().table == WithEntry(before, path).table;
        assert State().entries == WithEntry(before, path).entries;
      }
    }

    /** The mutex of the entry, once it is free. */
    method Acquire(entry: UploadLock, ghost p: nat)
      requires Valid() && entry in made && !entry.locked
      requires p in users && users[p].entry == entry.id && users[p].phase == Waiting
      modifies this, made
      ensures Valid() && made == old(made) && State() == Apply(old(State()), Step.Acquire(p))
    {
      ghost var before := State();
      assert Enabled(before, Step.Acquire(p));
      entry.locked, entry.holder := true, Some(p);
      users := users[p := users[p].(phase := Holding)];
      assert State().table == before.table;
      assert State().entries == Apply(before, Step.Acquire(p)).entries;
    }

    /** The first line of the release function. */
    method Unlock(entry: UploadLock, ghost p: nat)
      requires Valid() && entry in made
      requires p in users && users[p].entry == entry.id && users[p].phase == Holding
      modifies this, made
      ensures Valid() && made == old(made) && State() == Apply(old(State()), Step.Unlock(p))
    {
      ghost var before := State();
      assert Enabled(before, Step.Unlock(p));
      entry.locked, entry.holder := false, None;
      users := users[p := users[p].(phase := Leaving)];
      assert State().table == before.table;
      assert State().entries == Apply(before, Step.Unlock(p)).entries;
    }

    /** The second section: count out, and drop the path from the table with its last user. */
    method Unregister(path: string, entry: UploadLock, ghost p: nat)
      requires Valid() && entry in made
      requires p in users && users[p] == User(path, entry.id, Leaving)
      modifies this, made
      ensures Valid() && made == old(made) && State() == Apply(old(State()), Step.Unregister(p))
    {
      ghost var before := State();
      assert Enabled(before, Step.Unregister(p));
      entry.refs := entry.refs - 1;
      if entry.refs == 0 {
        locks := locks - {path};
      }
      users := users - {p};
      assert State().table == Apply(before, Step.Unregister(p)).table;
      assert State().entries == Apply(before, Step.Unregister(p)).entries;
    }
  }
}
