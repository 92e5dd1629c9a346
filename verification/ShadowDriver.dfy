/** The shadow back-end's in-memory database (src/drivers/shadow/shadow.c, aux.c). */
module ShadowDriver {
  import opened Prelude
  import opened Vxdb

  /** A NIS compatibility entry is skipped by traversals. */
  predicate IsNis(name: string) { name != [] && (name[0] == '+' || name[0] == '-') }

  /** First position from `i` on that is not a NIS entry. */
  function SkipNis(us: seq<User>, i: nat): (k: nat)
    requires i <= |us|
    ensures i <= k <= |us| && (k < |us| ==> !IsNis(us[k].name))
    ensures forall j :: i <= j < k ==> IsNis(us[j].name)
    decreases |us| - i
  {
    if i == |us| || !IsNis(us[i].name) then i else SkipNis(us, i + 1)
  }

  /** The configured range of ids for ordinary users; system ids lie below it. */
  datatype IdRange = IdRange(min: u32, max: u32) {
    /** The range starts above 0 and ends below the largest unsigned value. */
    predicate Valid() { 0 < min && max < 0xFFFF_FFFF }

    function Low(wanted: IdRequest): u32 { if wanted == AutoSystem then 1 else min }

    function High(wanted: IdRequest): u32
      requires Valid()
    {
      if wanted == AutoSystem then min - 1 else max
    }

    /** The id a new user gets: the one asked for, or the lowest unused one of its range. */
    function FreeUid(us: seq<User>, wanted: IdRequest): (r: Option<u32>)
      requires Valid()
      ensures wanted.Exactly? ==> r == Some(wanted.id)
      ensures !wanted.Exactly? ==> RightChoice(us, Low(wanted), High(wanted), r)
    {
      if wanted.Exactly? then Some(wanted.id)
      else if Low(wanted) > High(wanted) then None
      else FirstFreeId(UidSet(us), Low(wanted), High(wanted))
    }

    function AddStatus(us: seq<User>, writable: bool, rq: User, wanted: IdRequest): Status
      requires Valid()
    {
      if FirstIndex(us, rq.name) < |us| then EEXIST
      else if !writable then EPERM
      else if FreeUid(us, wanted).None? then ENOSPC
      else Success
    }

    /** The stored user: no primary group name, and a clear deferral timer. */
    function Added(us: seq<User>, rq: User, wanted: IdRequest): User
      requires Valid() && FreeUid(us, wanted).Some?
    {
      rq.(uid := FreeUid(us, wanted).value, igrp := None, defer := 0)
    }
  }

  ghost predicate IdTaken(us: seq<User>, id: int) { exists u :: u in us && u.uid == id }

  ghost predicate NameTaken(us: seq<User>, name: string) { exists u :: u in us && u.name == name }

  lemma TakenIsUsed(us: seq<User>, id: u32)
    ensures IdTaken(us, id) <==> id in UidSet(us)
  {
  }

  /** The lowest unused id of the range: system ids from 1 to below the configured minimum, and others from
      the minimum to the maximum. */
  lemma LowestId(range: IdRange, us: seq<User>, wanted: IdRequest)
    requires range.Valid() && !wanted.Exactly?
    ensures var r := range.FreeUid(us, wanted);
            var lo := if wanted.AutoSystem? then 1 else range.min;
            var hi := if wanted.AutoSystem? then range.min - 1 else range.max;
            if r.Some?
            then lo <= r.value <= hi && !IdTaken(us, r.value) && forall id :: lo <= id < r.value ==> IdTaken(us, id)
            else forall id :: lo <= id <= hi ==> IdTaken(us, id)
  {
    hide IdTaken, UidSet;
    forall id: u32 ensures IdTaken(us, id) <==> id in UidSet(us) { TakenIsUsed(us, id); }
    forall id | range.Low(wanted) <= id <= range.High(wanted)
      ensures IdTaken(us, id) <==> id in UidSet(us)
    {
      var x: u32 := id;
    }
  }

  /** When an addition fails, and with what: a taken name, a read-only database, no id left. */
  lemma AddFails(range: IdRange, us: seq<User>, writable: bool, rq: User)
    requires range.Valid()
    ensures var st, taken := range.AddStatus(us, writable, rq, Auto), NameTaken(us, rq.name);
            && (st == EEXIST <==> taken) && (st == EPERM <==> !writable && !taken)
            && (st == ENOSPC <==> writable && !taken && forall id :: range.min <= id <= range.max ==> IdTaken(us, id))
            && st in {Success, EEXIST, EPERM, ENOSPC}
  {
    hide IdTaken;
    var i := FirstIndex(us, rq.name);
    if i < |us| { assert us[i] in us; }
    if u :| u in us && u.name == rq.name {
      var j :| 0 <= j < |us| && us[j] == u;
    }
    LowestId(range, us, Auto);
  }

  /** The stored user is the requested one but for its id, the primary group name, which is not stored, and
      the timer, which starts out clear. */
  lemma AddedFields(range: IdRange, us: seq<User>, rq: User, wanted: IdRequest)
    requires range.Valid() && range.FreeUid(us, wanted).Some?
    ensures var v := range.Added(us, rq, wanted);
            && v.name == rq.name && v.gid == rq.gid && v.account == rq.account && v.uuid == rq.uuid
            && v.pvgrp == rq.pvgrp && v.igrp == None && v.defer == 0
            && (wanted.Exactly? ==> v.uid == wanted.id)
            && (!wanted.Exactly? ==> !IdTaken(us, v.uid))
  {
    if !wanted.Exactly? { LowestId(range, us, wanted); }
  }

  class ShadowDb {
    var users: seq<User>
    var writable: bool
    const range: IdRange

    constructor (users: seq<User>, writable: bool, range: IdRange)
      ensures this.users == users && this.writable == writable && this.range == range
    {
      this.users, this.writable, this.range := users, writable, range;
    }

    /** None stands for -ENOSPC, which the source returns through an unsigned integer. */
    method AutomaticUid(wanted: IdRequest) returns (r: Option<u32>)
      requires range.Valid()
      ensures r == range.FreeUid(users, wanted)
    {
      if wanted.Exactly? { return Some(wanted.id); }
      var accept: int, min, max := range.Low(wanted), range.Low(wanted), range.High(wanted);

      // `high` is a signed -1 compared with unsigned ids, so no id ever exceeds it.
      var high: int := -1;
      for i := 0 to |users|
        invariant high == -1
      {
        var uid := users[i].uid;
        if uid >= min && uid <= max && uid > high % 0x1_0000_0000 {
          high := uid;
        }
      }
      if high >= 0 && high < max {
        assert false;
      }

      while accept <= max
        invariant min <= accept
        invariant min <= max + 1 ==> accept <= max + 1
        invariant accept <= max + 1 ==> FirstFreeId(UidSet(users), accept, max) == FirstFreeId(UidSet(users), min, max)
      {
        var used := false;
        var i := 0;
        while i < |users|
          invariant 0 <= i <= |users| && !used
          invariant forall j :: 0 <= j < i ==> users[j].uid != accept
        {
          if users[i].uid == accept {
            used := true;
            break;
          }
          i := i + 1;
        }
        if !used { return Some(accept); }
        assert users[i] in users;
        accept := accept + 1;
      }
      return None;
    }

    method GetPwnam(name: string) returns (r: Option<User>)
      ensures r == Find(users, name)
    {
      var i := LookupUser(users, name);
      r := if i < |users| then Some(users[i]) else None;
    }

    method UserAdd(rq: User, id: IdRequest) returns (st: Status)
      requires range.Valid()
      modifies this`users
      ensures st == range.AddStatus(old(users), writable, rq, id)
      ensures users == if st == Success then old(users) + [range.Added(old(users), rq, id)] else old(users)
    {
      var i := LookupUser(users, rq.name);
      if i < |users| { return EEXIST; }
      if !writable { return EPERM; }
      var uid := AutomaticUid(id);
      if uid.None? { return ENOSPC; }
      // The primary group name is not stored, and the deferral timer starts out clear.
      users := users + [rq.(uid := uid.value, igrp := None, defer := 0)];
      return Success;
    }

    method UserMod(name: string, mask: ModMask) returns (st: Status)
      modifies this`users
      ensures st == if !writable then EPERM
                    else if FirstIndex(old(users), name) == |old(users)| then ENOENT
                    else Success
      ensures users == if st == Success then
                         var i := FirstIndex(old(users), name);
                         old(users)[i := Modified(old(users)[i], mask)]
                       else old(users)
    {
      if !writable { return EPERM; }
      var i := LookupUser(users, name);
      if i == |users| { return ENOENT; }
      users := users[i := Modified(users[i], mask)];
      return Success;
    }

    method UserDel(name: string) returns (st: Status)
      modifies this`users
      ensures st == if !writable then EPERM
                    else if FirstIndex(old(users), name) == |old(users)| then ENOENT
                    else Success
      ensures users == if st == Success then
                         var i := FirstIndex(old(users), name);
                         old(users)[..i] + old(users)[i + 1..]
                       else old(users)
    {
      if !writable { return EPERM; }
      var i := LookupUser(users, name);
      if i == |users| { return ENOENT; }
      users := users[..i] + users[i + 1..];
      return Success;
    }
  }

  /** A traversal: `wp` is the position of the user that is delivered next. */
  class Traverser {
    const db: ShadowDb
    var wp: nat

    predicate Valid()
      reads this, db
    {
      wp <= |db.users| && (wp < |db.users| ==> !IsNis(db.users[wp].name))
    }

    constructor (db: ShadowDb)
      ensures this.db == db && Valid() && wp == SkipNis(db.users, 0)
    {
      this.db := db;
      this.wp := SkipNis(db.users, 0);
    }

    method Walk() returns (r: Option<User>)
      requires Valid()
      modifies this`wp
      ensures Valid()
      ensures old(wp) == |db.users| ==> r == None && wp == old(wp)
      ensures old(wp) < |db.users| ==> r == Some(db.users[old(wp)]) && wp == SkipNis(db.users, old(wp) + 1)
    {
      if wp == |db.users| { return None; }
      r := Some(db.users[wp]);
      wp := SkipNis(db.users, wp + 1);
    }
  }
}
