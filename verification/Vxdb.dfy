/** User records and requests of the database layer (src/include/vitalnix/libvxdb/libvxdb.h). */
module Vxdb {
  import opened Prelude

  const NOGID: u32 := 0xFFFF_FFFF
  const NO_EXPIRE := -1
  const NO_INACTIVE := -1

  /** The account fields that synchronisation neither reads nor changes. */
  datatype Account = Account(
    real_: string, home: string, shell: string,
    passwd: Option<string>, lastchg: int, min: int, max: int, warn: int, expire: int, inact: int,
    passwdTail: string, shadowTail: string)

  datatype User = User(
    name: string, uid: u32, gid: u32, igrp: Option<string>, account: Account,
    uuid: Option<string>, pvgrp: Option<string>, defer: u32)

  datatype Group = Group(name: Option<string>, gid: u32)

  datatype IdRequest = AutoSystem | Auto | Exactly(id: u32)

  datatype Status = Success | EPERM | EEXIST | ENOENT | ENOSPC | EROFS

  /** A modification request; a field that is None stays as it is. */
  datatype ModMask = ModMask(
    name: Option<string>, uid: Option<u32>, gid: Option<u32>, account: Option<Account>,
    uuid: Option<string>, pvgrp: Option<string>, defer: Option<u32>)

  const NO_MODIFY := ModMask(None, None, None, None, None, None, None)

  function Or<T>(change: Option<T>, current: T): T {
    if change.Some? then change.value else current
  }

  function Modified(u: User, mask: ModMask): User {
    User(Or(mask.name, u.name), Or(mask.uid, u.uid), Or(mask.gid, u.gid), u.igrp, Or(mask.account, u.account),
         if mask.uuid.Some? then mask.uuid else u.uuid,
         if mask.pvgrp.Some? then mask.pvgrp else u.pvgrp,
         Or(mask.defer, u.defer))
  }

  /** Every field that the request names gets the requested value, and every other one stays; the primary
      group name cannot be changed. */
  lemma ModifiedFields(u: User, mask: ModMask)
    ensures var v := Modified(u, mask);
            && (if mask.name.Some? then Some(v.name) == mask.name else v.name == u.name)
            && (if mask.uid.Some? then Some(v.uid) == mask.uid else v.uid == u.uid)
            && (if mask.gid.Some? then Some(v.gid) == mask.gid else v.gid == u.gid)
            && (if mask.account.Some? then Some(v.account) == mask.account else v.account == u.account)
            && (if mask.uuid.Some? then v.uuid == mask.uuid else v.uuid == u.uuid)
            && (if mask.pvgrp.Some? then v.pvgrp == mask.pvgrp else v.pvgrp == u.pvgrp)
            && (if mask.defer.Some? then Some(v.defer) == mask.defer else v.defer == u.defer)
            && v.igrp == u.igrp
    ensures Modified(u, ModMask(None, None, None, None, None, None, None)) == u
  {
  }

  // ---------- Lists of users ----------

  predicate UniqueNames(us: seq<User>) {
    forall i, j :: 0 <= i < j < |us| ==> us[i].name != us[j].name
  }

  function NameSet(us: seq<User>): set<string> { set u | u in us :: u.name }

  function UidSet(us: seq<User>): set<u32> { set u | u in us :: u.uid }

  /** Position of the first user called `name`; the length of the list if there is none. */
  function FirstIndex(us: seq<User>, name: string): (i: nat)
    ensures i <= |us| && (i < |us| ==> us[i].name == name)
    ensures forall j :: 0 <= j < i ==> us[j].name != name
  {
    if us == [] || us[0].name == name then 0 else 1 + FirstIndex(us[1..], name)
  }

  function Find(us: seq<User>, name: string): Option<User> {
    var i := FirstIndex(us, name);
    if i < |us| then Some(us[i]) else None
  }

  lemma {:induction false} FindConcat(us: seq<User>, vs: seq<User>, name: string)
    ensures Find(us + vs, name) == if Find(us, name).Some? then Find(us, name) else Find(vs, name)
  {
    if us == [] {
      assert us + vs == vs;
    } else {
      assert (us + vs)[1..] == us[1..] + vs;
      FindConcat(us[1..], vs, name);
    }
  }

  method LookupUser(us: seq<User>, name: string) returns (i: nat)
    ensures i == FirstIndex(us, name)
  {
    i := 0;
    while i < |us| && us[i].name != name
      invariant i <= |us| && i + FirstIndex(us[i..], name) == FirstIndex(us, name)
    {
      assert us[i..][1..] == us[i + 1..];
      i := i + 1;
    }
  }

  /** The first id in [lo, hi] outside `used`. */
  function FirstFreeId(used: set<u32>, lo: int, hi: u32): (r: Option<u32>)
    requires 0 <= lo <= hi + 1
    ensures r.Some? ==> lo <= r.value <= hi && r.value !in used && forall i :: lo <= i < r.value ==> i in used
    ensures r.None? <==> forall i :: lo <= i <= hi ==> i in used
    decreases hi + 1 - lo
  {
    if lo > hi then None
    else if lo !in used then Some(lo)
    else FirstFreeId(used, lo + 1, hi)
  }

  /** In range and unused; and no id only if every id in range is used. */
  predicate RightChoice(us: seq<User>, lo: int, hi: u32, r: Option<u32>) {
    if r.Some? then lo <= r.value <= hi && r.value !in UidSet(us)
    else forall id: u32 :: lo <= id <= hi ==> id in UidSet(us)
  }
}
