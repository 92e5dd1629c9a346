/** The synchronisation workspace (src/libvxmdsync): reading the external list, comparing it with the
    database, allotting names, and applying the changes. */
module SyncEngine {
  import opened Prelude
  import opened OrderedMap
  import opened Vxdb
  import opened ShadowDriver
  import opened LoginNames
  import opened SyncSpec
  import opened SyncOps

  class Workspace {
    const cfg: Config

    var addReq: Eds
    var updateReq: OMap<User>
    var lnlist: set<string>
    var deferStart: seq<string>
    var deferWait: seq<string>
    var deferStop: seq<string>
    var deleteNow: seq<string>
    var numGrp: nat

    constructor (cfg: Config)
      ensures this.cfg == cfg && State() == Lists(Nil, Nil, {}, [], [], [], [], 0)
    {
      this.cfg := cfg;
      addReq, updateReq, lnlist := Nil, Nil, {};
      deferStart, deferWait, deferStop, deleteNow, numGrp := [], [], [], [], 0;
    }

    function State(): Lists
      reads this
    {
      Lists(addReq, updateReq, lnlist, deferStart, deferWait, deferStop, deleteNow, numGrp)
    }

    /** The body of the comparison loop; false stands for the abort on a repeated name. */
    method CompareUser(pwd: User, today: u32) returns (ok: bool)
      modifies this
      ensures ok <==> pwd.name !in old(lnlist)
      ensures ok ==> State() == CompareOne(old(State()), pwd, cfg, today)
    {
      if pwd.name in lnlist { return false; }
      lnlist := lnlist + {pwd.name};
      var analyze := (cfg.group.gid != NOGID && cfg.group.gid == pwd.gid) ||
                     (cfg.group.name.Some? && pwd.igrp.Some? && cfg.group.name == pwd.igrp);
      if !analyze { return true; }

      var eds := if pwd.uuid.Some? then Lookup(addReq, pwd.uuid.value) else None;
      var decision := Verdict(eds.Some?, pwd.defer, cfg.deferDays, today);
      numGrp := numGrp + 1;
      if decision == Keep || decision == KeepStop {
        if eds.value.pvgrp != pwd.uuid.value {
          updateReq := Put(updateReq, pwd.uuid.value, pwd.(pvgrp := Some(eds.value.pvgrp)));
        }
        addReq := Del(addReq, pwd.uuid.value);
      }
      match decision {
        case Start => deferStart := deferStart + [pwd.name];
        case Wait => deferWait := deferWait + [pwd.name];
        case KeepStop => deferStop := deferStop + [pwd.name];
        case DeleteNow => deleteNow := deleteNow + [pwd.name];
        case _ =>
      }
      return true;
    }

    /** Returns false where the program aborts: a login name was delivered twice. */
    method Compare(db: ShadowDb, today: u32) returns (ok: bool)
      requires State() == Lists(addReq, Nil, {}, [], [], [], [], 0) && Sorted(addReq)
      modifies this
      ensures ok <==> NoRepeats(db.users, |db.users|)
      ensures ok ==> State() == ListsAt(db.users, |db.users|, Job(cfg, db.range, today, old(addReq)))
    {
      ghost var us, job := db.users, Job(cfg, db.range, today, addReq);
      var travp := new Traverser(db);
      WithoutNothing(addReq, {});
      NisSkipped(us, 0, travp.wp, job);
      while true
        invariant travp.Valid() && travp.db == db && db.users == us && fresh(travp)
        invariant State() == ListsAt(us, travp.wp, job) && NoRepeats(us, travp.wp)
        decreases |us| - travp.wp
      {
        ghost var n := travp.wp;
        var pwd := travp.Walk();
        if pwd.None? { return true; }
        ok := CompareUser(pwd.value, today);
        if !ok {
          RepeatsStay(us, n + 1, |us|);
          return false;
        }
        CompareStep(us, n, job);
        NisSkipped(us, n + 1, travp.wp, job);
      }
    }

    /** Returns false where the program aborts: no variant of some name is free. */
    method Fixup() returns (ok: bool)
      requires Sorted(addReq)
      modifies this`addReq, this`lnlist
      ensures ok <==> Allot(old(addReq), old(lnlist)).Some?
      ensures ok ==> Some(addReq) == Allot(old(addReq), old(lnlist)) && lnlist == old(lnlist) + Names(addReq)
    {
      ghost var done: Eds := Nil;
      var node := addReq;
      while node.Node?
        invariant addReq == Append(done, node) && Sorted(addReq)
        invariant lnlist == old(lnlist) + Names(done)
        invariant Allotting(old(addReq), old(lnlist), done, node, lnlist)
        decreases node
      {
        var entry := node.val;
        var name := FindFree(entry.username, lnlist);
        if name.None? { return false; }
        var renamed := entry.(username := name.value);
        PutInside(done, node.key, entry, node.next, renamed);
        addReq := Put(addReq, node.key, renamed);
        ghost var taken := lnlist;
        lnlist := lnlist + {name.value};
        ghost var cell := Node(node.key, renamed, Nil);
        AppendAssociative(done, cell, node.next);
        AllotStep(old(addReq), old(lnlist), done, node, taken);
        NamesAppend(done, cell);
        done := Append(done, cell);
        node := node.next;
      }
      AppendNil(done);
      return true;
    }

    /** Stops at the first addition that fails; `count` additions were made. */
    method Add(db: ShadowDb) returns (ok: bool, count: nat)
      requires db.range.Valid()
      modifies db`users
      ensures ok <==> count == Size(addReq)
      ensures count <= Size(addReq) && AddFirst(old(db.users), addReq, count, cfg, db.range) == Some(db.users)
      ensures if db.writable then !ok ==> AddFirst(old(db.users), addReq, count + 1, cfg, db.range) == None
              else count == 0
    {
      count := 0;
      var node := addReq;
      while node.Node?
        invariant node == Drop(addReq, count) && count <= Size(addReq)
        invariant AddFirst(old(db.users), addReq, count, cfg, db.range) == Some(db.users)
        invariant !db.writable ==> count == 0
        decreases node
      {
        DropSize(addReq, count);
        AddStep(old(db.users), addReq, count, db.users, cfg, db.range);
        var st := db.UserAdd(NewUser(node.val, cfg), Auto);
        if st != Success { return false, count; }
        count := count + 1;
        node := node.next;
      }
      DropSize(addReq, count);
      return true, count;
    }

    /** One usermod call, which carries out one request. */
    method Request(db: ShadowDb, name: string, mask: ModMask, ghost op: Op) returns (ok: bool)
      requires op.name == name && forall u: User :: u.name == name ==> Effect(u, op) == Some(Modified(u, mask))
      modifies db`users
      ensures ok <==> db.writable && name in NameSet(old(db.users))
      ensures db.users == if ok then Once(old(db.users), op) else old(db.users)
    {
      hide NameSet, Modified;
      InNameSet(db.users, name);
      var st := db.UserMod(name, mask);
      return st == Success;
    }

    /** The update step of mdsync_mod; `done` requests succeeded. */
    method UpdateTags(db: ShadowDb) returns (ok: bool, ghost done: nat)
      requires AllTagged(updateReq)
      modifies db`users
      ensures Carried(old(db.users), db.writable, UpdateOps(updateReq), ok, done, db.users)
    {
      hide Effect, Modified, Performed, Once, NameSet, UpdateOps, NoRemovals;
      var m, node := updateReq, updateReq;
      ghost var us, ops := db.users, UpdateOps(m);
      done := 0;
      UpdateOpsAt(m, 0);
      PerformedNone(us);
      while node.Node?
        invariant done <= |ops| == Size(m) && node == Drop(m, done) && AllTagged(node)
        invariant db.users == Performed(us, ops[..done]) && (!db.writable ==> done == 0)
        decreases node
      {
        UpdateOpsAt(m, done);
        PerformedStep(us, ops, done);
        NamesSoFar(us, ops, done);
        TagMask(node.val.name, node.val.pvgrp.value);
        ok := Request(db, node.val.name, NO_MODIFY.(pvgrp := node.val.pvgrp), ops[done]);
        if !ok { return; }
        done := done + 1;
        node := node.next;
      }
      UpdateOpsAt(m, done);
      return true, done;
    }

    /** The timer steps of mdsync_mod: both walk a list of names and set the timer to a given day. */
    method SetTimers(db: ShadowDb, names: seq<string>, day: u32) returns (ok: bool, ghost done: nat)
      modifies db`users
      ensures Carried(old(db.users), db.writable, DeferOps(names, day), ok, done, db.users)
    {
      hide Effect, Modified, Performed, Once, NameSet, DeferOps, NoRemovals;
      ghost var us, ops := db.users, DeferOps(names, day);
      DeferOpsAt(names, day);
      PerformedNone(us);
      for i := 0 to |names|
        invariant db.users == Performed(us, ops[..i]) && (!db.writable ==> i == 0)
      {
        PerformedStep(us, ops, i);
        NamesSoFar(us, ops, i);
        TimerMask(names[i], day);
        ok := Request(db, names[i], NO_MODIFY.(defer := Some(day)), ops[i]);
        if !ok { return false, i; }
      }
      return true, |names|;
    }

    /** The two timer lists of mdsync_mod, one after the other. */
    method AdjustTimers(db: ShadowDb, today: u32) returns (ok: bool, ghost done: nat)
      modifies db`users
      ensures Carried(old(db.users), db.writable, TimerRequests(State(), today), ok, done, db.users)
    {
      hide Performed, NameSet, DeferOps, NoRemovals;
      ghost var us, a, b := db.users, DeferOps(deferStart, today), DeferOps(deferStop, 0);
      DeferOpsAt(deferStart, today);
      ok, done := SetTimers(db, deferStart, today);
      if !ok {
        CarriedStop(us, db.writable, a, b, done, db.users);
        return;
      }
      ghost var mid, k := db.users, 0;
      ok, k := SetTimers(db, deferStop, 0);
      CarriedThen(us, db.writable, a, mid, b, ok, k, db.users);
      done := |a| + k;
    }

    /** mdsync_mod: `done` of its requests were carried out. */
    method Mod(db: ShadowDb, today: u32) returns (ok: bool, ghost done: nat)
      requires AllTagged(updateReq)
      modifies db`users
      ensures Carried(old(db.users), db.writable, ModRequests(State(), today), ok, done, db.users)
    {
      hide Performed, NameSet, UpdateOps, NoRemovals, TimerRequests;
      ghost var us, a, b := db.users, UpdateOps(updateReq), TimerRequests(State(), today);
      UpdateOpsAt(updateReq, 0);
      ok, done := UpdateTags(db);
      if !ok {
        CarriedStop(us, db.writable, a, b, done, db.users);
        return;
      }
      ghost var mid, k := db.users, 0;
      ok, k := AdjustTimers(db, today);
      CarriedThen(us, db.writable, a, mid, b, ok, k, db.users);
      done := |a| + k;
    }

    /** One deletion; a name that is gone already is passed over. */
    method DeleteOne(db: ShadowDb, name: string) returns (ok: bool)
      modifies db`users
      ensures ok <==> db.writable || name !in NameSet(old(db.users))
      ensures db.users == if ok then Once(old(db.users), Remove(name)) else old(db.users)
    {
      hide NameSet;
      InNameSet(db.users, name);
      var res := db.GetPwnam(name);
      if res.None? { return true; }
      var st := db.UserDel(name);
      return st == Success;
    }

    /** mdsync_del. A read-only database fails at the first name that is there. */
    method Delete(db: ShadowDb) returns (ok: bool)
      modifies db`users
      ensures ok <==> db.writable || forall x :: x in deleteNow ==> x !in NameSet(old(db.users))
      ensures db.users == if ok then Performed(old(db.users), RemoveOps(deleteNow)) else old(db.users)
    {
      hide Performed, Once, NameSet, RemoveOps;
      var names := deleteNow;
      ghost var us, ops := db.users, RemoveOps(names);
      RemoveOpsAt(names);
      PerformedNone(us);
      for i := 0 to |names|
        invariant db.users == Performed(us, ops[..i])
        invariant !db.writable ==> db.users == us && forall j :: 0 <= j < i ==> names[j] !in NameSet(us)
      {
        PerformedStep(us, ops, i);
        ok := DeleteOne(db, names[i]);
        if !ok {
          assert names[i] in deleteNow;
          return;
        }
        if names[i] !in NameSet(us) { OnceMissing(us, ops[i]); }
      }
      assert ops[..|names|] == ops;
      return true;
    }

    /** Modifications and deletions; `us` is the database that was compared. */
    method Change(db: ShadowDb, today: u32, parts: Parts, ghost us: seq<User>, ghost job: Job)
      returns (outcome: Outcome)
      requires updateReq == Updates(us, |us|, job) && today == job.today
               && deleteNow == Decided(us, |us|, job, DeleteNow)
      requires deferStart == Decided(us, |us|, job, Start) && deferStop == Decided(us, |us|, job, KeepStop)
      requires NameSet(us) <= NameSet(db.users)
      modifies db`users
      ensures outcome in {ModFailed, DelFailed, Complete}
      ensures outcome != Complete ==> !db.writable && db.users == old(db.users)
      ensures outcome == ModFailed ==> parts.mod && ModOps(us, job) != []
      ensures outcome == DelFailed ==> parts.del && DelOps(us, job) != [] && (parts.mod ==> ModOps(us, job) == [])
      ensures outcome == Complete ==> db.users == Performed(old(db.users), PartOps(us, job, parts))
      ensures outcome == Complete && !db.writable ==> PartOps(us, job, parts) == []
    {
      hide Performed, NameSet, NoRemovals, RemoveOps, Updates, Decided, ModOps, DelOps, ModRequests, PartOps;
      RequestsOfLists(State(), us, job);
      PartOpsAre(us, job, parts);
      ghost var added, mods, dels := db.users, if parts.mod then ModOps(us, job) else [], DelOps(us, job);
      ModTargets(us, job);
      DelTargets(us, job);
      RemoveOpsAt(deleteNow);
      PerformedNone(added);
      if parts.mod {
        var ok, done := Mod(db, today);
        if !ok { return ModFailed; }
        assert mods[..done] == mods;
      }
      PerformedNames(added, mods);
      assert dels != [] ==> dels[0].name in deleteNow && dels[0].name in NameSet(db.users);
      if parts.del {
        var ok := Delete(db);
        if !ok { return DelFailed; }
        PerformedAppend(added, mods, dels);
      } else {
        assert mods + [] == mods;
      }
      return Complete;
    }

    /** Additions, modifications and deletions, stopping at the first part that fails. */
    method Apply(db: ShadowDb, today: u32, parts: Parts, ghost us: seq<User>, ghost job: Job) returns (outcome: Outcome)
      requires State() == ListsAt(us, |us|, job).(addReq := addReq, lnlist := lnlist)
      requires Additions(us, job) == Some(addReq) && job == Job(cfg, db.range, today, job.eds)
      requires db.users == us && db.range.Valid() && NoRepeats(us, |us|)
      modifies db`users
      ensures RunOutcome(us, db.writable, job, parts, outcome, db.users)
    {
      hide Performed, Through, NameSet, NoRepeats, PartOps, Updates, Decided, ModOps, DelOps;
      if parts.add {
        var ok, count := Add(db);
        EmptyThrough(db.users);
        if !ok { return AddFailed(count); }
        AddKeepsNames(us, addReq, count, cfg, db.range);
      }
      ghost var added := db.users;
      outcome := Change(db, today, parts, us, job);
      RequestsAreEffects(us, job, parts, added);
      AllOfParts(us, job, parts);
    }

    /** A whole run: compare, fix up, then apply the parts that are agreed to. */
    method Run(db: ShadowDb, today: u32, parts: Parts) returns (outcome: Outcome)
      requires State() == Lists(addReq, Nil, {}, [], [], [], [], 0) && Sorted(addReq) && db.range.Valid()
      modifies this, db`users
      ensures RunOutcome(old(db.users), db.writable, Job(cfg, db.range, today, old(addReq)), parts, outcome, db.users)
    {
      ghost var us, job := db.users, Job(cfg, db.range, today, addReq);
      var ok := Compare(db, today);
      if !ok { return RepeatedName; }
      WithoutSorted(job.eds, Uuids(us, |us|, cfg.group));
      ok := Fixup();
      if !ok { return NoFreeName; }
      outcome := Apply(db, today, parts, us, job);
    }
  }

  /** The first two stand for an abort of the program. */
  datatype Outcome = RepeatedName | NoFreeName | AddFailed(count: nat) | ModFailed | DelFailed | Complete

  /** How a run ends, and with which database. Modifications and deletions fail only if the database is
      read-only and there is something to change. */
  ghost predicate RunOutcome(us: seq<User>, writable: bool, job: Job, parts: Parts, outcome: Outcome, now: seq<User>)
    requires job.range.Valid()
  {
    && (outcome == RepeatedName <==> !NoRepeats(us, |us|))
    && match outcome
       case RepeatedName => now == us
       case NoFreeName => Additions(us, job) == None && now == us
       case AddFailed(count) =>
         && Additions(us, job).Some? && count < Size(PartAdds(us, job, parts))
         && AfterParts(us, job, parts, count) == Some(now)
         && if writable then AfterParts(us, job, parts, count + 1) == None else count == 0
       case ModFailed => Refused(us, writable, job, parts) && parts.mod && ModOps(us, job) != [] && now == us
       case DelFailed =>
         && Refused(us, writable, job, parts) && parts.del && DelOps(us, job) != []
         && (parts.mod ==> ModOps(us, job) == [])
         && now == us
       case Complete =>
         && Additions(us, job).Some? && AfterParts(us, job, parts, PartSteps(us, job, parts)) == Some(now)
         && (!writable ==> PartSteps(us, job, parts) == 0)
  }

  /** A read-only database and nobody to add. */
  predicate Refused(us: seq<User>, writable: bool, job: Job, parts: Parts) {
    !writable && Additions(us, job).Some? && PartAdds(us, job, parts) == Nil
  }

  /** Allotting from the start is allotting the rest and putting the finished part before it. */
  ghost predicate Allotting(m: Eds, taken: set<string>, done: Eds, node: Eds, taken': set<string>) {
    Allot(m, taken) == match Allot(node, taken') case None => None case Some(rest) => Some(Append(done, rest))
  }

  lemma AllotStep(m: Eds, taken: set<string>, done: Eds, node: Eds, taken': set<string>)
    requires Allotting(m, taken, done, node, taken') && node.Node? && PickName(node.val.username, taken').Some?
    ensures var name := PickName(node.val.username, taken').value;
            Allotting(m, taken, Append(done, Node(node.key, node.val.(username := name), Nil)), node.next,
                      taken' + {name})
  {
    var name := PickName(node.val.username, taken').value;
    var rest := Allot(node.next, taken' + {name});
    if rest.Some? {
      AppendAssociative(done, Node(node.key, node.val.(username := name), Nil), rest.value);
    }
  }

  function Names(m: Eds): set<string> {
    match m
    case Nil => {}
    case Node(_, e, next) => {e.username} + Names(next)
  }

  lemma {:induction false} NamesAppend(a: Eds, b: Eds)
    ensures Names(Append(a, b)) == Names(a) + Names(b)
  {
    if a.Node? {
      NamesAppend(a.next, b);
    }
  }

  lemma {:induction false} RepeatsStay(us: seq<User>, n: nat, k: nat)
    requires n <= k <= |us| && !NoRepeats(us, n)
    ensures !NoRepeats(us, k)
    decreases k
  {
    if n < k {
      RepeatsStay(us, n, k - 1);
    }
  }

  /** NIS entries contribute nothing to any of the lists. */
  lemma {:induction false} NisSkipped(us: seq<User>, n: nat, k: nat, job: Job)
    requires n <= k <= |us|
    requires forall j :: n <= j < k ==> IsNis(us[j].name)
    ensures ListsAt(us, k, job) == ListsAt(us, n, job)
    ensures NoRepeats(us, k) <==> NoRepeats(us, n)
    decreases k
  {
    if n < k {
      NisSkipped(us, n, k - 1, job);
      assert IsNis(us[k - 1].name);
    }
  }
}
