/** What runs do, said of the fields of users and entries alone: who is left alone, what becomes of a member
    in a whole run, what a new account contains, and in which order the requests are made. */
module SyncMeaning {
  import opened Prelude
  import opened OrderedMap
  import opened Vxdb
  import opened ShadowDriver
  import opened SyncSpec
  import opened SyncOps
  import opened SyncOutcome
  import opened SyncRun
  import opened SyncTheorems
  import opened SyncConvergence
  import opened SyncHistory

  // ---------- Strangers ----------

  /** A NIS entry, or a user with another group id whose primary group name, if any, is another one. */
  predicate Stranger(u: User, g: Group) {
    || (|u.name| > 0 && u.name[0] in {'+', '-'})
    || (u.gid != g.gid && (u.igrp == None || u.igrp != g.name))
  }

  /** No run touches a stranger to the target group, whatever the list and wherever the run ends. */
  lemma StrangerStays(site: Site, us: seq<User>, t: Turn, after: seq<User>, name: string)
    requires ValidDb(us, site.cfg.group) && Step(site, us, t, after)
    requires Find(us, name).Some? && Stranger(Find(us, name).value, site.cfg.group)
    ensures Find(after, name) == Find(us, name)
  {
    var i := FindIsIn(us, name);
    var tag, timer, removed := Fate(site, us, t, after, name);
  }

  lemma {:induction false} StrangerAlwaysStays(site: Site, dbs: seq<seq<User>>, turns: seq<Turn>, name: string, n: nat)
    requires History(site, dbs, turns) && n <= |turns|
    requires Find(dbs[0], name).Some? && Stranger(Find(dbs[0], name).value, site.cfg.group)
    ensures Find(dbs[n], name) == Find(dbs[0], name)
  {
    hide Find, Step, ValidDb, Stranger;
    if n > 0 {
      StrangerAlwaysStays(site, dbs, turns, name, n - 1);
      AlwaysValid(site, dbs, turns, n - 1);
      assert StepAt(site, dbs, turns, n - 1);
      StrangerStays(site, dbs[n - 1], turns[n - 1], dbs[n], name);
    }
  }

  /** The databases that runs are about: login names differ, and so do the UUIDs of insiders. */
  lemma ValidDbIff(us: seq<User>, g: Group)
    requires g.gid != NOGID
    ensures ValidDb(us, g)
            <==> forall i, j :: 0 <= i < j < |us| ==>
                   && us[i].name != us[j].name
                   && (Insider(us[i], g) && Insider(us[j], g) && us[i].uuid.Some? ==> us[i].uuid != us[j].uuid)
  {
    forall u ensures Insider(u, g) <==> Member(g, u) {}
  }

  // ---------- Members ----------

  /** A user that is no NIS entry and has the group's id, or the group's name as its primary group name. */
  predicate Insider(u: User, g: Group) {
    && (|u.name| == 0 || u.name[0] !in {'+', '-'})
    && (u.gid == g.gid || (g.name.Some? && u.igrp == g.name))
  }

  lemma MemberSettles(u: User, job: Job)
    requires job.cfg.group.gid != NOGID && Insider(u, job.cfg.group)
    ensures var deferral := job.cfg.deferDays;
            var listed := if u.uuid.Some? then Lookup(job.eds, u.uuid.value) else None;
            Settled(u, job)
            == if listed.Some? then
                 var tag := listed.value.pvgrp;
                 Some(u.(defer := 0, pvgrp := if tag == u.uuid.value then u.pvgrp else Some(tag)))
               else if deferral == 0 then None
               else if u.defer == 0 then Some(u.(defer := job.today))
               else if job.today < (u.defer + deferral) % 0x1_0000_0000 then Some(u)
               else None
  {
  }

  lemma WholeRunSettles(site: Site, us: seq<User>, t: Turn, after: seq<User>, name: string)
    requires ValidDb(us, site.cfg.group) && Step(site, us, t, after) && Whole(t) && Find(us, name).Some?
    ensures Find(after, name) == Settled(Find(us, name).value, JobOf(site, t)) && site.cfg.group.gid != NOGID
  {
    hide Settled, Changed, ValidDb, Find, Done, AfterParts;
    var tag, timer, removed := Fate(site, us, t, after, name);
  }

  /** Whole runs: a listed member gets its timer cleared and the listed group tag, unless that is the text of
      its UUID. An unlisted one goes at once without a deferral. With one its timer is started if clear; once
      it is running, the member stays as it is before the day of expiry, a 32-bit sum, and goes from then on. */
  lemma MemberFate(site: Site, us: seq<User>, t: Turn, after: seq<User>, name: string)
    requires ValidDb(us, site.cfg.group) && Step(site, us, t, after)
    requires t.cut.None? && t.parts.mod && t.parts.del
    requires Find(us, name).Some? && Insider(Find(us, name).value, site.cfg.group)
    ensures var u, deferral := Find(us, name).value, site.cfg.deferDays;
            var listed := if u.uuid.Some? then Lookup(t.eds, u.uuid.value) else None;
            Find(after, name)
            == if listed.Some? then
                 var tag := listed.value.pvgrp;
                 Some(u.(defer := 0, pvgrp := if tag == u.uuid.value then u.pvgrp else Some(tag)))
               else if deferral == 0 then None
               else if u.defer == 0 then Some(u.(defer := t.today))
               else if t.today < (u.defer + deferral) % 0x1_0000_0000 then Some(u)
               else None
  {
    hide Settled, Insider, Find, Step, Lookup, ValidDb;
    WholeRunSettles(site, us, t, after, name);
    MemberSettles(Find(us, name).value, JobOf(site, t));
  }

  // ---------- New accounts ----------

  /** The user that a listed entry turns into: full name, home directory, UUID and tag from the entry and the
      allotted name, the group id of the target group, a clear timer, and the other fields by default. */
  predicate AccountOf(v: User, e: Entry, cfg: Config) {
    && v.gid == cfg.group.gid && v.igrp == None && v.defer == 0
    && v.uuid == Some(e.uuid) && v.pvgrp == Some(e.pvgrp)
    && v.account.real_ == e.fullName && v.account.home == cfg.homeBase + "/" + v.name
    && v.account == cfg.account.(real_ := v.account.real_, home := v.account.home)
    && |v.name| <= 8
  }

  /** `v` was made from an entry of `m`, under a name and an id that nobody of `us` has. */
  ghost predicate MadeNew(v: User, m: Eds, us: seq<User>, cfg: Config, range: IdRange) {
    && v.uuid.Some? && Lookup(m, v.uuid.value).Some? && AccountOf(v, Lookup(m, v.uuid.value).value, cfg)
    && range.min <= v.uid <= range.max
    && forall u :: u in us ==> u.uid != v.uid && u.name != v.name
  }

  lemma FirstIsNew(us: seq<User>, m: Eds, m0: Eds, n: nat, taken: set<string>, cfg: Config, range: IdRange)
    returns (u: User)
    requires range.Valid() && n > 0 && m.Node? && AddFirst(us, m, n, cfg, range).Some?
    requires SameButNames(m, m0) && Fresh(m, taken) && KeyedByUuid(m0)
    ensures AddFirst(us, m, n, cfg, range) == AddFirst(us + [u], m.next, n - 1, cfg, range)
    ensures MadeNew(u, m0, us, cfg, range) && u.uuid == Some(m0.key)
  {
    var rq := NewUser(m.val, cfg);
    u := range.Added(us, rq, Auto);
    InNameSet(us, rq.name);
    forall v | v in us
      ensures v.uid != u.uid && v.name != u.name
    {
      assert v.uid in UidSet(us) && v.name in NameSet(us);
    }
  }

  lemma NewBeforeToo(v: User, m0: Eds, us: seq<User>, u: User, cfg: Config, range: IdRange)
    requires Sorted(m0) && m0.Node? && MadeNew(v, m0.next, us + [u], cfg, range)
    ensures MadeNew(v, m0, us, cfg, range)
  {
    FirstKeyUnique(m0);
    InKeys(m0.next, v.uuid.value);
    forall w | w in us
      ensures w.uid != v.uid && w.name != v.name
    {
      assert w in us + [u];
    }
  }

  /** Every new user was made from an entry, and as many entries as there are new users were used, in order. */
  lemma {:induction false} NewsAreNew(us: seq<User>, m: Eds, m0: Eds, n: nat, taken: set<string>, cfg: Config,
                                      range: IdRange, news: seq<User>)
    requires range.Valid() && AddFirst(us, m, n, cfg, range) == Some(us + news)
    requires SameButNames(m, m0) && Fresh(m, taken) && KeyedByUuid(m0) && Sorted(m0)
    ensures forall v :: v in news ==> MadeNew(v, m0, us, cfg, range)
    ensures n >= Size(m) ==> forall k :: k in Keys(m0) ==> exists v :: v in news && v.uuid == Some(k)
    decreases n
  {
    hide AddFirst, MadeNew;
    if n == 0 || m.Nil? {
      NothingAdded(us, m, n, cfg, range);
      SameSuffix(us, news, []);
    } else {
      var u := FirstIsNew(us, m, m0, n, taken, cfg, range);
      var rest := AddedUsers(us + [u], m.next, n - 1, cfg, range);
      ConcatAssociative(us, [u], rest);
      SameSuffix(us, news, [u] + rest);
      NewsAreNew(us + [u], m.next, m0.next, n - 1, taken + {m.val.username}, cfg, range, rest);
      forall v | v in news
        ensures MadeNew(v, m0, us, cfg, range)
      {
        if v != u { NewBeforeToo(v, m0, us, u, cfg, range); }
      }
      if n >= Size(m) {
        forall k | k in Keys(m0)
          ensures exists v :: v in news && v.uuid == Some(k)
        {
          if k == m0.key {
            assert u in news;
          } else {
            var v :| v in rest && v.uuid == Some(k);
            assert v in news;
          }
        }
      }
    }
  }

  /** Nobody who is an insider has this UUID. */
  ghost predicate NotThere(us: seq<User>, g: Group, k: string) {
    forall u :: u in us && Insider(u, g) ==> u.uuid != Some(k)
  }

  lemma InsidersAreMembers(us: seq<User>, g: Group, k: string)
    requires g.gid != NOGID
    ensures NotThere(us, g, k) <==> k !in Uuids(us, |us|, g)
  {
    UuidsExact(us, |us|, g, k);
    if k !in Uuids(us, |us|, g) {
      forall u | u in us && Insider(u, g)
        ensures u.uuid != Some(k)
      {
        var j :| 0 <= j < |us| && us[j] == u;
      }
    }
  }

  lemma {:induction false} MakesAccounts(us: seq<User>, job: Job, parts: Parts, n: nat, mid: seq<User>)
    returns (news: seq<User>)
    requires ValidJob(job) && ValidDb(us, job.cfg.group) && Additions(us, job).Some?
             && AfterParts(us, job, parts, n) == Some(mid)
    ensures exists ops :: mid == Through(us, ops) + news
    ensures forall v :: v in news ==>
              parts.add && MadeNew(v, job.eds, us, job.cfg, job.range) && NotThere(us, job.cfg.group, v.uuid.value)
    ensures parts.add && n >= Size(Additions(us, job).value) ==>
              forall k :: Lookup(job.eds, k).Some? && NotThere(us, job.cfg.group, k) ==>
                exists v :: v in news && v.uuid == Some(k)
  {
    hide AfterParts, AddFirst, Executed, Through, Uuids, VisibleNames, NotThere, Allot, ValidDb, AccountOf;
    var gone, m0 := Uuids(us, |us|, job.cfg.group), Unclaimed(us, job);
    news := PartShape(us, job, parts, n, mid);
    var m := PartAdds(us, job, parts);
    WithoutSorted(job.eds, gone);
    WithoutValid(job.eds, gone);
    ValidIsKeyed(m0);
    if parts.add {
      AllotIsFresh(m0, VisibleNames(us, |us|));
      NewsAreNew(us, m, m0, n, VisibleNames(us, |us|), job.cfg, job.range, news);
    }
    forall v | v in news
      ensures parts.add && MadeNew(v, job.eds, us, job.cfg, job.range) && NotThere(us, job.cfg.group, v.uuid.value)
    {
      WithoutLookup(job.eds, gone, v.uuid.value);
      InsidersAreMembers(us, job.cfg.group, v.uuid.value);
    }
    forall k | parts.add && n >= Size(m) && Lookup(job.eds, k).Some? && NotThere(us, job.cfg.group, k)
      ensures exists v :: v in news && v.uuid == Some(k)
    {
      InsidersAreMembers(us, job.cfg.group, k);
      WithoutLookup(job.eds, gone, k);
      InKeys(m0, k);
    }
  }

  lemma {:induction false} ValidIsKeyed(m: Eds)
    requires ValidEds(m)
    ensures KeyedByUuid(m)
  {
    if m.Node? {
      ValidIsKeyed(m.next);
    }
  }

  /** After all additions every listed UUID that no insider had belongs to a new user with the fields of the
      listed entry, under a name and an id that were unused. */
  lemma NewAccount(site: Site, us: seq<User>, t: Turn, after: seq<User>, k: string) returns (v: User)
    requires ValidDb(us, site.cfg.group) && Step(site, us, t, after) && t.parts.add
    requires var adds := Additions(us, JobOf(site, t));
             adds.Some? && (t.cut.None? || Size(adds.value) <= t.cut.value)
    requires Lookup(t.eds, k).Some? && forall u :: u in us && Insider(u, site.cfg.group) ==> u.uuid != Some(k)
    ensures v in after && v.uuid == Some(k) && AccountOf(v, Lookup(t.eds, k).value, site.cfg)
    ensures site.range.min <= v.uid <= site.range.max
    ensures forall u :: u in us ==> u.uid != v.uid && u.name != v.name
  {
    hide AfterParts, Additions, ValidDb;
    var job := JobOf(site, t);
    var news := MakesAccounts(us, job, t.parts, Or(t.cut, PartSteps(us, job, t.parts)), after);
    v :| v in news && v.uuid == Some(k);
  }

  lemma SurvivorWasThere(us: seq<User>, ops: seq<Op>, v: User)
    requires v in Through(us, ops)
    ensures Find(us, v.name).Some?
  {
    var i := Survivor(us, ops, v);
    EffectAllUuid(us[i], ops);
    InNameSet(us, v.name);
    assert us[i] in us;
  }

  /** And in every run, also one that is cut off, only such users are new. */
  lemma OnlyListedAreNew(site: Site, us: seq<User>, t: Turn, after: seq<User>, v: User)
    requires ValidDb(us, site.cfg.group) && Step(site, us, t, after)
    requires v in after && Find(us, v.name) == None
    ensures t.parts.add && v.uuid.Some? && Lookup(t.eds, v.uuid.value).Some?
    ensures AccountOf(v, Lookup(t.eds, v.uuid.value).value, site.cfg)
    ensures site.range.min <= v.uid <= site.range.max && forall u :: u in us ==> u.uid != v.uid
    ensures forall u :: u in us && Insider(u, site.cfg.group) ==> u.uuid != v.uuid
  {
    hide AfterParts, Additions, ValidDb, AccountOf, Insider;
    var job := JobOf(site, t);
    if Additions(us, job).None? {
      InNameSet(us, v.name);
    } else {
      var news := MakesAccounts(us, job, t.parts, Or(t.cut, PartSteps(us, job, t.parts)), after);
      var ops :| after == Through(us, ops) + news;
      if v in Through(us, ops) { SurvivorWasThere(us, ops, v); }
    }
  }

  // ---------- The order of the requests ----------

  lemma {:induction false} DecidedGrows(us: seq<User>, i: nat, n: nat, job: Job, d: Decision)
    requires i < n <= |us| && DecisionAt(us, i, job) == d
    ensures var before := |Decided(us, i, job, d)|;
            before < |Decided(us, n, job, d)| && Decided(us, n, job, d)[before] == us[i].name
    decreases n
  {
    if i < n - 1 {
      DecidedGrows(us, i, n - 1, job, d);
    }
  }

  /** Of two users with the same decision the first in the database comes first in the list. */
  lemma DatabaseOrder(us: seq<User>, i: nat, j: nat, job: Job, d: Decision)
    requires i < j < |us| && DecisionAt(us, i, job) == d && DecisionAt(us, j, job) == d
    ensures exists p, q {:trigger Decided(us, |us|, job, d)[p], Decided(us, |us|, job, d)[q]} ::
              && 0 <= p < q < |Decided(us, |us|, job, d)|
              && Decided(us, |us|, job, d)[p] == us[i].name && Decided(us, |us|, job, d)[q] == us[j].name
  {
    DecidedGrows(us, i, |us|, job, d);
    DecidedGrows(us, j, |us|, job, d);
    DecidedGrows(us, i, j, job, d);
  }

  /** May `a` come before `b`? Group tags come first, then timers to start, timers to stop, and removals. */
  predicate InTurn(a: Op, b: Op, today: u32) {
    match a
    case SetPvgrp(_, _) => true
    case SetDefer(_, d) => !b.SetPvgrp? && (d == today || b.Remove? || b.day == 0)
    case Remove(_) => b.Remove?
  }

  lemma RequestsInOrder(us: seq<User>, job: Job, parts: Parts, i: nat, j: nat)
    requires i < j < |PartOps(us, job, parts)|
    ensures InTurn(PartOps(us, job, parts)[i], PartOps(us, job, parts)[j], job.today)
  {
    var n := |us|;
    var a, b := DeferOps(Decided(us, n, job, Start), job.today), DeferOps(Decided(us, n, job, KeepStop), 0);
    DeferOpsAt(Decided(us, n, job, Start), job.today);
    DeferOpsAt(Decided(us, n, job, KeepStop), 0);
    RemoveOpsAt(Decided(us, n, job, DeleteNow));
    UpdatesAreTags(Updates(us, n, job));
  }

  lemma {:induction false} UpdatesAreTags(m: OMap<User>)
    ensures forall i :: 0 <= i < |UpdateOps(m)| ==> UpdateOps(m)[i].SetPvgrp?
  {
    if m.Node? {
      UpdatesAreTags(m.next);
    }
  }

  /** Nobody is changed or removed before all additions are made. */
  lemma AdditionsFirst(site: Site, us: seq<User>, t: Turn, after: seq<User>, name: string, k: string)
    returns (v: User)
    requires ValidDb(us, site.cfg.group) && Step(site, us, t, after) && t.parts.add
    requires Find(us, name).Some? && Find(after, name) != Find(us, name)
    requires Lookup(t.eds, k).Some?
    ensures v in after && v.uuid == Some(k)
  {
    hide AfterParts, Allot, Unclaimed, Uuids;
    var job := JobOf(site, t);
    var n := Or(t.cut, PartSteps(us, job, t.parts));
    var part := Done(site, us, t);
    var tag, timer, removed := Fate(site, us, t, after, name);
    var news := PartShape(us, job, t.parts, n, after);
    AllListedPresent(us, job, news, part);
    InKeys(t.eds, k);
    UuidsExact(after, |after|, site.cfg.group, k);
    var j :| 0 <= j < |after| && Member(site.cfg.group, after[j]) && after[j].uuid == Some(k);
    v := after[j];
  }
}
