/** What a complete run achieves: the group follows the external list, login names are fresh, and the
    two places where the program falls short of that. */
module SyncConvergence {
  import opened Prelude
  import opened OrderedMap
  import opened Vxdb
  import opened ShadowDriver
  import opened LoginNames
  import opened SyncSpec
  import opened SyncOps
  import opened SyncOutcome
  import opened SyncRun
  import opened SyncTheorems

  // ---------- Convergence ----------

  /** A member as a complete run leaves it: listed with a clear timer, or unlisted with a running,
      unexpired one. */
  predicate InOrder(u: User, job: Job) {
    Member(job.cfg.group, u) ==>
      if Present(u, job) then u.defer == 0
      else job.cfg.deferDays > 0 && u.defer != 0 && job.today < Expiry(u.defer, job.cfg.deferDays)
  }

  /** The timer and the removal decide whether a user is in order; its tag does not matter. */
  lemma SettledInOrder(u: User, job: Job, tag: bool)
    requires ValidDay(job) && !WantsRemoval(u, job)
    ensures InOrder(Changed(u, job, tag, WantsTimer(u, job), false).value, job)
  {
  }

  /** What a run must carry out: additions, deletions, and modifications if there is a timer to change. */
  predicate Serves(us: seq<User>, job: Job, parts: Parts) {
    parts.add && parts.del && (parts.mod || TimerRequests(ListsAt(us, |us|, job), job.today) == [])
  }

  lemma InPartOps(us: seq<User>, job: Job, parts: Parts, op: Op)
    requires Serves(us, job, parts) && op in Ops(us, job) && !op.SetPvgrp?
    ensures op in PartOps(us, job, parts)
  {
    UpdateOpsAt(Updates(us, |us|, job), 0);
    UpdatesSetTags(Updates(us, |us|, job), op);
  }

  lemma {:induction false} UpdatesSetTags(m: OMap<User>, op: Op)
    requires !op.SetPvgrp?
    ensures op !in UpdateOps(m)
  {
    if m.Node? {
      UpdatesSetTags(m.next, op);
    }
  }

  lemma UserInOrder(us: seq<User>, i: nat, job: Job, parts: Parts, v: User)
    requires ValidJob(job) && ValidDb(us, job.cfg.group) && Serves(us, job, parts)
             && PartOf(PartOps(us, job, parts), us, job)
    requires i < |us| && EffectAll(us[i], PartOps(us, job, parts)) == Some(v)
    ensures InOrder(v, job)
  {
    var u, part := us[i], PartOps(us, job, parts);
    var tag, timer, removed := CutOutcome(us, i, job, part);
    var setDefer, remove := SetDefer(u.name, DayOf(u, job)), Remove(u.name);
    OpsIff(us, i, job, setDefer);
    OpsIff(us, i, job, remove);
    if setDefer in Ops(us, job) { InPartOps(us, job, parts, setDefer); }
    if remove in Ops(us, job) { InPartOps(us, job, parts, remove); }
    SettledInOrder(u, job, tag);
  }

  lemma {:induction false} Survivor(us: seq<User>, ops: seq<Op>, v: User) returns (i: nat)
    requires v in Through(us, ops)
    ensures i < |us| && EffectAll(us[i], ops) == Some(v)
  {
    if v in AsSeq(EffectAll(us[0], ops)) {
      i := 0;
    } else {
      i := Survivor(us[1..], ops, v);
      i := i + 1;
    }
  }

  lemma {:induction false} NewsInOrder(news: seq<User>, m: Eds, job: Job, v: User)
    requires MadeFrom(news, m, job.cfg) && ListedIn(m, job.eds) && KeyedByUuid(m) && v in news
    ensures InOrder(v, job)
  {
    if v != news[0] {
      NewsInOrder(news[1..], m.next, job, v);
    }
  }

  /** After a complete run every listed UUID belongs to a member, and every member is in order: with a
      deferral an unlisted member has a running timer, and without one there is no such member. */
  lemma Convergence(us: seq<User>, job: Job, parts: Parts, final: seq<User>)
    requires ValidJob(job) && ValidDb(us, job.cfg.group) && Additions(us, job).Some? && Serves(us, job, parts)
    requires AfterParts(us, job, parts, PartSteps(us, job, parts)) == Some(final)
    ensures Keys(job.eds) <= Uuids(final, |final|, job.cfg.group)
    ensures forall u :: u in final ==> InOrder(u, job)
  {
    hide InOrder, ModOps, DelOps, AfterParts, Keys, Uuids;
    var part := PartOps(us, job, parts);
    var news := PartShape(us, job, parts, PartSteps(us, job, parts), final);
    assert Executed(us, job, parts, PartSteps(us, job, parts)) == part;
    AdditionsFacts(us, job);
    AllListedPresent(us, job, news, part);
    forall u | u in final
      ensures InOrder(u, job)
    {
      if u in news {
        NewsInOrder(news, Additions(us, job).value, job, u);
      } else {
        var i := Survivor(us, part, u);
        UserInOrder(us, i, job, parts, u);
      }
    }
  }

  /** Without a deferral the members' UUIDs become exactly the listed ones. */
  lemma ConvergenceAtOnce(us: seq<User>, job: Job, parts: Parts, final: seq<User>)
    requires ValidJob(job) && ValidDb(us, job.cfg.group) && Additions(us, job).Some? && Serves(us, job, parts)
    requires AfterParts(us, job, parts, PartSteps(us, job, parts)) == Some(final) && job.cfg.deferDays == 0
    ensures Uuids(final, |final|, job.cfg.group) == Keys(job.eds)
    ensures forall u :: u in final && Member(job.cfg.group, u) ==> u.uuid.Some?
  {
    Convergence(us, job, parts, final);
    forall x | x in Uuids(final, |final|, job.cfg.group)
      ensures x in Keys(job.eds)
    {
      UuidsExact(final, |final|, job.cfg.group, x);
      var j :| 0 <= j < |final| && Member(job.cfg.group, final[j]) && final[j].uuid == Some(x);
      assert final[j] in final && Present(final[j], job);
      InKeys(job.eds, x);
    }
    forall u | u in final && Member(job.cfg.group, u) ensures u.uuid.Some? { assert Present(u, job); }
  }

  lemma {:induction false} NobodyDecided(us: seq<User>, n: nat, job: Job, d: Decision)
    requires n <= |us| && forall i :: 0 <= i < n ==> DecisionAt(us, i, job) != d
    ensures Decided(us, n, job, d) == []
  {
    if n > 0 {
      NobodyDecided(us, n - 1, job, d);
    }
  }

  /** The user is a member that is not listed, and its time is up on that day. */
  predicate Overdue(u: User, job: Job, later: u32) {
    Member(job.cfg.group, u) && !Present(u, job) && later >= Expiry(u.defer, job.cfg.deferDays)
  }

  lemma InOrderLater(u: User, job: Job, later: u32)
    requires InOrder(u, job)
    ensures var d := DecisionFor(u, job.(today := later));
            d !in {Start, KeepStop} && (d == DeleteNow <==> Overdue(u, job, later))
              && (job.cfg.deferDays == 0 ==> d != Wait)
    ensures later <= job.today || job.cfg.deferDays == 0 ==> !Overdue(u, job, later)
  {
    assert Present(u, job.(today := later)) == Present(u, job);
  }

  /** Where everything is in order, a run on a later day with the same list adds nobody and starts and
      stops no timer; it deletes exactly the users whose time is up by then. */
  lemma NothingLeftToDo(us: seq<User>, job: Job, later: u32)
    requires ValidDb(us, job.cfg.group) && Keys(job.eds) <= Uuids(us, |us|, job.cfg.group)
    requires forall u :: u in us ==> InOrder(u, job)
    ensures var again := job.(today := later);
            && Additions(us, again) == Some(Nil)
            && Decided(us, |us|, again, Start) == [] && Decided(us, |us|, again, KeepStop) == []
            && (job.cfg.deferDays == 0 ==> Decided(us, |us|, again, Wait) == [])
            && (forall u :: u in us ==> (u.name in Decided(us, |us|, again, DeleteNow) <==> Overdue(u, job, later)))
            && (Decided(us, |us|, again, DeleteNow) == [] <==> forall u :: u in us ==> !Overdue(u, job, later))
    ensures later <= job.today || job.cfg.deferDays == 0 ==> forall u :: u in us ==> !Overdue(u, job, later)
  {
    hide InOrder, Overdue, Uuids;
    var again := job.(today := later);
    NothingToAdd(us, again);
    forall i | 0 <= i < |us|
      ensures DecisionAt(us, i, again) !in {Start, KeepStop}
              && (DecisionAt(us, i, again) == DeleteNow <==> Overdue(us[i], job, later))
      ensures job.cfg.deferDays == 0 ==> DecisionAt(us, i, again) != Wait
      ensures us[i].name in Decided(us, |us|, again, DeleteNow) <==> Overdue(us[i], job, later)
      ensures later <= job.today || job.cfg.deferDays == 0 ==> !Overdue(us[i], job, later)
    {
      assert us[i] in us;
      DecisionAtIsFor(us, i, again);
      DecidedIff(us, |us|, i, again, DeleteNow);
      InOrderLater(us[i], job, later);
    }
    NobodyDecided(us, |us|, again, Start);
    NobodyDecided(us, |us|, again, KeepStop);
    if job.cfg.deferDays == 0 { NobodyDecided(us, |us|, again, Wait); }
    if forall u :: u in us ==> !Overdue(u, job, later) { NobodyDecided(us, |us|, again, DeleteNow); }
  }

  /** A second run with the same list adds nobody and starts and stops no timer, and it deletes exactly
      the unlisted members whose timers have expired since: nobody while there are none. */
  lemma SecondRunIsIdle(us: seq<User>, job: Job, parts: Parts, final: seq<User>, later: u32)
    requires ValidJob(job) && ValidDb(us, job.cfg.group) && Additions(us, job).Some? && Serves(us, job, parts)
    requires AfterParts(us, job, parts, PartSteps(us, job, parts)) == Some(final)
    ensures var again := job.(today := later);
            && Additions(final, again) == Some(Nil)
            && Decided(final, |final|, again, Start) == [] && Decided(final, |final|, again, KeepStop) == []
            && (forall u :: u in final ==>
                  (u.name in Decided(final, |final|, again, DeleteNow) <==> Overdue(u, job, later)))
            && (Decided(final, |final|, again, DeleteNow) == [] <==> forall u :: u in final ==> !Overdue(u, job, later))
    ensures later <= job.today || job.cfg.deferDays == 0 ==> forall u :: u in final ==> !Overdue(u, job, later)
  {
    Convergence(us, job, parts, final);
    CutValid(us, job, parts, PartSteps(us, job, parts), final);
    NothingLeftToDo(final, job, later);
  }

  /** On the same day it changes nothing at all: a complete run is idempotent. */
  lemma Idempotent(us: seq<User>, job: Job, final: seq<User>)
    requires ValidJob(job) && ValidDb(us, job.cfg.group) && Additions(us, job).Some?
    requires After(us, job, Steps(us, job)) == Some(final)
    ensures Additions(final, job).Some? && After(final, job, Steps(final, job)) == Some(final)
  {
    AllParts(us, job, Steps(us, job));
    Resumption(us, job, ALL_PARTS, Steps(us, job), final, final);
  }

  // ---------- When a run completes ----------

  predicate Unused(us: seq<User>, id: int) { forall u :: u in us ==> u.uid != id }

  /** The unused ids for new users. */
  function FreeIds(us: seq<User>, range: IdRange): set<int> {
    set id: int | range.min <= id <= range.max && Unused(us, id)
  }

  lemma IdIsSpent(us: seq<User>, u: User, range: IdRange)
    requires u.uid in FreeIds(us, range)
    ensures |FreeIds(us + [u], range)| == |FreeIds(us, range)| - 1
  {
    assert u in us + [u];
    assert FreeIds(us + [u], range) == FreeIds(us, range) - {u.uid as int};
  }

  /** An addition under a new name succeeds exactly if an id is left, and it takes one. */
  lemma OneAddition(us: seq<User>, rq: User, range: IdRange)
    requires range.Valid() && rq.name !in NameSet(us)
    ensures range.AddStatus(us, true, rq, Auto) == Success <==> FreeIds(us, range) != {}
    ensures range.AddStatus(us, true, rq, Auto) == Success ==>
              |FreeIds(us + [range.Added(us, rq, Auto)], range)| == |FreeIds(us, range)| - 1
  {
    InNameSet(us, rq.name);
    var r := range.FreeUid(us, Auto);
    if r.Some? {
      assert r.value as int in FreeIds(us, range);
      IdIsSpent(us, range.Added(us, rq, Auto), range);
    } else {
      forall id: u32 | range.min <= id <= range.max
        ensures !Unused(us, id)
      {
        assert id in UidSet(us);
      }
    }
  }

  lemma AddOrFail(us: seq<User>, m: Eds, n: nat, cfg: Config, range: IdRange)
    requires range.Valid() && n > 0 && m.Node?
    ensures var rq := NewUser(m.val, cfg);
            AddFirst(us, m, n, cfg, range)
            == if range.AddStatus(us, true, rq, Auto) == Success
               then AddFirst(us + [range.Added(us, rq, Auto)], m.next, n - 1, cfg, range)
               else None
  {
  }

  /** Additions under fresh names go on as long as there are ids. */
  lemma {:induction false} AddsIff(us: seq<User>, m: Eds, n: nat, cfg: Config, range: IdRange)
    requires range.Valid() && Fresh(m, NameSet(us))
    ensures AddFirst(us, m, n, cfg, range).Some? <==> (if n <= Size(m) then n else Size(m)) <= |FreeIds(us, range)|
    decreases n
  {
    hide FreeIds, NewUser, NameSet, AddFirst;
    if n == 0 || m.Nil? {
      NothingAdded(us, m, n, cfg, range);
    } else {
      var rq := NewUserNamed(m.val, cfg);
      OneAddition(us, rq, range);
      AddOrFail(us, m, n, cfg, range);
      if range.AddStatus(us, true, rq, Auto) == Success {
        var u := range.Added(us, rq, Auto);
        NamesOfConcat(us, [u]);
        OneName(u);
        AddsIff(us + [u], m.next, n - 1, cfg, range);
      }
    }
  }

  lemma NewUserNamed(e: Entry, cfg: Config) returns (rq: User)
    ensures rq == NewUser(e, cfg) && rq.name == e.username
  {
    rq := NewUser(e, cfg);
  }

  lemma {:induction false} FreshAmongAll(m: Eds, taken: set<string>, more: set<string>)
    requires Fresh(m, taken) && PlainNames(m) && forall x :: x in more ==> IsNis(x) || x in taken
    ensures Fresh(m, more)
  {
    if m.Node? {
      FreshAmongAll(m.next, taken + {m.val.username}, more + {m.val.username});
    }
  }

  /** A run is never stopped for want of an id if and only if the range has an unused one for every entry
      to add; k changes are reached exactly if there is one for every addition among them. */
  lemma CompletesIff(us: seq<User>, job: Job, parts: Parts, k: nat)
    requires ValidJob(job) && Additions(us, job).Some?
    ensures var adds, free := Size(PartAdds(us, job, parts)), |FreeIds(us, job.range)|;
            && (AfterParts(us, job, parts, k).Some? <==> (if k <= adds then k else adds) <= free)
            && (AfterParts(us, job, parts, PartSteps(us, job, parts)).Some? <==> adds <= free)
  {
    hide FreeIds, NameSet;
    var adds := PartAdds(us, job, parts);
    AdditionsFacts(us, job);
    AllotIsFresh(Unclaimed(us, job), VisibleNames(us, |us|));
    forall x | x in NameSet(us)
      ensures IsNis(x) || x in VisibleNames(us, |us|)
    {
      if !IsNis(x) { DeliveredAreVisible(us, x); }
    }
    FreshAmongAll(adds, VisibleNames(us, |us|), NameSet(us));
    AddsIff(us, adds, k, job.cfg, job.range);
    AddsIff(us, adds, PartSteps(us, job, parts), job.cfg, job.range);
  }

  lemma DeliveredAreVisible(us: seq<User>, x: string)
    requires x in NameSet(us) && !IsNis(x)
    ensures x in VisibleNames(us, |us|)
  {
    var u :| u in us && u.name == x;
    var j :| 0 <= j < |us| && us[j] == u;
    VisibleFrom(us, j, |us|);
  }

  lemma {:induction false} VisibleFrom(us: seq<User>, j: nat, n: nat)
    requires j < n <= |us| && !IsNis(us[j].name)
    ensures us[j].name in VisibleNames(us, n)
    decreases n
  {
    if j < n - 1 {
      VisibleFrom(us, j, n - 1);
    }
  }

  // ---------- Where the expiry sum wraps ----------

  /** A timer can expire before its time exactly when timer plus deferral leaves 32 bits. */
  lemma EarlyExpiryIffWrap(timer: u32, deferDays: u32)
    requires timer > 0 && deferDays > 0
    ensures (exists today: u32 ::
               timer <= today < timer + deferDays && Verdict(false, timer, deferDays, today) == DeleteNow)
            <==> timer + deferDays >= 0x1_0000_0000
  {
    if timer + deferDays >= 0x1_0000_0000 {
      assert Expiry(timer, deferDays) == timer + deferDays - 0x1_0000_0000;
      assert Verdict(false, timer, deferDays, timer) == DeleteNow;
    }
  }

  // ---------- Fresh login names ----------

  /** Every name is short and free, given those taken before it. */
  predicate Fresh(m: Eds, taken: set<string>) {
    m.Node? ==> |m.val.username| <= MAX_LNAME && m.val.username !in taken && Fresh(m.next, taken + {m.val.username})
  }

  /** Equal but for the login names. */
  predicate SameButNames(m: Eds, n: Eds) {
    if m.Nil? || n.Nil? then m == n
    else m.key == n.key && m.val == n.val.(username := m.val.username) && SameButNames(m.next, n.next)
  }

  lemma {:induction false} AllotIsFresh(m: Eds, taken: set<string>)
    requires Allot(m, taken).Some?
    ensures Fresh(Allot(m, taken).value, taken) && SameButNames(Allot(m, taken).value, m)
  {
    if m.Node? {
      AllotIsFresh(m.next, taken + {PickName(m.val.username, taken).value});
    }
  }

  function NameList(m: Eds): seq<string> { if m.Nil? then [] else [m.val.username] + NameList(m.next) }

  lemma {:induction false} FreshMeansDistinct(m: Eds, taken: set<string>)
    requires Fresh(m, taken)
    ensures forall i :: 0 <= i < |NameList(m)| ==> |NameList(m)[i]| <= MAX_LNAME && NameList(m)[i] !in taken
    ensures forall i, j :: 0 <= i < j < |NameList(m)| ==> NameList(m)[i] != NameList(m)[j]
  {
    if m.Node? {
      FreshMeansDistinct(m.next, taken + {m.val.username});
    }
  }

  /** The fix-up gives every new entry a name of at most eight characters that no user has and no other
      new entry gets. */
  lemma NamesAreFresh(us: seq<User>, job: Job)
    requires Additions(us, job).Some?
    ensures var names := NameList(Additions(us, job).value);
            && (forall i :: 0 <= i < |names| ==> |names[i]| <= MAX_LNAME && names[i] !in VisibleNames(us, |us|))
            && (forall i, j :: 0 <= i < j < |names| ==> names[i] != names[j])
    ensures SameButNames(Additions(us, job).value, Unclaimed(us, job))
  {
    AllotIsFresh(Unclaimed(us, job), VisibleNames(us, |us|));
    FreshMeansDistinct(Additions(us, job).value, VisibleNames(us, |us|));
  }

  lemma {:induction false} AllotFailsLate(m: Eds, taken: set<string>)
    requires Allot(m, taken) == None && ValidEds(m)
    ensures |taken| + Size(m) > MAX_INDEX
  {
    if PickName(m.val.username, taken).None? {
      AbortNeedsManyNames(m.val.username, taken);
    } else {
      AllotFailsLate(m.next, taken + {PickName(m.val.username, taken).value});
    }
  }

  /** The run gives up for want of a name only when existing and new users exceed 10000 together. */
  lemma GivesUpLate(us: seq<User>, job: Job)
    requires ValidJob(job) && Additions(us, job) == None
    ensures |VisibleNames(us, |us|)| + Size(Unclaimed(us, job)) > MAX_INDEX
  {
    WithoutValid(job.eds, Uuids(us, |us|, job.cfg.group));
    AllotFailsLate(Unclaimed(us, job), VisibleNames(us, |us|));
  }

  // ---------- Reading the external list ----------

  /** The list as it is collected: every entry is put under its UUID, so a later one replaces it. */
  function Collect(entries: seq<Entry>): Eds {
    if entries == [] then Nil
    else
      var last := entries[|entries| - 1];
      Put(Collect(entries[..|entries| - 1]), last.uuid, last)
  }

  function LastWith(entries: seq<Entry>, uuid: string): Option<Entry> {
    if entries == [] then None
    else
      var last := entries[|entries| - 1];
      if last.uuid == uuid then Some(last) else LastWith(entries[..|entries| - 1], uuid)
  }

  lemma {:induction false} CollectLookup(entries: seq<Entry>, uuid: string)
    ensures Sorted(Collect(entries)) && Lookup(Collect(entries), uuid) == LastWith(entries, uuid)
  {
    if entries != [] {
      var rest, last := entries[..|entries| - 1], entries[|entries| - 1];
      CollectLookup(rest, uuid);
      PutSorted(Collect(rest), last.uuid, last);
      PutLookup(Collect(rest), last.uuid, last, uuid);
    }
  }

  ghost predicate SameLast(a: seq<Entry>, b: seq<Entry>) { forall uuid :: LastWith(a, uuid) == LastWith(b, uuid) }

  /** Two files collect into the same list exactly when the last entry for every UUID is the same; the
      order of entries with different UUIDs does not matter. */
  lemma OrderIrrelevant(a: seq<Entry>, b: seq<Entry>)
    ensures Collect(a) == Collect(b) <==> SameLast(a, b)
  {
    CollectLookup(a, "");
    CollectLookup(b, "");
    if Collect(a) == Collect(b) {
      forall uuid
        ensures LastWith(a, uuid) == LastWith(b, uuid)
      {
        CollectLookup(a, uuid);
        CollectLookup(b, uuid);
      }
    }
    if SameLast(a, b) {
      forall uuid
        ensures Lookup(Collect(a), uuid) == Lookup(Collect(b), uuid)
      {
        CollectLookup(a, uuid);
        CollectLookup(b, uuid);
      }
      Canonical(Collect(a), Collect(b));
    }
  }

  lemma {:induction false} PutValid(m: Eds, e: Entry)
    requires ValidEds(m) && Proposed(e.username)
    ensures ValidEds(Put(m, e.uuid, e))
  {
    if m.Node? {
      PutValid(m.next, e);
    }
  }

  /** Entries with proposed login names collect into a valid list. */
  lemma {:induction false} CollectValid(entries: seq<Entry>)
    requires forall e :: e in entries ==> Proposed(e.username)
    ensures ValidEds(Collect(entries))
  {
    if entries != [] {
      CollectValid(entries[..|entries| - 1]);
      PutValid(Collect(entries[..|entries| - 1]), entries[|entries| - 1]);
    }
  }
}
