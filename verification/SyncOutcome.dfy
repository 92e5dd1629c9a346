/** What a run, complete or cut off, does to each single user. */
module SyncOutcome {
  import opened Prelude
  import opened OrderedMap
  import opened Vxdb
  import opened SyncSpec

  // ---------- Decisions of a database without repeated UUIDs ----------

  /** No two members of the group share a UUID. */
  predicate UniqueUuids(us: seq<User>, g: Group) {
    forall i, j :: 0 <= i < j < |us| && Member(g, us[i]) && Member(g, us[j]) && us[i].uuid.Some? ==>
      us[i].uuid != us[j].uuid
  }

  predicate Present(u: User, job: Job) { u.uuid.Some? && Lookup(job.eds, u.uuid.value).Some? }

  function DecisionFor(u: User, job: Job): Decision {
    if Member(job.cfg.group, u) then Verdict(Present(u, job), u.defer, job.cfg.deferDays, job.today) else Ignore
  }

  lemma {:induction false} UuidsExact(us: seq<User>, n: nat, g: Group, x: string)
    requires n <= |us|
    ensures x in Uuids(us, n, g) <==> exists j :: 0 <= j < n && Member(g, us[j]) && us[j].uuid == Some(x)
  {
    if n > 0 {
      UuidsExact(us, n - 1, g, x);
    }
  }

  lemma DecisionAtIsFor(us: seq<User>, i: nat, job: Job)
    requires i < |us| && UniqueUuids(us, job.cfg.group)
    ensures DecisionAt(us, i, job) == DecisionFor(us[i], job)
  {
    if Member(job.cfg.group, us[i]) && us[i].uuid.Some? {
      UuidsExact(us, i, job.cfg.group, us[i].uuid.value);
    }
  }

  // ---------- The lists, exactly ----------

  lemma {:induction false} DecidedIff(us: seq<User>, n: nat, i: nat, job: Job, d: Decision)
    requires n <= |us| && i < |us| && UniqueNames(us)
    ensures us[i].name in Decided(us, n, job, d) <==> i < n && DecisionAt(us, i, job) == d
  {
    if n > 0 {
      DecidedIff(us, n - 1, i, job, d);
      if i < n - 1 { assert us[i].name != us[n - 1].name; }
      if n - 1 < i { assert us[n - 1].name != us[i].name; }
    }
  }

  lemma {:induction false} InDeferOps(names: seq<string>, day: u32, op: Op)
    ensures op in DeferOps(names, day) <==> op.SetDefer? && op.day == day && op.name in names
  {
    if names != [] {
      InDeferOps(names[1..], day, op);
    }
  }

  lemma {:induction false} InRemoveOps(names: seq<string>, op: Op)
    ensures op in RemoveOps(names) <==> op.Remove? && op.name in names
  {
    if names != [] {
      InRemoveOps(names[1..], op);
    }
  }

  lemma {:induction false} InUpdateOpsPut(m: OMap<User>, k: string, u: User, op: Op)
    requires Lookup(m, k) == None
    ensures op in UpdateOps(Put(m, k, u)) <==> op in UpdateOps(m) || op == SetPvgrp(u.name, Or(u.pvgrp, ""))
  {
    if m.Node? {
      InUpdateOpsPut(m.next, k, u, op);
    }
  }

  lemma {:induction false} UpdatesKeys(us: seq<User>, n: nat, job: Job, k: string)
    requires n <= |us|
    ensures Sorted(Updates(us, n, job))
    ensures k !in Uuids(us, n, job.cfg.group) ==> Lookup(Updates(us, n, job), k) == None
  {
    if n > 0 {
      UpdatesKeys(us, n - 1, job, k);
      var u := us[n - 1];
      if Member(job.cfg.group, u) && Found(us, n - 1, job) {
        var act := u.(pvgrp := Some(Lookup(job.eds, u.uuid.value).value.pvgrp));
        PutSorted(Updates(us, n - 1, job), u.uuid.value, act);
        PutLookup(Updates(us, n - 1, job), u.uuid.value, act, k);
      }
    }
  }

  /** User i's group tag is to be rewritten. */
  predicate Rewritten(us: seq<User>, i: nat, job: Job)
    requires i < |us|
  {
    Member(job.cfg.group, us[i]) && Found(us, i, job)
      && Lookup(job.eds, us[i].uuid.value).value.pvgrp != us[i].uuid.value
  }

  lemma {:induction false} UpdatesIff(us: seq<User>, n: nat, i: nat, job: Job, op: Op)
    requires n <= |us| && i < |us| && UniqueNames(us) && op.name == us[i].name
    ensures op in UpdateOps(Updates(us, n, job))
            <==> (i < n && Rewritten(us, i, job)
                  && op == SetPvgrp(us[i].name, Lookup(job.eds, us[i].uuid.value).value.pvgrp))
  {
    if n > 0 {
      UpdatesIff(us, n - 1, i, job, op);
      if i < n - 1 { assert us[i].name != us[n - 1].name; }
      if n - 1 < i { assert us[n - 1].name != us[i].name; }
      if Rewritten(us, n - 1, job) {
        var u := us[n - 1];
        UpdatesKeys(us, n - 1, job, u.uuid.value);
        InUpdateOpsPut(Updates(us, n - 1, job), u.uuid.value,
                       u.(pvgrp := Some(Lookup(job.eds, u.uuid.value).value.pvgrp)), op);
      }
    }
  }

  // ---------- Wishes: the changes a user's decision calls for ----------

  /** The group tag of the user's entry in the external list. */
  function TagOf(u: User, job: Job): string {
    if Present(u, job) then Lookup(job.eds, u.uuid.value).value.pvgrp else ""
  }

  function DayOf(u: User, job: Job): u32 { if DecisionFor(u, job) == Start then job.today else 0 }

  predicate WantsTag(u: User, job: Job) { DecisionFor(u, job) in {Keep, KeepStop} && TagOf(u, job) != u.uuid.value }

  predicate WantsTimer(u: User, job: Job) { DecisionFor(u, job) in {Start, KeepStop} }

  predicate WantsRemoval(u: User, job: Job) { DecisionFor(u, job) == DeleteNow }

  predicate Wanted(u: User, job: Job, op: Op) {
    match op
    case SetPvgrp(_, p) => WantsTag(u, job) && p == TagOf(u, job)
    case SetDefer(_, d) => WantsTimer(u, job) && d == DayOf(u, job)
    case Remove(_) => WantsRemoval(u, job)
  }

  /** The run's operations on a user are exactly the wanted ones. */
  lemma OpsIff(us: seq<User>, i: nat, job: Job, op: Op)
    requires i < |us| && UniqueNames(us) && UniqueUuids(us, job.cfg.group) && op.name == us[i].name
    ensures op in Ops(us, job) <==> Wanted(us[i], job, op)
  {
    var n := |us|;
    DecisionAtIsFor(us, i, job);
    UpdatesIff(us, n, i, job, op);
    InDeferOps(Decided(us, n, job, Start), job.today, op);
    InDeferOps(Decided(us, n, job, KeepStop), 0, op);
    InRemoveOps(Decided(us, n, job, DeleteNow), op);
    DecidedIff(us, n, i, job, Start);
    DecidedIff(us, n, i, job, KeepStop);
    DecidedIff(us, n, i, job, DeleteNow);
  }

  /** A user after some of the changes it can be subject to. */
  function Changed(u: User, job: Job, tag: bool, timer: bool, removed: bool): Option<User> {
    if removed then None
    else Some(u.(pvgrp := if tag then Some(TagOf(u, job)) else u.pvgrp,
                 defer := if timer then DayOf(u, job) else u.defer))
  }

  /** Where every change to a user sets the same tag and the same day, their order does not matter. */
  lemma {:induction false} EffectByMembership(u: User, ops: seq<Op>, tag: string, day: u32)
    requires forall op: Op :: op in ops && op.name == u.name ==>
             (op.SetPvgrp? ==> op.pvgrp == tag) && (op.SetDefer? ==> op.day == day)
    ensures EffectAll(u, ops)
            == if Remove(u.name) in ops then None
               else Some(u.(pvgrp := if SetPvgrp(u.name, tag) in ops then Some(tag) else u.pvgrp,
                            defer := if SetDefer(u.name, day) in ops then day else u.defer))
    decreases |ops|
  {
    if ops != [] {
      assert ops == [ops[0]] + ops[1..];
      assert ops[0] in ops;
      if Effect(u, ops[0]).Some? {
        EffectByMembership(Effect(u, ops[0]).value, ops[1..], tag, day);
      }
    }
  }

  /** Each of these operations is one of the run's. */
  predicate PartOf(part: seq<Op>, us: seq<User>, job: Job) { forall op :: op in part ==> op in Ops(us, job) }

  lemma PrefixIsPart(pre: seq<Op>, us: seq<User>, job: Job)
    requires pre <= Ops(us, job)
    ensures PartOf(pre, us, job)
  {
    forall op | op in pre
      ensures op in Ops(us, job)
    {
      var k :| 0 <= k < |pre| && pre[k] == op;
      assert Ops(us, job)[k] == op;
    }
  }

  /** A user after any part of a run's operations: it has each change it is due whose request is among
      them. */
  lemma CutOutcome(us: seq<User>, i: nat, job: Job, part: seq<Op>) returns (tag: bool, timer: bool, removed: bool)
    requires i < |us| && UniqueNames(us) && UniqueUuids(us, job.cfg.group) && PartOf(part, us, job)
    ensures EffectAll(us[i], part) == Changed(us[i], job, tag, timer, removed)
    ensures tag == (SetPvgrp(us[i].name, TagOf(us[i], job)) in part)
            && timer == (SetDefer(us[i].name, DayOf(us[i], job)) in part)
    ensures removed == (Remove(us[i].name) in part)
    ensures (tag ==> WantsTag(us[i], job)) && (timer ==> WantsTimer(us[i], job))
            && (removed ==> WantsRemoval(us[i], job))
    ensures part == Ops(us, job) ==>
            tag == WantsTag(us[i], job) && timer == WantsTimer(us[i], job) && removed == WantsRemoval(us[i], job)
  {
    var u := us[i];
    forall op: Op | op.name == u.name
      ensures op in Ops(us, job) <==> Wanted(u, job, op)
    {
      OpsIff(us, i, job, op);
    }
    EffectByMembership(u, part, TagOf(u, job), DayOf(u, job));
    tag := SetPvgrp(u.name, TagOf(u, job)) in part;
    timer := SetDefer(u.name, DayOf(u, job)) in part;
    removed := Remove(u.name) in part;
  }

  /** A user after a complete run. */
  function Settled(u: User, job: Job): Option<User> {
    Changed(u, job, WantsTag(u, job), WantsTimer(u, job), WantsRemoval(u, job))
  }

  /** Days that a job may have: after day 0, with the deferral inside 32 bits. */
  predicate ValidDay(job: Job) { job.today > 0 && job.today + job.cfg.deferDays < 0x1_0000_0000 }

  /** A user caught half-way through a run settles, on the same day with the same list, as it would
      have without the interruption. */
  lemma SettledAfterCut(u: User, job: Job, tag: bool, timer: bool)
    requires ValidDay(job)
    requires (tag ==> WantsTag(u, job)) && (timer ==> WantsTimer(u, job))
    ensures Settled(Changed(u, job, tag, timer, false).value, job) == Settled(u, job)
  {
    var u' := Changed(u, job, tag, timer, false).value;
    assert Present(u', job) == Present(u, job) && TagOf(u', job) == TagOf(u, job);
    assert Member(job.cfg.group, u') == Member(job.cfg.group, u);
  }
}
