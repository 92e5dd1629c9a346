/** Main results about single runs: the partition made by the comparison, resumption after a run that
    was cut off, and convergence of the group to the external list. */
module SyncTheorems {
  import opened Prelude
  import opened OrderedMap
  import opened Vxdb
  import opened ShadowDriver
  import opened SyncSpec
  import opened SyncOps
  import opened SyncOutcome
  import opened SyncRun

  // ---------- The comparison partitions the group ----------

  /** Every member of the group is counted in exactly one of kept, start, wait and delete. */
  lemma {:induction false} SizesAddUp(us: seq<User>, n: nat, job: Job)
    requires n <= |us|
    ensures Members(us, n, job.cfg.group)
            == |Decided(us, n, job, Keep)| + |Decided(us, n, job, KeepStop)|
             + |Decided(us, n, job, Start)| + |Decided(us, n, job, Wait)| + |Decided(us, n, job, DeleteNow)|
  {
    if n > 0 {
      SizesAddUp(us, n - 1, job);
    }
  }

  /** Login names of the kept users. */
  predicate Kept(us: seq<User>, job: Job, x: string) {
    x in Decided(us, |us|, job, Keep) || x in Decided(us, |us|, job, KeepStop)
  }

  function Count(b: bool): nat { if b then 1 else 0 }

  /** A name is in exactly one of the four lists if it belongs to a member, and otherwise in none; a
      timer is stopped only for a kept user. */
  lemma ListsPartition(us: seq<User>, job: Job, i: nat)
    requires UniqueNames(us) && i < |us|
    ensures var x, n := us[i].name, |us|;
            Count(Kept(us, job, x)) + Count(x in Decided(us, n, job, Start)) + Count(x in Decided(us, n, job, Wait))
            + Count(x in Decided(us, n, job, DeleteNow)) == Count(Member(job.cfg.group, us[i]))
    ensures us[i].name in Decided(us, |us|, job, KeepStop) ==> Kept(us, job, us[i].name) && us[i].defer != 0
  {
    forall d { DecidedIff(us, |us|, i, job, d); }
  }

  /** UUIDs of the users that were found in the external list. */
  function KeptUuids(us: seq<User>, n: nat, job: Job): set<string>
    requires n <= |us|
  {
    if n == 0 then {}
    else if Member(job.cfg.group, us[n - 1]) && Found(us, n - 1, job)
    then KeptUuids(us, n - 1, job) + {us[n - 1].uuid.value}
    else KeptUuids(us, n - 1, job)
  }

  lemma {:induction false} KeptUuidsExact(us: seq<User>, n: nat, job: Job)
    requires n <= |us|
    ensures KeptUuids(us, n, job) == Uuids(us, n, job.cfg.group) * Keys(job.eds)
  {
    if n > 0 {
      KeptUuidsExact(us, n - 1, job);
      var u := us[n - 1];
      if Member(job.cfg.group, u) && u.uuid.Some? {
        InKeys(job.eds, u.uuid.value);
      }
    }
  }

  lemma {:induction false} WithoutKeys<V>(m: OMap<V>, gone: set<string>)
    ensures Keys(Without(m, gone)) == Keys(m) - gone
  {
    if m.Node? {
      WithoutKeys(m.next, gone);
    }
  }

  /** The request list loses exactly the UUIDs of the kept users. */
  lemma RequestsLoseKept(us: seq<User>, job: Job)
    ensures Keys(Unclaimed(us, job)) == Keys(job.eds) - KeptUuids(us, |us|, job)
  {
    KeptUuidsExact(us, |us|, job);
    WithoutKeys(job.eds, Uuids(us, |us|, job.cfg.group));
  }

  // ---------- Resumption ----------

  lemma KeysOfAll(m: Eds, n: nat)
    requires n >= Size(m)
    ensures KeysOf(m, n) == Keys(m)
    decreases n
  {
    if m.Node? {
      KeysOfAll(m.next, n - 1);
    }
  }

  /** A run cut off among its additions: the rerun makes the remaining ones, under the same names. */
  lemma RemainingAdditions(us: seq<User>, job: Job, news: seq<User>)
    requires ValidJob(job) && ValidDb(us, job.cfg.group) && Additions(us, job).Some?
    requires var adds := Additions(us, job).value; |news| <= Size(adds) && MadeFrom(news, adds, job.cfg)
    ensures Additions(us + news, job) == Some(Drop(Additions(us, job).value, |news|))
  {
    var adds, m, n := Additions(us, job).value, Unclaimed(us, job), |news|;
    var gone := Uuids(us, |us|, job.cfg.group);
    AdditionsFacts(us, job);
    NewUuids(us, news, adds, job);
    NewNames(us, news, adds, job);
    assert KeysOf(adds, n) == KeysOf(m, n);
    WithoutTwice(job.eds, gone, KeysOf(m, n));
    WithoutSorted(job.eds, gone);
    WithoutFirst(m, n);
    AllotRest(m, VisibleNames(us, |us|), adds, n);
  }

  lemma NewsUuids(us: seq<User>, job: Job, news: seq<User>)
    requires ValidJob(job) && Additions(us, job).Some?
    requires var adds := Additions(us, job).value; |news| == Size(adds) && MadeFrom(news, adds, job.cfg)
    ensures Uuids(news, |news|, job.cfg.group) == Keys(job.eds) - Uuids(us, |us|, job.cfg.group)
  {
    var adds := Additions(us, job).value;
    AdditionsFacts(us, job);
    KeysOfAll(adds, |news|);
    NewUuids([], news, adds, job);
    assert [] + news == news;
  }

  lemma AllFoundStay(us: seq<User>, job: Job, pre: seq<Op>)
    requires ValidDb(us, job.cfg.group) && PartOf(pre, us, job)
    ensures Keys(job.eds) * Uuids(us, |us|, job.cfg.group) <= Uuids(Through(us, pre), |Through(us, pre)|, job.cfg.group)
  {
    forall x | x in Uuids(us, |us|, job.cfg.group) && x in Keys(job.eds)
      ensures x in Uuids(Through(us, pre), |Through(us, pre)|, job.cfg.group)
    {
      FoundUuidsStay(us, job, pre, x);
    }
  }

  /** After all additions every listed UUID belongs to a member, whatever else was done. */
  lemma AllListedPresent(us: seq<User>, job: Job, news: seq<User>, pre: seq<Op>)
    requires ValidJob(job) && ValidDb(us, job.cfg.group) && Additions(us, job).Some? && PartOf(pre, us, job)
    requires |news| == Size(Additions(us, job).value) && MadeFrom(news, Additions(us, job).value, job.cfg)
    ensures Keys(job.eds) <= Uuids(Through(us, pre) + news, |Through(us, pre) + news|, job.cfg.group)
  {
    NewsUuids(us, job, news);
    AllFoundStay(us, job, pre);
    Covered(Keys(job.eds), Uuids(us, |us|, job.cfg.group), Through(us, pre), news, job.cfg.group);
  }

  lemma Covered(keys: set<string>, before: set<string>, us: seq<User>, vs: seq<User>, g: Group)
    requires keys * before <= Uuids(us, |us|, g) && Uuids(vs, |vs|, g) == keys - before
    ensures keys <= Uuids(us + vs, |us + vs|, g)
  {
    UuidsConcat(us, vs, |vs|, g);
  }

  lemma NothingToAdd(us: seq<User>, job: Job)
    requires Keys(job.eds) <= Uuids(us, |us|, job.cfg.group)
    ensures Additions(us, job) == Some(Nil)
  {
    WithoutAll(job.eds, Uuids(us, |us|, job.cfg.group));
  }

  /** The half-way database settles like the original one, new users staying as they are. */
  lemma CutSettles(us: seq<User>, job: Job, news: seq<User>, pre: seq<Op>)
    requires ValidJob(job) && ValidDb(us, job.cfg.group) && Additions(us, job).Some? && PartOf(pre, us, job)
    requires MadeFrom(news, Additions(us, job).value, job.cfg)
    ensures Settle(Through(us, pre) + news, job) == Settle(us, job) + news
  {
    AdditionsFacts(us, job);
    NewsSettle(news, Additions(us, job).value, job);
    SettleConcat(Through(us, pre), news, job);
    PartThenSettle(us, job, pre);
  }

  lemma ConcatAssociative(a: seq<User>, b: seq<User>, c: seq<User>)
    ensures a + b + c == a + (b + c)
  {
  }

  lemma SameSuffix(us: seq<User>, a: seq<User>, b: seq<User>)
    requires us + a == us + b
    ensures a == b
  {
    assert (us + a)[|us|..] == a && (us + b)[|us|..] == b;
  }

  /** Additions made in part are completed by adding the rest. */
  lemma RestOfAdditions(us: seq<User>, adds: Eds, k: nat, news: seq<User>, allNews: seq<User>, cfg: Config,
                        range: IdRange)
    returns (more: seq<User>)
    requires range.Valid() && k <= Size(adds) && UniqueNames(us + news)
    requires AddFirst(us, adds, k, cfg, range) == Some(us + news)
    requires AddFirst(us, adds, Size(adds), cfg, range) == Some(us + allNews)
    ensures AddFirst(us + news, Drop(adds, k), Size(Drop(adds, k)), cfg, range) == Some(us + news + more)
    ensures UniqueNames(us + news + more) && news + more == allNews
  {
    hide AddFirst;
    var mid, rest := us + news, Drop(adds, k);
    SizeOfDrop(adds, k);
    AddInTwo(us, adds, k, Size(rest), mid, cfg, range);
    more := AddedUsers(mid, rest, Size(rest), cfg, range);
    assert mid + more == us + (news + more);
    SameSuffix(us, news + more, allNews);
    AddKeepsNames(mid, rest, Size(rest), cfg, range);
  }

  lemma ResumeAmongAdditions(us: seq<User>, job: Job, news: seq<User>, allNews: seq<User>, settled: seq<User>)
    requires ValidJob(job) && ValidDb(us, job.cfg.group) && Additions(us, job).Some? && UniqueNames(us + news)
    requires var adds := Additions(us, job).value;
             && |news| <= Size(adds) && MadeFrom(news, adds, job.cfg)
             && AddFirst(us, adds, |news|, job.cfg, job.range) == Some(us + news)
             && AddFirst(us, adds, Size(adds), job.cfg, job.range) == Some(us + allNews)
    requires Through(us + news, Ops(us + news, job)) == settled + news
    ensures Additions(us + news, job).Some?
    ensures After(us + news, job, Steps(us + news, job)) == Some(settled + allNews)
  {
    var adds := Additions(us, job).value;
    RemainingAdditions(us, job, news);
    var more := RestOfAdditions(us, adds, |news|, news, allNews, job.cfg, job.range);
    OpsUntouched(us + news, more, job, Ops(us + news, job));
    CompleteAfter(us + news, job, Drop(adds, |news|));
    ConcatAssociative(settled, news, more);
  }

  // ---------- Without removals ----------

  /** The same users, but for group tags and timers. */
  predicate Alike(us: seq<User>, vs: seq<User>) {
    |us| == |vs| && forall i :: 0 <= i < |us| ==> vs[i] == us[i].(pvgrp := vs[i].pvgrp, defer := vs[i].defer)
  }

  lemma {:induction false} EffectAllAlike(u: User, ops: seq<Op>)
    requires NoRemovals(ops)
    ensures EffectAll(u, ops).Some?
    ensures var v := EffectAll(u, ops).value; v == u.(pvgrp := v.pvgrp, defer := v.defer)
    decreases |ops|
  {
    if ops != [] {
      assert ops[0] in ops;
      EffectAllAlike(Effect(u, ops[0]).value, ops[1..]);
    }
  }

  lemma {:induction false} ThroughAlike(us: seq<User>, ops: seq<Op>)
    requires NoRemovals(ops)
    ensures Alike(us, Through(us, ops))
  {
    hide EffectAll;
    if us != [] {
      EffectAllAlike(us[0], ops);
      ThroughAlike(us[1..], ops);
    }
  }

  lemma {:induction false} AlikeClaims(us: seq<User>, vs: seq<User>, n: nat, g: Group)
    requires Alike(us, vs) && n <= |us|
    ensures Uuids(vs, n, g) == Uuids(us, n, g) && VisibleNames(vs, n) == VisibleNames(us, n)
  {
    if n > 0 {
      AlikeClaims(us, vs, n - 1, g);
    }
  }

  lemma AlikeTaken(us: seq<User>, vs: seq<User>)
    requires Alike(us, vs)
    ensures NameSet(vs) == NameSet(us) && UidSet(vs) == UidSet(us)
  {
    forall i | 0 <= i < |us|
      ensures vs[i].name in NameSet(us) && us[i].name in NameSet(vs) && vs[i].uid in UidSet(us)
              && us[i].uid in UidSet(vs)
    {
      assert us[i] in us && vs[i] in vs;
    }
  }

  lemma OneAlike(us: seq<User>, vs: seq<User>, rq: User, range: IdRange)
    requires Alike(us, vs) && range.Valid()
    ensures range.AddStatus(vs, true, rq, Auto) == range.AddStatus(us, true, rq, Auto)
    ensures range.AddStatus(us, true, rq, Auto) == Success ==> range.Added(vs, rq, Auto) == range.Added(us, rq, Auto)
  {
    AlikeTaken(us, vs);
    InNameSet(us, rq.name);
    InNameSet(vs, rq.name);
  }

  lemma FirstAlike(us: seq<User>, vs: seq<User>, m: Eds, n: nat, cfg: Config, range: IdRange) returns (u: User)
    requires Alike(us, vs) && range.Valid() && n > 0 && m.Node? && AddFirst(us, m, n, cfg, range).Some?
    ensures AddFirst(us, m, n, cfg, range) == AddFirst(us + [u], m.next, n - 1, cfg, range)
    ensures AddFirst(vs, m, n, cfg, range) == AddFirst(vs + [u], m.next, n - 1, cfg, range)
  {
    OneAlike(us, vs, NewUser(m.val, cfg), range);
    u := range.Added(us, NewUser(m.val, cfg), Auto);
  }

  /** Additions depend on names and ids only. */
  lemma {:induction false} AddsAlike(us: seq<User>, vs: seq<User>, m: Eds, n: nat, cfg: Config, range: IdRange)
    returns (news: seq<User>)
    requires Alike(us, vs) && range.Valid() && AddFirst(us, m, n, cfg, range).Some?
    ensures AddFirst(us, m, n, cfg, range) == Some(us + news) && AddFirst(vs, m, n, cfg, range) == Some(vs + news)
    decreases n
  {
    hide AddFirst, NewUser;
    if n == 0 || m.Nil? {
      news := [];
      NothingAdded(us, m, n, cfg, range);
      NothingAdded(vs, m, n, cfg, range);
      assert us + [] == us && vs + [] == vs;
    } else {
      var u := FirstAlike(us, vs, m, n, cfg, range);
      var rest := AddsAlike(us + [u], vs + [u], m.next, n - 1, cfg, range);
      news := [u] + rest;
      ConcatAssociative(us, [u], rest);
      ConcatAssociative(vs, [u], rest);
    }
  }

  /** A run that skipped its additions and removed nobody: the rerun makes them as the full run does. */
  lemma ResumeWithAdditions(us: seq<User>, job: Job, part: seq<Op>, allNews: seq<User>)
    requires ValidJob(job) && ValidDb(us, job.cfg.group) && Additions(us, job).Some? && NoRemovals(part)
    requires ValidDb(Through(us, part), job.cfg.group)
    requires var adds := Additions(us, job).value;
             AddFirst(us, adds, Size(adds), job.cfg, job.range) == Some(us + allNews)
    requires Settle(Through(us, part), job) == Settle(us, job)
    ensures var mid := Through(us, part);
            && Additions(mid, job).Some?
            && After(mid, job, Steps(mid, job)) == Some(Settle(us, job) + allNews)
  {
    hide AddFirst, Through, Settle;
    var mid, adds := Through(us, part), Additions(us, job).value;
    ThroughAlike(us, part);
    AlikeClaims(us, mid, |us|, job.cfg.group);
    assert Additions(mid, job) == Some(adds);
    var news := AddsAlike(us, mid, adds, Size(adds), job.cfg, job.range);
    SameSuffix(us, news, allNews);
    AddKeepsNames(mid, adds, Size(adds), job.cfg, job.range);
    OpsUntouched(mid, news, job, Ops(mid, job));
    OpsSettle(mid, job);
    CompleteAfter(mid, job, adds);
  }

  /** Whatever parts of a run are carried out and wherever it is cut off, a full rerun on the same day with
      the same list ends with exactly the database of the uninterrupted run: same users, names, ids, tags
      and timers, in the same order. Only a run that deletes without having added is left out. */
  lemma Resumption(us: seq<User>, job: Job, parts: Parts, k: nat, mid: seq<User>, final: seq<User>)
    requires ValidJob(job) && ValidDb(us, job.cfg.group) && Additions(us, job).Some?
    requires parts.add || NoRemovals(Executed(us, job, parts, k))
    requires AfterParts(us, job, parts, k) == Some(mid)
    requires After(us, job, Steps(us, job)) == Some(final)
    ensures Additions(mid, job).Some? && After(mid, job, Steps(mid, job)) == Some(final)
  {
    hide AfterParts, Executed, Steps, AddFirst, Through, PartOps, NoRemovals, Settle;
    var adds, part := Additions(us, job).value, Executed(us, job, parts, k);
    var news := PartShape(us, job, parts, k, mid);
    var allNews := CompleteShape(us, job, final);
    CutValid(us, job, parts, k, mid);
    CutSettles(us, job, news, part);
    OpsSettle(mid, job);
    if !parts.add {
      NothingElse(Through(us, part), Settle(us, job));
      ResumeWithAdditions(us, job, part, allNews);
    } else if k <= Size(adds) {
      EmptyThrough(us);
      ResumeAmongAdditions(us, job, news, allNews, Settle(us, job));
    } else {
      AddBeyond(us, adds, k, Size(adds), job.cfg, job.range);
      SameSuffix(us, news, allNews);
      AllListedPresent(us, job, news, part);
      NothingToAdd(mid, job);
      NothingAdded(mid, Nil, 0, job.cfg, job.range);
      CompleteAfter(mid, job, Nil);
    }
  }

  lemma NothingElse(us: seq<User>, vs: seq<User>)
    ensures us + [] == us && vs + [] == vs
  {
  }

  lemma {:induction false} SizeOfDrop(m: Eds, n: nat)
    requires n <= Size(m)
    ensures Size(Drop(m, n)) == Size(m) - n
    decreases n
  {
    if n > 0 {
      SizeOfDrop(m.next, n - 1);
    }
  }

  // ---------- Which runs can be resumed ----------

  /** A run of these parts cut off after k changes leads to `mid`, where the whole run leads to `final`. */
  ghost predicate Interrupted(us: seq<User>, job: Job, parts: Parts, k: nat, mid: seq<User>, final: seq<User>) {
    && ValidJob(job) && ValidDb(us, job.cfg.group) && Additions(us, job).Some?
    && AfterParts(us, job, parts, k) == Some(mid) && After(us, job, Steps(us, job)) == Some(final)
  }

  ghost predicate Resumed(mid: seq<User>, job: Job, final: seq<User>) {
    job.range.Valid() && Additions(mid, job).Some? && After(mid, job, Steps(mid, job)) == Some(final)
  }
}
