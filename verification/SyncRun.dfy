/** Whole runs: what a complete run leaves behind, and that a run cut off anywhere can be repeated. */
module SyncRun {
  import opened Prelude
  import opened OrderedMap
  import opened Vxdb
  import opened ShadowDriver
  import opened LoginNames
  import opened SyncSpec
  import opened SyncOps
  import opened SyncOutcome

  /** Entries as the list reader produces them: keyed by UUID, with a proposed login name. */
  predicate ValidEds(eds: Eds) {
    eds.Node? ==> eds.key == eds.val.uuid && Proposed(eds.val.username) && ValidEds(eds.next)
  }

  predicate ValidJob(job: Job) {
    job.range.Valid() && ValidDay(job) && job.cfg.group.gid != NOGID && Sorted(job.eds) && ValidEds(job.eds)
  }

  predicate ValidDb(us: seq<User>, g: Group) { UniqueNames(us) && UniqueUuids(us, g) }

  // ---------- Settling a list of users ----------

  function Settle(us: seq<User>, job: Job): seq<User> {
    if us == [] then [] else AsSeq(Settled(us[0], job)) + Settle(us[1..], job)
  }

  lemma {:induction false} SettleConcat(us: seq<User>, vs: seq<User>, job: Job)
    ensures Settle(us + vs, job) == Settle(us, job) + Settle(vs, job)
  {
    if us == [] {
      assert us + vs == vs;
    } else {
      assert (us + vs)[1..] == us[1..] + vs;
      SettleConcat(us[1..], vs, job);
    }
  }

  lemma {:induction false} ThroughSettles(us: seq<User>, ops: seq<Op>, job: Job)
    requires forall u :: u in us ==> EffectAll(u, ops) == Settled(u, job)
    ensures Through(us, ops) == Settle(us, job)
  {
    if us != [] {
      assert us[0] in us;
      ThroughSettles(us[1..], ops, job);
    }
  }

  /** Settling after a part of the operations is settling at once. */
  lemma {:induction false} SettleAfterPart(us: seq<User>, ops: seq<Op>, job: Job)
    requires forall u :: u in us ==> match EffectAll(u, ops)
                                     case None => Settled(u, job) == None
                                     case Some(v) => Settled(v, job) == Settled(u, job)
    ensures Settle(Through(us, ops), job) == Settle(us, job)
  {
    if us != [] {
      assert us[0] in us;
      SettleAfterPart(us[1..], ops, job);
      var head := AsSeq(EffectAll(us[0], ops));
      SettleConcat(head, Through(us[1..], ops), job);
      if head != [] { assert head[1..] == []; assert Settle([], job) == []; }
    }
  }

  lemma OpsSettle(us: seq<User>, job: Job)
    requires ValidDb(us, job.cfg.group)
    ensures Through(us, Ops(us, job)) == Settle(us, job)
  {
    forall u | u in us
      ensures EffectAll(u, Ops(us, job)) == Settled(u, job)
    {
      var i :| 0 <= i < |us| && us[i] == u;
      var tag, timer, removed := CutOutcome(us, i, job, Ops(us, job));
    }
    ThroughSettles(us, Ops(us, job), job);
  }

  lemma PartThenSettle(us: seq<User>, job: Job, pre: seq<Op>)
    requires ValidDb(us, job.cfg.group) && ValidDay(job) && PartOf(pre, us, job)
    ensures Settle(Through(us, pre), job) == Settle(us, job)
  {
    forall u | u in us
      ensures match EffectAll(u, pre)
              case None => Settled(u, job) == None
              case Some(v) => Settled(v, job) == Settled(u, job)
    {
      var i :| 0 <= i < |us| && us[i] == u;
      var tag, timer, removed := CutOutcome(us, i, job, pre);
      if !removed { SettledAfterCut(u, job, tag, timer); }
    }
    SettleAfterPart(us, pre, job);
  }

  // ---------- Additions ----------

  /** `news` are the users made from the first entries of `m`. */
  predicate MadeFrom(news: seq<User>, m: Eds, cfg: Config) {
    news == [] ||
    (m.Node? && news[0] == NewUser(m.val, cfg).(uid := news[0].uid, igrp := None) && MadeFrom(news[1..], m.next, cfg))
  }

  lemma {:induction false} AddedUsers(us: seq<User>, m: Eds, n: nat, cfg: Config, range: IdRange)
    returns (news: seq<User>)
    requires range.Valid() && AddFirst(us, m, n, cfg, range).Some?
    ensures AddFirst(us, m, n, cfg, range) == Some(us + news) && MadeFrom(news, m, cfg)
    ensures |news| == if n <= Size(m) then n else Size(m)
    decreases n
  {
    hide AddFirst, NewUser;
    if n == 0 || m.Nil? {
      news := [];
      NothingAdded(us, m, n, cfg, range);
      assert us + [] == us;
    } else {
      var u := AddFirstStep(us, m, n, cfg, range);
      var rest := AddedUsers(us + [u], m.next, n - 1, cfg, range);
      news := [u] + rest;
      assert us + [u] + rest == us + news;
      assert news[1..] == rest;
    }
  }

  /** Adding in two goes is adding in one. */
  lemma {:induction false} AddInTwo(us: seq<User>, m: Eds, n: nat, k: nat, mid: seq<User>, cfg: Config, range: IdRange)
    requires range.Valid() && n <= Size(m) && AddFirst(us, m, n, cfg, range) == Some(mid)
    ensures AddFirst(us, m, n + k, cfg, range) == AddFirst(mid, Drop(m, n), k, cfg, range)
    decreases n
  {
    hide AddFirst, NewUser;
    if n == 0 {
      NothingAdded(us, m, 0, cfg, range);
    } else {
      var u := AddFirstStep(us, m, n, cfg, range);
      AddInTwo(us + [u], m.next, n - 1, k, mid, cfg, range);
    }
  }

  /** Keys and names of the first n nodes. */
  function KeysOf(m: Eds, n: nat): set<string> { if n == 0 || m.Nil? then {} else {m.key} + KeysOf(m.next, n - 1) }

  function NamesOf(m: Eds, n: nat): set<string> {
    if n == 0 || m.Nil? then {} else {m.val.username} + NamesOf(m.next, n - 1)
  }

  lemma {:induction false} AllotKeepsKeys(m: Eds, taken: set<string>)
    requires Allot(m, taken).Some? && ValidEds(m)
    ensures var r := Allot(m, taken).value;
            Keys(r) == Keys(m) && Size(r) == Size(m) && (forall n: nat :: KeysOf(r, n) == KeysOf(m, n))
    ensures KeyedByUuid(Allot(m, taken).value)
  {
    if m.Node? {
      var name := PickName(m.val.username, taken).value;
      AllotKeepsKeys(m.next, taken + {name});
      var r, r' := Allot(m, taken).value, Allot(m.next, taken + {name}).value;
      forall n: nat ensures KeysOf(r, n) == KeysOf(m, n) {
        if n > 0 { assert KeysOf(r', n - 1) == KeysOf(m.next, n - 1); }
      }
    }
  }

  lemma AllotHead(m: Eds, taken: set<string>, r: Eds)
    requires m.Node? && Allot(m, taken) == Some(r)
    ensures r.Node? && r.key == m.key && Allot(m.next, taken + {r.val.username}) == Some(r.next)
  {
  }

  /** Allotting the rest, with the first names taken, gives the rest of the allotment. */
  lemma {:induction false} AllotRest(m: Eds, taken: set<string>, r: Eds, n: nat)
    requires Allot(m, taken) == Some(r) && n <= Size(m)
    ensures Allot(Drop(m, n), taken + NamesOf(r, n)) == Some(Drop(r, n))
    decreases n
  {
    hide PickName;
    if n == 0 {
      assert taken + NamesOf(r, 0) == taken;
    } else {
      AllotHead(m, taken, r);
      var taken' := taken + {r.val.username};
      AllotRest(m.next, taken', r.next, n - 1);
      assert Drop(m, n) == Drop(m.next, n - 1) && Drop(r, n) == Drop(r.next, n - 1);
      assert taken + {r.val.username} + NamesOf(r.next, n - 1) == taken + NamesOf(r, n);
    }
  }

  lemma {:induction false} WithoutFirst(m: Eds, n: nat)
    requires Sorted(m)
    ensures Without(m, KeysOf(m, n)) == Drop(m, n)
    ensures KeysOf(m, n) <= Keys(m)
    decreases n
  {
    if n > 0 && m.Node? {
      FirstKeyUnique(m);
      WithoutFirst(m.next, n - 1);
      var rest := KeysOf(m.next, n - 1);
      WithoutTwice(m.next, {m.key}, rest);
      WithoutNothing(m.next, {m.key});
      assert {m.key} + rest == KeysOf(m, n);
    } else {
      WithoutNothing(m, {});
    }
  }

  predicate PlainNames(m: Eds) { m.Node? ==> !IsNis(m.val.username) && PlainNames(m.next) }

  /** A variant of a proposed name is never taken for a NIS entry. */
  lemma PickedIsPlain(base: string, taken: set<string>)
    requires Proposed(base) && PickName(base, taken).Some?
    ensures !IsNis(PickName(base, taken).value)
  {
    var k := FreeIndex(base, taken, 0);
    var c := Candidate(base, k);
    if k > 0 { IndexLength(k); }
    assert c[0] == base[0];
    assert base[0] in base;
  }

  lemma {:induction false} AllotIsPlain(m: Eds, taken: set<string>)
    requires ValidEds(m) && Allot(m, taken).Some?
    ensures PlainNames(Allot(m, taken).value)
  {
    if m.Node? {
      PickedIsPlain(m.val.username, taken);
      AllotIsPlain(m.next, taken + {PickName(m.val.username, taken).value});
    }
  }

  lemma {:induction false} UuidsPrefix(us: seq<User>, vs: seq<User>, n: nat, g: Group)
    requires n <= |us|
    ensures Uuids(us + vs, n, g) == Uuids(us, n, g)
    ensures VisibleNames(us + vs, n) == VisibleNames(us, n)
  {
    if n > 0 {
      UuidsPrefix(us, vs, n - 1, g);
    }
  }

  /** Members with distinct UUIDs stay so when a member with a new one is appended. */
  lemma AppendUuid(us: seq<User>, u: User, g: Group)
    requires UniqueUuids(us, g) && u.uuid.Some? && u.uuid.value !in Uuids(us, |us|, g)
    ensures UniqueUuids(us + [u], g)
  {
    forall i | 0 <= i < |us| && Member(g, us[i]) && us[i].uuid.Some?
      ensures us[i].uuid != u.uuid
    {
      UuidsExact(us, |us|, g, us[i].uuid.value);
    }
  }

  lemma NewMember(us: seq<User>, u: User, m: Eds, job: Job)
    requires job.cfg.group.gid != NOGID && m.Node? && PlainNames(m) && KeyedByUuid(m)
    requires u == NewUser(m.val, job.cfg).(uid := u.uid, igrp := None)
    ensures Uuids(us + [u], |us| + 1, job.cfg.group) == Uuids(us, |us|, job.cfg.group) + {m.key}
    ensures VisibleNames(us + [u], |us| + 1) == VisibleNames(us, |us|) + {m.val.username}
    ensures UniqueUuids(us, job.cfg.group) && m.key !in Uuids(us, |us|, job.cfg.group) ==>
            UniqueUuids(us + [u], job.cfg.group)
  {
    UuidsPrefix(us, [u], |us|, job.cfg.group);
    if UniqueUuids(us, job.cfg.group) && m.key !in Uuids(us, |us|, job.cfg.group) {
      AppendUuid(us, u, job.cfg.group);
    }
  }

  /** The users that new entries turn into are members with those UUIDs. */
  lemma {:induction false} NewUuids(us: seq<User>, news: seq<User>, m: Eds, job: Job)
    requires job.cfg.group.gid != NOGID && MadeFrom(news, m, job.cfg) && |news| <= Size(m)
    requires PlainNames(m) && KeyedByUuid(m) && Sorted(m)
    requires UniqueUuids(us, job.cfg.group) && Keys(m) !! Uuids(us, |us|, job.cfg.group)
    ensures Uuids(us + news, |us + news|, job.cfg.group) == Uuids(us, |us|, job.cfg.group) + KeysOf(m, |news|)
    ensures UniqueUuids(us + news, job.cfg.group)
    decreases |news|
  {
    hide Uuids, NewUser;
    if news == [] {
      assert us + news == us;
    } else {
      NewMember(us, news[0], m, job);
      FirstKeyUnique(m);
      NewUuids(us + [news[0]], news[1..], m.next, job);
      assert us + [news[0]] + news[1..] == us + news;
    }
  }

  /** They are delivered under their new names. */
  lemma {:induction false} NewNames(us: seq<User>, news: seq<User>, m: Eds, job: Job)
    requires job.cfg.group.gid != NOGID && MadeFrom(news, m, job.cfg) && |news| <= Size(m)
    requires PlainNames(m) && KeyedByUuid(m)
    ensures VisibleNames(us + news, |us + news|) == VisibleNames(us, |us|) + NamesOf(m, |news|)
    decreases |news|
  {
    if news == [] {
      assert us + news == us;
    } else {
      NewMember(us, news[0], m, job);
      NewNames(us + [news[0]], news[1..], m.next, job);
      assert us + [news[0]] + news[1..] == us + news;
    }
  }

  /** Entries of the external list, under the names they were given. */
  predicate ListedIn(m: Eds, eds: Eds) {
    m.Node? ==> Lookup(eds, m.key).Some? && Lookup(eds, m.key).value.pvgrp == m.val.pvgrp && ListedIn(m.next, eds)
  }

  lemma {:induction false} AllotListed(m: Eds, taken: set<string>, eds: Eds)
    requires Allot(m, taken).Some? && forall k :: Lookup(m, k).Some? ==> Lookup(eds, k) == Lookup(m, k)
    requires Sorted(m)
    ensures ListedIn(Allot(m, taken).value, eds)
  {
    if m.Node? {
      assert Lookup(m, m.key).Some?;
      forall k | Lookup(m.next, k).Some?
        ensures Lookup(eds, k) == Lookup(m.next, k)
      {
        FirstKeyUnique(m);
        InKeys(m.next, k);
        assert Lookup(m, k) == Lookup(m.next, k);
      }
      AllotListed(m.next, taken + {PickName(m.val.username, taken).value}, eds);
    }
  }

  lemma {:induction false} NewsSettle(news: seq<User>, m: Eds, job: Job)
    requires MadeFrom(news, m, job.cfg) && ListedIn(m, job.eds) && KeyedByUuid(m) && PlainNames(m)
    requires job.cfg.group.gid != NOGID
    ensures Settle(news, job) == news
    decreases |news|
  {
    if news != [] {
      NewsSettle(news[1..], m.next, job);
      assert Present(news[0], job) && Settled(news[0], job) == Some(news[0]);
    }
  }

  lemma {:induction false} AllotSorted(m: Eds, taken: set<string>)
    requires Sorted(m) && Allot(m, taken).Some?
    ensures Sorted(Allot(m, taken).value)
    ensures Allot(m, taken).value.Node? ==> m.Node? && Allot(m, taken).value.key == m.key
  {
    if m.Node? {
      AllotSorted(m.next, taken + {PickName(m.val.username, taken).value});
    }
  }

  lemma {:induction false} WithoutValid(m: Eds, gone: set<string>)
    requires ValidEds(m)
    ensures ValidEds(Without(m, gone))
  {
    if m.Node? {
      WithoutValid(m.next, gone);
    }
  }

  /** What is known of the allotted entries of a run. */
  lemma AdditionsFacts(us: seq<User>, job: Job)
    requires ValidJob(job) && Additions(us, job).Some?
    ensures var adds := Additions(us, job).value;
            && Sorted(adds) && KeyedByUuid(adds) && PlainNames(adds) && ListedIn(adds, job.eds)
            && Size(adds) == Size(Unclaimed(us, job)) && Keys(adds) == Keys(Unclaimed(us, job))
            && (forall n: nat :: KeysOf(adds, n) == KeysOf(Unclaimed(us, job), n))
            && Keys(adds) == Keys(job.eds) - Uuids(us, |us|, job.cfg.group)
  {
    var gone, taken, m := Uuids(us, |us|, job.cfg.group), VisibleNames(us, |us|), Unclaimed(us, job);
    WithoutSorted(job.eds, gone);
    WithoutValid(job.eds, gone);
    AllotSorted(m, taken);
    AllotKeepsKeys(m, taken);
    AllotIsPlain(m, taken);
    forall k
      ensures Lookup(m, k).Some? ==> Lookup(job.eds, k) == Lookup(m, k)
      ensures k in Keys(m) <==> k in Keys(job.eds) - gone
    {
      WithoutLookup(job.eds, gone, k);
      InKeys(m, k);
      InKeys(job.eds, k);
    }
    AllotListed(m, taken, job.eds);
  }

  /** New users are touched by none of the operations. */
  lemma OpsUntouched(us: seq<User>, news: seq<User>, job: Job, part: seq<Op>)
    requires UniqueNames(us + news) && PartOf(part, us, job)
    ensures Through(us + news, part) == Through(us, part) + news
  {
    UniqueConcat(us, news);
    PartTargets(us, job, ALL_PARTS);
    forall u | u in news
      ensures Untouched(u.name, part)
    {
      assert u.name in NameSet(news);
      forall op: Op | op in part
        ensures op.name in NameSet(us)
      {
        var k :| 0 <= k < |Ops(us, job)| && Ops(us, job)[k] == op;
      }
    }
    AllUntouched(news, part);
    ThroughConcat(us, news, part);
  }

  /** A run cut off after k changes: some operations took effect, and some users are new. */
  lemma CutShape(us: seq<User>, job: Job, k: nat, mid: seq<User>) returns (news: seq<User>, pre: seq<Op>)
    requires ValidJob(job) && ValidDb(us, job.cfg.group) && Additions(us, job).Some? && After(us, job, k) == Some(mid)
    ensures pre <= Ops(us, job) && PartOf(pre, us, job) && mid == Through(us, pre) + news
            && mid == Through(us + news, pre)
    ensures MadeFrom(news, Additions(us, job).value, job.cfg)
    ensures AddFirst(us, Additions(us, job).value, k, job.cfg, job.range) == Some(us + news) && UniqueNames(us + news)
    ensures |news| == if k <= Size(Additions(us, job).value) then k else Size(Additions(us, job).value)
    ensures k <= Size(Additions(us, job).value) ==> pre == []
    ensures k >= Steps(us, job) ==> pre == Ops(us, job)
  {
    hide Through, Ops, EffectAll, Additions, MadeFrom;
    var adds := Additions(us, job).value;
    news := AddedUsers(us, adds, k, job.cfg, job.range);
    AddKeepsNames(us, adds, k, job.cfg, job.range);
    pre := FirstOps(us, job, if k <= Size(adds) then 0 else k - Size(adds));
    assert mid == Through(us + news, pre);
    PrefixIsPart(pre, us, job);
    OpsUntouched(us, news, job, pre);
  }

  lemma {:induction false} SurvivorStays(us: seq<User>, ops: seq<Op>, u: User)
    requires u in us && EffectAll(u, ops).Some?
    ensures EffectAll(u, ops).value in Through(us, ops)
  {
    if u != us[0] {
      SurvivorStays(us[1..], ops, u);
    }
  }

  lemma MemberUuid(us: seq<User>, u: User, g: Group)
    requires u in us && Member(g, u) && u.uuid.Some?
    ensures u.uuid.value in Uuids(us, |us|, g)
  {
    var j :| 0 <= j < |us| && us[j] == u;
    UuidsExact(us, |us|, g, u.uuid.value);
  }

  /** Members found in the external list survive every part of the run. */
  lemma FoundUuidsStay(us: seq<User>, job: Job, pre: seq<Op>, x: string)
    requires ValidDb(us, job.cfg.group) && PartOf(pre, us, job)
    requires x in Uuids(us, |us|, job.cfg.group) && x in Keys(job.eds)
    ensures x in Uuids(Through(us, pre), |Through(us, pre)|, job.cfg.group)
  {
    UuidsExact(us, |us|, job.cfg.group, x);
    var j :| 0 <= j < |us| && Member(job.cfg.group, us[j]) && us[j].uuid == Some(x);
    InKeys(job.eds, x);
    var tag, timer, removed := CutOutcome(us, j, job, pre);
    SurvivorStays(us, pre, us[j]);
    MemberUuid(Through(us, pre), EffectAll(us[j], pre).value, job.cfg.group);
  }

  lemma {:induction false} UuidsConcat(us: seq<User>, vs: seq<User>, n: nat, g: Group)
    requires n <= |vs|
    ensures Uuids(us + vs, |us| + n, g) == Uuids(us, |us|, g) + Uuids(vs, n, g)
  {
    if n == 0 {
      UuidsPrefix(us, vs, |us|, g);
    } else {
      UuidsConcat(us, vs, n - 1, g);
    }
  }

  predicate Claims(u: User, g: Group) { Member(g, u) && u.uuid.Some? }

  lemma UuidsCons(u: User, tail: seq<User>, g: Group)
    ensures Uuids([u] + tail, |tail| + 1, g) == (if Claims(u, g) then {u.uuid.value} else {}) + Uuids(tail, |tail|, g)
  {
    UuidsConcat([u], tail, |tail|, g);
    assert Uuids([u], 0, g) == {};
  }

  lemma UniqueUuidsTail(u: User, tail: seq<User>, g: Group)
    requires UniqueUuids([u] + tail, g)
    ensures UniqueUuids(tail, g) && (Claims(u, g) ==> u.uuid.value !in Uuids(tail, |tail|, g))
  {
    hide Member, Uuids;
    var all := [u] + tail;
    assert all[0] == u && forall i :: 0 <= i < |tail| ==> all[i + 1] == tail[i];
    forall i, j | 0 <= i < j < |tail| && Member(g, tail[i]) && Member(g, tail[j]) && tail[i].uuid.Some?
      ensures tail[i].uuid != tail[j].uuid
    {
      assert all[i + 1].uuid != all[j + 1].uuid;
    }
    if Claims(u, g) {
      UuidsExact(tail, |tail|, g, u.uuid.value);
      forall j | 0 <= j < |tail| && Member(g, tail[j])
        ensures tail[j].uuid != u.uuid
      {
        assert all[0].uuid != all[j + 1].uuid;
      }
    }
  }

  lemma UniqueUuidsCons(u: User, tail: seq<User>, g: Group)
    requires UniqueUuids(tail, g) && (Claims(u, g) ==> u.uuid.value !in Uuids(tail, |tail|, g))
    ensures UniqueUuids([u] + tail, g)
  {
    if Claims(u, g) {
      UuidsExact(tail, |tail|, g, u.uuid.value);
    }
  }

  /** UUIDs stay distinct, and none appears, when operations are carried out. */
  lemma {:induction false} ThroughUuids(us: seq<User>, ops: seq<Op>, g: Group)
    requires UniqueUuids(us, g)
    ensures UniqueUuids(Through(us, ops), g)
    ensures Uuids(Through(us, ops), |Through(us, ops)|, g) <= Uuids(us, |us|, g)
  {
    hide EffectAll;
    if us != [] {
      var tail := Through(us[1..], ops);
      assert us == [us[0]] + us[1..];
      UniqueUuidsTail(us[0], us[1..], g);
      UuidsCons(us[0], us[1..], g);
      ThroughUuids(us[1..], ops, g);
      EffectAllUuid(us[0], ops);
      if EffectAll(us[0], ops).Some? {
        var v := EffectAll(us[0], ops).value;
        UniqueUuidsCons(v, tail, g);
        UuidsCons(v, tail, g);
      } else {
        assert Through(us, ops) == tail;
      }
    }
  }

  lemma {:induction false} EffectAllUuid(u: User, ops: seq<Op>)
    ensures EffectAll(u, ops).Some? ==> EffectAll(u, ops).value.uuid == u.uuid && EffectAll(u, ops).value.name == u.name
    ensures EffectAll(u, ops).Some? ==> EffectAll(u, ops).value.gid == u.gid && EffectAll(u, ops).value.igrp == u.igrp
    decreases |ops|
  {
    if ops != [] && Effect(u, ops[0]).Some? {
      EffectAllUuid(Effect(u, ops[0]).value, ops[1..]);
    }
  }

  /** A run of some parts, cut off after k changes: some operations took effect, and some users are new. */
  lemma PartShape(us: seq<User>, job: Job, parts: Parts, k: nat, mid: seq<User>) returns (news: seq<User>)
    requires ValidJob(job) && ValidDb(us, job.cfg.group) && Additions(us, job).Some?
             && AfterParts(us, job, parts, k) == Some(mid)
    ensures PartOf(Executed(us, job, parts, k), us, job) && mid == Through(us, Executed(us, job, parts, k)) + news
    ensures mid == Through(us + news, Executed(us, job, parts, k)) && UniqueNames(us + news)
    ensures MadeFrom(news, Additions(us, job).value, job.cfg) && |news| <= Size(Additions(us, job).value)
    ensures AddFirst(us, PartAdds(us, job, parts), k, job.cfg, job.range) == Some(us + news)
    ensures var n := Size(PartAdds(us, job, parts));
            |news| == (if k <= n then k else n) && (k <= n ==> Executed(us, job, parts, k) == [])
  {
    hide Through, ModOps, DelOps, EffectAll, Additions, MadeFrom, AddFirst;
    var adds, part := PartAdds(us, job, parts), Executed(us, job, parts, k);
    news := AddedUsers(us, adds, k, job.cfg, job.range);
    if !parts.add { MadeFromNone(news, Additions(us, job).value, job.cfg); }
    AddKeepsNames(us, adds, k, job.cfg, job.range);
    forall op | op in part
      ensures op in Ops(us, job)
    {
      var i :| 0 <= i < |part| && part[i] == op;
      assert PartOps(us, job, parts)[i] == op;
    }
    OpsUntouched(us, news, job, part);
  }

  lemma MadeFromNone(news: seq<User>, m: Eds, cfg: Config)
    requires news == []
    ensures MadeFrom(news, m, cfg)
  {
  }

  /** Names and UUIDs stay distinct in every run, whatever parts are skipped and wherever it is cut off. */
  lemma CutValid(us: seq<User>, job: Job, parts: Parts, k: nat, mid: seq<User>)
    requires ValidJob(job) && ValidDb(us, job.cfg.group) && Additions(us, job).Some?
             && AfterParts(us, job, parts, k) == Some(mid)
    ensures ValidDb(mid, job.cfg.group)
  {
    hide Executed, AfterParts;
    var news := PartShape(us, job, parts, k, mid);
    AdditionsFacts(us, job);
    NewUuids(us, news, Additions(us, job).value, job);
    ThroughNames(us + news, Executed(us, job, parts, k));
    ThroughUuids(us + news, Executed(us, job, parts, k), job.cfg.group);
  }

  /** The complete run: every user settles, and every entry that no member claims is new. */
  lemma CompleteShape(us: seq<User>, job: Job, final: seq<User>) returns (news: seq<User>)
    requires ValidJob(job) && ValidDb(us, job.cfg.group) && Additions(us, job).Some?
    requires After(us, job, Steps(us, job)) == Some(final)
    ensures final == Settle(us, job) + news && Settle(news, job) == news
    ensures MadeFrom(news, Additions(us, job).value, job.cfg) && |news| == Size(Additions(us, job).value)
    ensures AddFirst(us, Additions(us, job).value, Size(Additions(us, job).value), job.cfg, job.range)
            == Some(us + news)
  {
    CompleteAfter(us, job, Additions(us, job).value);
    AddBeyond(us, Additions(us, job).value, Size(Additions(us, job).value), Steps(us, job), job.cfg, job.range);
    var pre;
    news, pre := CutShape(us, job, Steps(us, job), final);
    OpsSettle(us, job);
    AdditionsFacts(us, job);
    NewsSettle(news, Additions(us, job).value, job);
  }
}
