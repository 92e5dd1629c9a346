/** How lists of single-user changes act on a database. */
module SyncOps {
  import opened Prelude
  import opened OrderedMap
  import opened Vxdb
  import opened ShadowDriver
  import opened SyncSpec

  lemma {:induction false} EffectAllName(u: User, ops: seq<Op>)
    ensures EffectAll(u, ops).Some? ==> EffectAll(u, ops).value.name == u.name
    decreases |ops|
  {
    if ops != [] && Effect(u, ops[0]).Some? {
      EffectAllName(Effect(u, ops[0]).value, ops[1..]);
    }
  }

  lemma {:induction false} EffectAllAppend(u: User, a: seq<Op>, b: seq<Op>)
    ensures EffectAll(u, a + b) == match EffectAll(u, a) case None => None case Some(v) => EffectAll(v, b)
    decreases |a|
  {
    if a == [] {
      assert a + b == b;
    } else {
      assert (a + b)[1..] == a[1..] + b;
      if Effect(u, a[0]).Some? {
        EffectAllAppend(Effect(u, a[0]).value, a[1..], b);
      }
    }
  }

  lemma {:induction false} ThroughConcat(us: seq<User>, vs: seq<User>, ops: seq<Op>)
    ensures Through(us + vs, ops) == Through(us, ops) + Through(vs, ops)
  {
    if us == [] {
      assert us + vs == vs;
    } else {
      assert (us + vs)[1..] == us[1..] + vs;
      ThroughConcat(us[1..], vs, ops);
    }
  }

  lemma {:induction false} ThroughAppend(us: seq<User>, a: seq<Op>, b: seq<Op>)
    ensures Through(us, a + b) == Through(Through(us, a), b)
  {
    if us != [] {
      EffectAllAppend(us[0], a, b);
      ThroughAppend(us[1..], a, b);
      ThroughConcat(AsSeq(EffectAll(us[0], a)), Through(us[1..], a), b);
    }
  }

  /** Nothing in `ops` names `name`. */
  predicate Untouched(name: string, ops: seq<Op>) { forall op :: op in ops ==> op.name != name }

  lemma {:induction false} UntouchedStays(u: User, ops: seq<Op>)
    requires Untouched(u.name, ops)
    ensures EffectAll(u, ops) == Some(u)
    decreases |ops|
  {
    if ops != [] {
      assert ops[0] in ops;
      UntouchedStays(u, ops[1..]);
    }
  }

  lemma {:induction false} AllUntouched(us: seq<User>, ops: seq<Op>)
    requires forall u :: u in us ==> Untouched(u.name, ops)
    ensures Through(us, ops) == us
  {
    if us != [] {
      UntouchedStays(us[0], ops);
      AllUntouched(us[1..], ops);
    }
  }

  lemma EmptyThrough(us: seq<User>)
    ensures Through(us, []) == us
  {
    AllUntouched(us, []);
  }

  lemma NamesOfConcat(us: seq<User>, vs: seq<User>)
    ensures NameSet(us + vs) == NameSet(us) + NameSet(vs)
  {
    forall x
      ensures x in NameSet(us + vs) <==> x in NameSet(us) + NameSet(vs)
    {
      if x in NameSet(us) {
        var u :| u in us && u.name == x;
        assert u in us + vs;
      } else if x in NameSet(vs) {
        var u :| u in vs && u.name == x;
        assert u in us + vs;
      }
    }
  }

  lemma UniqueConcat(us: seq<User>, vs: seq<User>)
    ensures UniqueNames(us + vs) <==> UniqueNames(us) && UniqueNames(vs) && NameSet(us) !! NameSet(vs)
  {
    var all := us + vs;
    if UniqueNames(all) {
      forall i, j | 0 <= i < j < |us| ensures us[i].name != us[j].name { assert all[i].name != all[j].name; }
      forall i, j | 0 <= i < j < |vs| ensures vs[i].name != vs[j].name {
        assert all[|us| + i].name != all[|us| + j].name;
      }
      forall i, j | 0 <= i < |us| && 0 <= j < |vs| ensures us[i].name != vs[j].name {
        assert all[i].name != all[|us| + j].name;
      }
      assert NameSet(us) !! NameSet(vs);
    }
    if UniqueNames(us) && UniqueNames(vs) && NameSet(us) !! NameSet(vs) {
      forall i, j | 0 <= i < j < |all|
        ensures all[i].name != all[j].name
      {
        if i < |us| <= j {
          assert us[i].name in NameSet(us) && vs[j - |us|].name in NameSet(vs);
        }
      }
    }
  }

  /** Every survivor comes from a user of the same name, in the same order. */
  lemma {:induction false} ThroughNames(us: seq<User>, ops: seq<Op>)
    ensures NameSet(Through(us, ops)) <= NameSet(us)
    ensures UniqueNames(us) ==> UniqueNames(Through(us, ops))
  {
    if us != [] {
      EffectAllName(us[0], ops);
      ThroughNames(us[1..], ops);
      var head := AsSeq(EffectAll(us[0], ops));
      assert us == [us[0]] + us[1..];
      NamesOfConcat([us[0]], us[1..]);
      NamesOfConcat(head, Through(us[1..], ops));
      assert NameSet(head) <= NameSet([us[0]]) by { assert us[0] in [us[0]]; }
      UniqueConcat([us[0]], us[1..]);
      UniqueConcat(head, Through(us[1..], ops));
    }
  }

  // ---------- One request, carried out on the first user of its name ----------

  function WithoutIndex(us: seq<User>, i: nat): seq<User> {
    if i < |us| then us[..i] + us[i + 1..] else us
  }

  /** What the driver does for one request: the first user of that name changes or goes. */
  function Once(us: seq<User>, op: Op): seq<User> {
    var i := FirstIndex(us, op.name);
    if i == |us| then us
    else match Effect(us[i], op) case None => WithoutIndex(us, i) case Some(v) => us[i := v]
  }

  /** One request after the other. */
  function Performed(us: seq<User>, ops: seq<Op>): seq<User> {
    if ops == [] then us else Once(Performed(us, ops[..|ops| - 1]), ops[|ops| - 1])
  }

  lemma PerformedNone(us: seq<User>)
    ensures Performed(us, []) == us
  {
  }

  lemma PerformedStep(us: seq<User>, ops: seq<Op>, k: nat)
    requires k < |ops|
    ensures Performed(us, ops[..k + 1]) == Once(Performed(us, ops[..k]), ops[k])
  {
    assert ops[..k + 1][..k] == ops[..k];
  }

  lemma {:induction false} PerformedAppend(us: seq<User>, a: seq<Op>, b: seq<Op>)
    ensures Performed(us, a + b) == Performed(Performed(us, a), b)
  {
    if b == [] {
      assert a + b == a;
    } else {
      var n := |b| - 1;
      assert (a + b)[..|a| + n] == a + b[..n];
      PerformedAppend(us, a, b[..n]);
    }
  }

  /** No user has this name. */
  predicate Nobody(us: seq<User>, name: string) { forall u :: u in us ==> u.name != name }

  /** At most one user has this name. */
  predicate Single(us: seq<User>, name: string) {
    us != [] ==> if us[0].name == name then Nobody(us[1..], name) else Single(us[1..], name)
  }

  lemma {:induction false} NobodyIsSingle(us: seq<User>, name: string)
    requires Nobody(us, name)
    ensures Single(us, name)
  {
    if us != [] {
      NobodyIsSingle(us[1..], name);
    }
  }

  lemma {:induction false} SingleAppend(us: seq<User>, u: User, name: string)
    requires Single(us, name) && (u.name == name ==> Nobody(us, name))
    ensures Single(us + [u], name)
  {
    if us != [] {
      assert (us + [u])[1..] == us[1..] + [u];
      if us[0].name != name { SingleAppend(us[1..], u, name); }
    }
  }

  lemma {:induction false} UniqueIsSingle(us: seq<User>, name: string)
    requires UniqueNames(us)
    ensures Single(us, name)
  {
    if us != [] {
      UniqueIsSingle(us[1..], name);
      forall u | u in us[1..]
        ensures u.name != us[0].name
      {
        var j :| 0 <= j < |us[1..]| && us[1..][j] == u;
        assert us[0].name != us[j + 1].name;
      }
    }
  }

  /** A name the traversal delivers, and delivers once, belongs to one user only. */
  lemma {:induction false} DeliveredOnce(us: seq<User>, n: nat, name: string)
    requires n <= |us| && NoRepeats(us, n) && !IsNis(name)
    ensures Single(us[..n], name)
    ensures name !in VisibleNames(us, n) ==> Nobody(us[..n], name)
  {
    if n > 0 {
      DeliveredOnce(us, n - 1, name);
      assert us[..n] == us[..n - 1] + [us[n - 1]];
      SingleAppend(us[..n - 1], us[n - 1], name);
    }
  }

  lemma SingleEffect(u: User, op: Op)
    ensures EffectAll(u, [op]) == Effect(u, op)
  {
    assert [op][1..] == [];
    if Effect(u, op).Some? { assert EffectAll(Effect(u, op).value, []) == Effect(u, op); }
  }

  lemma LaterIndex(us: seq<User>, i: nat, v: User)
    requires i + 1 < |us|
    ensures us[i + 1 := v] == [us[0]] + us[1..][i := v]
    ensures WithoutIndex(us, i + 1) == [us[0]] + WithoutIndex(us[1..], i)
  {
  }

  lemma OnceLater(us: seq<User>, op: Op)
    requires us != [] && us[0].name != op.name
    ensures Once(us, op) == [us[0]] + Once(us[1..], op)
  {
    hide WithoutIndex, Effect;
    var i := FirstIndex(us[1..], op.name);
    assert FirstIndex(us, op.name) == i + 1;
    if i < |us[1..]| {
      var effect := Effect(us[i + 1], op);
      assert us[1..][i] == us[i + 1];
      LaterIndex(us, i, if effect.Some? then effect.value else us[0]);
    } else {
      assert us == [us[0]] + us[1..];
    }
  }

  /** Where the name belongs to one user only, a request's effect on its first user is the effect on
      the whole list. */
  lemma {:induction false} OnceIsThrough(us: seq<User>, op: Op)
    requires Single(us, op.name)
    ensures Once(us, op) == Through(us, [op])
  {
    if us != [] {
      SingleEffect(us[0], op);
      if us[0].name == op.name {
        AllUntouched(us[1..], [op]);
      } else {
        OnceIsThrough(us[1..], op);
        OnceLater(us, op);
      }
    }
  }

  lemma {:induction false} SingleThrough(us: seq<User>, ops: seq<Op>, name: string)
    ensures Nobody(us, name) ==> Nobody(Through(us, ops), name)
    ensures Single(us, name) ==> Single(Through(us, ops), name)
  {
    if us != [] {
      EffectAllName(us[0], ops);
      SingleThrough(us[1..], ops, name);
      var head, tail := AsSeq(EffectAll(us[0], ops)), Through(us[1..], ops);
      if Nobody(us, name) {
        assert us[0] in us;
        forall u | u in us[1..] ensures u.name != name { assert u in us; }
      }
      if head != [] {
        assert (head + tail)[1..] == tail;
      } else {
        assert head + tail == tail;
        if Nobody(tail, name) { NobodyIsSingle(tail, name); }
      }
    }
  }

  /** The same for a list of requests. */
  lemma {:induction false} PerformedIsThrough(us: seq<User>, ops: seq<Op>)
    requires forall op :: op in ops ==> Single(us, op.name)
    ensures Performed(us, ops) == Through(us, ops)
  {
    if ops == [] {
      EmptyThrough(us);
    } else {
      var n := |ops| - 1;
      PerformedIsThrough(us, ops[..n]);
      assert ops == ops[..n] + [ops[n]];
      ThroughAppend(us, ops[..n], [ops[n]]);
      SingleThrough(us, ops[..n], ops[n].name);
      OnceIsThrough(Through(us, ops[..n]), ops[n]);
    }
  }

  lemma OnceNames(us: seq<User>, op: Op)
    requires !op.Remove?
    ensures NameSet(Once(us, op)) == NameSet(us)
  {
    var after := Once(us, op);
    assert |after| == |us| && forall i :: 0 <= i < |us| ==> after[i].name == us[i].name;
    forall x
      ensures x in NameSet(after) <==> x in NameSet(us)
    {
      if x in NameSet(after) {
        var i :| 0 <= i < |after| && after[i].name == x;
        assert us[i] in us;
      }
      if x in NameSet(us) {
        var i :| 0 <= i < |us| && us[i].name == x;
        assert after[i] in after;
      }
    }
  }

  lemma {:induction false} PerformedNames(us: seq<User>, ops: seq<Op>)
    requires NoRemovals(ops)
    ensures NameSet(Performed(us, ops)) == NameSet(us)
  {
    if ops != [] {
      PerformedNames(us, ops[..|ops| - 1]);
      OnceNames(Performed(us, ops[..|ops| - 1]), ops[|ops| - 1]);
    }
  }

  predicate NoRemovals(ops: seq<Op>) { forall op :: op in ops ==> !op.Remove? }

  lemma InNameSet(us: seq<User>, name: string)
    ensures name in NameSet(us) <==> FirstIndex(us, name) < |us|
  {
    var i := FirstIndex(us, name);
    if i < |us| { assert us[i] in us; }
    if name in NameSet(us) {
      var u :| u in us && u.name == name;
      var j :| 0 <= j < |us| && us[j] == u;
    }
  }

  /** The modification requests that carry out an operation. */
  lemma TagMask(name: string, tag: string)
    ensures forall u: User :: u.name == name ==>
              Effect(u, SetPvgrp(name, tag)) == Some(Modified(u, NO_MODIFY.(pvgrp := Some(tag))))
  {
  }

  lemma TimerMask(name: string, day: u32)
    ensures forall u: User :: u.name == name ==>
              Effect(u, SetDefer(name, day)) == Some(Modified(u, NO_MODIFY.(defer := Some(day))))
  {
  }

  lemma OnceMissing(us: seq<User>, op: Op)
    requires op.name !in NameSet(us)
    ensures Once(us, op) == us
  {
    InNameSet(us, op.name);
  }

  lemma NamesSoFar(us: seq<User>, ops: seq<Op>, n: nat)
    requires NoRemovals(ops) && n <= |ops|
    ensures NameSet(Performed(us, ops[..n])) == NameSet(us)
  {
    PerformedNames(us, ops[..n]);
  }

  lemma {:induction false} DeferOpsAt(names: seq<string>, day: u32)
    ensures |DeferOps(names, day)| == |names| && NoRemovals(DeferOps(names, day))
    ensures forall i :: 0 <= i < |names| ==> DeferOps(names, day)[i] == SetDefer(names[i], day)
  {
    if names != [] {
      DeferOpsAt(names[1..], day);
    }
  }

  lemma {:induction false} RemoveOpsAt(names: seq<string>)
    ensures |RemoveOps(names)| == |names|
    ensures forall i :: 0 <= i < |names| ==> RemoveOps(names)[i] == Remove(names[i])
  {
    if names != [] {
      RemoveOpsAt(names[1..]);
    }
  }

  lemma {:induction false} UpdateOpsAt(m: OMap<User>, n: nat)
    requires n <= Size(m)
    ensures |UpdateOps(m)| == Size(m) && NoRemovals(UpdateOps(m))
    ensures Drop(m, n) == Nil <==> n == Size(m)
    ensures n < Size(m) ==> Drop(m, n).Node? && Drop(m, n + 1) == Drop(m, n).next &&
                            UpdateOps(m)[n] == SetPvgrp(Drop(m, n).val.name, Or(Drop(m, n).val.pvgrp, ""))
  {
    if m.Node? {
      UpdateOpsAt(m.next, if n == 0 then 0 else n - 1);
    }
  }

  /** `done` of the requests were carried out, leading from `us` to `now`: all of them, or all up to one
      for a user that does not exist, or none because the database is read-only. */
  ghost predicate Carried(us: seq<User>, writable: bool, ops: seq<Op>, ok: bool, done: nat, now: seq<User>) {
    && done <= |ops| && now == Performed(us, ops[..done])
    && (!writable ==> done == 0)
    && if ok then done == |ops| else done < |ops| && (writable ==> ops[done].name !in NameSet(us))
  }

  lemma CarriedThen(us: seq<User>, writable: bool, a: seq<Op>, mid: seq<User>, b: seq<Op>, ok: bool, done: nat,
                    now: seq<User>)
    requires NoRemovals(a) && Carried(us, writable, a, true, |a|, mid) && Carried(mid, writable, b, ok, done, now)
    ensures Carried(us, writable, a + b, ok, |a| + done, now)
  {
    assert a[..|a|] == a;
    PerformedNames(us, a);
    assert (a + b)[..|a| + done] == a + b[..done];
    PerformedAppend(us, a, b[..done]);
  }

  lemma CarriedStop(us: seq<User>, writable: bool, a: seq<Op>, b: seq<Op>, done: nat, now: seq<User>)
    requires Carried(us, writable, a, false, done, now)
    ensures Carried(us, writable, a + b, false, done, now)
  {
    assert (a + b)[..done] == a[..done];
  }

  /** Requests in the update list carry a group tag. */
  predicate AllTagged(m: OMap<User>) { m.Node? ==> m.val.pvgrp.Some? && AllTagged(m.next) }

  lemma {:induction false} DropSize<V>(m: OMap<V>, n: nat)
    requires n <= Size(m)
    ensures Drop(m, n) == Nil <==> n == Size(m)
    ensures Drop(m, n).Node? ==> n < Size(m) && Drop(m, n + 1) == Drop(m, n).next
  {
    if n > 0 {
      DropSize(m.next, n - 1);
    }
  }

  /** One more addition continues from the database reached so far. */
  lemma {:induction false} AddStep(us: seq<User>, m: Eds, n: nat, reached: seq<User>, cfg: Config, range: IdRange)
    requires range.Valid() && n < Size(m) && AddFirst(us, m, n, cfg, range) == Some(reached)
    ensures AddFirst(us, m, n + 1, cfg, range) == AddFirst(reached, Drop(m, n), 1, cfg, range)
    ensures Drop(m, n).Node? && Drop(m, n + 1) == Drop(m, n).next
    decreases n
  {
    if n > 0 {
      AddStep(us + [range.Added(us, NewUser(m.val, cfg), Auto)], m.next, n - 1, reached, cfg, range);
    }
  }

  lemma OneName(u: User)
    ensures NameSet([u]) == {u.name} && UniqueNames([u])
  {
    assert u in [u];
  }

  lemma NothingAdded(us: seq<User>, m: Eds, n: nat, cfg: Config, range: IdRange)
    requires range.Valid() && (n == 0 || m.Nil?)
    ensures AddFirst(us, m, n, cfg, range) == Some(us)
  {
  }

  /** The first addition: a user of a new name, and the others go on from there. */
  lemma AddFirstStep(us: seq<User>, m: Eds, n: nat, cfg: Config, range: IdRange) returns (u: User)
    requires range.Valid() && n > 0 && m.Node? && AddFirst(us, m, n, cfg, range).Some?
    ensures forall k: nat :: k > 0 ==> AddFirst(us, m, k, cfg, range) == AddFirst(us + [u], m.next, k - 1, cfg, range)
    ensures u == NewUser(m.val, cfg).(uid := u.uid, igrp := None) && u.name == m.val.username && u.name !in NameSet(us)
  {
    var rq := NewUser(m.val, cfg);
    u := range.Added(us, rq, Auto);
    InNameSet(us, rq.name);
  }

  lemma {:induction false} AddKeepsNames(us: seq<User>, m: Eds, n: nat, cfg: Config, range: IdRange)
    requires range.Valid() && AddFirst(us, m, n, cfg, range).Some?
    ensures NameSet(us) <= NameSet(AddFirst(us, m, n, cfg, range).value)
    ensures UniqueNames(us) ==> UniqueNames(AddFirst(us, m, n, cfg, range).value)
    decreases n
  {
    hide AddFirst, NewUser, UniqueNames;
    if n == 0 || m.Nil? {
      NothingAdded(us, m, n, cfg, range);
    } else {
      var u := AddFirstStep(us, m, n, cfg, range);
      NamesOfConcat(us, [u]);
      UniqueConcat(us, [u]);
      OneName(u);
      AddKeepsNames(us + [u], m.next, n - 1, cfg, range);
    }
  }

  lemma {:induction false} AddKeepsSingle(us: seq<User>, m: Eds, n: nat, cfg: Config, range: IdRange, name: string)
    requires range.Valid() && AddFirst(us, m, n, cfg, range).Some? && Single(us, name)
    ensures Single(AddFirst(us, m, n, cfg, range).value, name)
    decreases n
  {
    hide AddFirst, NewUser, Single;
    if n == 0 || m.Nil? {
      NothingAdded(us, m, n, cfg, range);
    } else {
      var u := AddFirstStep(us, m, n, cfg, range);
      SingleAppend(us, u, name);
      AddKeepsSingle(us + [u], m.next, n - 1, cfg, range, name);
    }
  }

  /** A name that is delivered. */
  predicate Delivered(us: seq<User>, name: string) { name in NameSet(us) && !IsNis(name) }

  lemma {:induction false} DecidedNames(us: seq<User>, n: nat, job: Job, d: Decision)
    requires n <= |us|
    ensures d != Ignore ==> forall x :: x in Decided(us, n, job, d) ==> Delivered(us, x)
  {
    if n > 0 {
      DecidedNames(us, n - 1, job, d);
      assert us[n - 1] in us;
    }
  }

  lemma {:induction false} PutTagged(m: OMap<User>, k: string, u: User)
    requires AllTagged(m) && u.pvgrp.Some?
    ensures AllTagged(Put(m, k, u))
    ensures forall op :: op in UpdateOps(Put(m, k, u)) ==> op in UpdateOps(m) || op == SetPvgrp(u.name, u.pvgrp.value)
  {
    if m.Node? {
      PutTagged(m.next, k, u);
    }
  }

  lemma {:induction false} UpdateNames(us: seq<User>, n: nat, job: Job)
    requires n <= |us|
    ensures AllTagged(Updates(us, n, job))
    ensures forall op :: op in UpdateOps(Updates(us, n, job)) ==> Delivered(us, op.name)
  {
    if n > 0 {
      UpdateNames(us, n - 1, job);
      var u := us[n - 1];
      assert u in us;
      if Member(job.cfg.group, u) && Found(us, n - 1, job) {
        var e := Lookup(job.eds, u.uuid.value).value;
        PutTagged(Updates(us, n - 1, job), u.uuid.value, u.(pvgrp := Some(e.pvgrp)));
      }
    }
  }

  /** The requests follow from the lists alone. */
  lemma RequestsOfLists(l: Lists, us: seq<User>, job: Job)
    requires l.updateReq == Updates(us, |us|, job) && l.deleteNow == Decided(us, |us|, job, DeleteNow)
    requires l.deferStart == Decided(us, |us|, job, Start) && l.deferStop == Decided(us, |us|, job, KeepStop)
    ensures ModRequests(l, job.today) == ModOps(us, job) && RemoveOps(l.deleteNow) == DelOps(us, job)
  {
  }

  lemma PartOpsAre(us: seq<User>, job: Job, parts: Parts)
    ensures PartOps(us, job, parts)
            == (if parts.mod then ModOps(us, job) else []) + (if parts.del then DelOps(us, job) else [])
  {
  }

  /** Every operation names a user that is delivered. */
  predicate Targets(ops: seq<Op>, us: seq<User>) { forall k :: 0 <= k < |ops| ==> Delivered(us, ops[k].name) }

  lemma TimerTargets(us: seq<User>, job: Job, d: Decision, day: u32)
    requires d != Ignore
    ensures Targets(DeferOps(Decided(us, |us|, job, d), day), us)
  {
    var names := Decided(us, |us|, job, d);
    DecidedNames(us, |us|, job, d);
    DeferOpsAt(names, day);
    forall k | 0 <= k < |names| ensures Delivered(us, names[k]) { assert names[k] in names; }
  }

  lemma ModTargets(us: seq<User>, job: Job)
    ensures AllTagged(Updates(us, |us|, job)) && NoRemovals(ModOps(us, job))
    ensures Targets(ModOps(us, job), us)
  {
    UpdateNames(us, |us|, job);
    TimerTargets(us, job, Start, job.today);
    TimerTargets(us, job, KeepStop, 0);
    DeferOpsAt(Decided(us, |us|, job, Start), job.today);
    DeferOpsAt(Decided(us, |us|, job, KeepStop), 0);
    var a := UpdateOps(Updates(us, |us|, job));
    UpdateOpsAt(Updates(us, |us|, job), 0);
    forall k | 0 <= k < |a| ensures Delivered(us, a[k].name) { assert a[k] in a; }
  }

  lemma DelTargets(us: seq<User>, job: Job)
    ensures Targets(DelOps(us, job), us)
  {
    var names := Decided(us, |us|, job, DeleteNow);
    DecidedNames(us, |us|, job, DeleteNow);
    RemoveOpsAt(names);
    forall k | 0 <= k < |names| ensures Delivered(us, names[k]) { assert names[k] in names; }
  }

  lemma PartTargets(us: seq<User>, job: Job, parts: Parts)
    ensures Targets(PartOps(us, job, parts), us)
  {
    ModTargets(us, job);
    DelTargets(us, job);
  }

  /** All requests of a run, carried out one by one on the database with the new users, have their effect
      on the whole list, because the names they give belong to one user each. */
  lemma RequestsAreEffects(us: seq<User>, job: Job, parts: Parts, added: seq<User>)
    requires job.range.Valid() && NoRepeats(us, |us|) && Additions(us, job).Some?
    requires var adds := PartAdds(us, job, parts); AddFirst(us, adds, Size(adds), job.cfg, job.range) == Some(added)
    ensures Performed(added, PartOps(us, job, parts)) == Through(added, PartOps(us, job, parts))
  {
    hide PartAdds, AddFirst, NoRepeats, PartOps;
    var adds, ops := PartAdds(us, job, parts), PartOps(us, job, parts);
    PartTargets(us, job, parts);
    forall op | op in ops
      ensures Single(added, op.name)
    {
      var k :| 0 <= k < |ops| && ops[k] == op;
      DeliveredOnce(us, |us|, op.name);
      assert us[..|us|] == us;
      AddKeepsSingle(us, adds, Size(adds), job.cfg, job.range, op.name);
    }
    PerformedIsThrough(added, ops);
  }

  lemma {:induction false} AddBeyond(us: seq<User>, m: Eds, n: nat, k: nat, cfg: Config, range: IdRange)
    requires range.Valid() && Size(m) <= n && Size(m) <= k
    ensures AddFirst(us, m, n, cfg, range) == AddFirst(us, m, k, cfg, range)
    decreases n
  {
    if m.Node? {
      var rq := NewUser(m.val, cfg);
      if range.AddStatus(us, true, rq, Auto) == Success {
        AddBeyond(us + [range.Added(us, rq, Auto)], m.next, n - 1, k - 1, cfg, range);
      }
    }
  }

  /** A complete run: all additions, then all operations. */
  lemma CompleteAfter(us: seq<User>, job: Job, adds: Eds)
    requires job.range.Valid() && Additions(us, job) == Some(adds)
    ensures After(us, job, Steps(us, job)) == match AddFirst(us, adds, Size(adds), job.cfg, job.range)
                                              case None => None
                                              case Some(added) => Some(Through(added, Ops(us, job)))
  {
    AddBeyond(us, adds, Size(adds), Steps(us, job), job.cfg, job.range);
  }

  /** The same for a run of some parts. */
  lemma AllOfParts(us: seq<User>, job: Job, parts: Parts)
    requires job.range.Valid() && Additions(us, job).Some?
    ensures var adds := PartAdds(us, job, parts);
            AfterParts(us, job, parts, PartSteps(us, job, parts))
            == match AddFirst(us, adds, Size(adds), job.cfg, job.range)
               case None => None
               case Some(added) => Some(Through(added, PartOps(us, job, parts)))
  {
    var adds := PartAdds(us, job, parts);
    AddBeyond(us, adds, Size(adds), PartSteps(us, job, parts), job.cfg, job.range);
  }
}
