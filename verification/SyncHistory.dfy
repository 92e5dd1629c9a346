/** Histories of synchronisation runs: an arbitrary external list and day per run, each run complete, with
    some parts skipped, or cut off anywhere. */
module SyncHistory {
  import opened Prelude
  import opened OrderedMap
  import opened Vxdb
  import opened ShadowDriver
  import opened SyncSpec
  import opened SyncOps
  import opened SyncOutcome
  import opened SyncRun
  import opened SyncEngine

  /** What stays fixed over all runs. */
  datatype Site = Site(cfg: Config, range: IdRange)

  /** One run: its day, its list, the parts it carries out, and after how many changes it was cut off, if
      it was. */
  datatype Turn = Turn(today: u32, eds: Eds, parts: Parts, cut: Option<nat>)

  function JobOf(site: Site, t: Turn): Job { Job(site.cfg, site.range, t.today, t.eds) }

  /** A run that gives up for want of a free name changes nothing; it counts as cut off. */
  ghost predicate Step(site: Site, us: seq<User>, t: Turn, after: seq<User>) {
    var job := JobOf(site, t);
    && ValidJob(job)
    && match Additions(us, job)
       case None => t.cut.Some? && after == us
       case Some(_) => AfterParts(us, job, t.parts, Or(t.cut, PartSteps(us, job, t.parts))) == Some(after)
  }

  /** The requests that the run carries out on existing users. */
  function Done(site: Site, us: seq<User>, t: Turn): seq<Op> {
    var job := JobOf(site, t);
    if Additions(us, job).None? then [] else Executed(us, job, t.parts, Or(t.cut, PartSteps(us, job, t.parts)))
  }

  /** The run is not cut off, and neither modifications nor deletions are skipped. */
  predicate Whole(t: Turn) { t.cut.None? && t.parts.mod && t.parts.del }

  function CutOf(outcome: Outcome): Option<nat> {
    match outcome
    case AddFailed(count) => Some(count)
    case Complete => None
    case _ => Some(0)
  }

  /** Whatever the run of a workspace returns, it made a step of a history. */
  lemma RunIsStep(site: Site, us: seq<User>, writable: bool, today: u32, eds: Eds, parts: Parts, outcome: Outcome,
                  now: seq<User>)
    requires var job := Job(site.cfg, site.range, today, eds);
             ValidJob(job) && RunOutcome(us, writable, job, parts, outcome, now)
    ensures Step(site, us, Turn(today, eds, parts, CutOf(outcome)), now)
  {
    EmptyThrough(us);
  }

  ghost predicate StepAt(site: Site, dbs: seq<seq<User>>, turns: seq<Turn>, i: nat)
    requires i < |turns| && i + 1 < |dbs|
  {
    Step(site, dbs[i], turns[i], dbs[i + 1])
  }

  ghost predicate History(site: Site, dbs: seq<seq<User>>, turns: seq<Turn>) {
    && |dbs| == |turns| + 1 && ValidDb(dbs[0], site.cfg.group)
    && forall i :: 0 <= i < |turns| ==> StepAt(site, dbs, turns, i)
  }

  lemma StepKeepsValid(site: Site, us: seq<User>, t: Turn, after: seq<User>)
    requires ValidDb(us, site.cfg.group) && Step(site, us, t, after)
    ensures ValidDb(after, site.cfg.group)
  {
    var job := JobOf(site, t);
    if Additions(us, job).Some? {
      CutValid(us, job, t.parts, Or(t.cut, PartSteps(us, job, t.parts)), after);
    }
  }

  lemma ValidNext(site: Site, dbs: seq<seq<User>>, turns: seq<Turn>, n: nat)
    requires n < |turns| && n + 1 < |dbs| && StepAt(site, dbs, turns, n) && ValidDb(dbs[n], site.cfg.group)
    ensures ValidDb(dbs[n + 1], site.cfg.group)
  {
    StepKeepsValid(site, dbs[n], turns[n], dbs[n + 1]);
  }

  /** Login names and members' UUIDs are distinct in every reachable database. */
  lemma {:induction false} AlwaysValid(site: Site, dbs: seq<seq<User>>, turns: seq<Turn>, n: nat)
    requires History(site, dbs, turns) && n <= |turns|
    ensures ValidDb(dbs[n], site.cfg.group)
  {
    hide StepAt, ValidDb;
    if n > 0 {
      AlwaysValid(site, dbs, turns, n - 1);
      ValidNext(site, dbs, turns, n - 1);
    }
  }

  // ---------- One user, one run ----------

  lemma {:induction false} FindThrough(us: seq<User>, ops: seq<Op>, name: string)
    requires UniqueNames(us)
    ensures Find(Through(us, ops), name) == match Find(us, name) case None => None case Some(u) => EffectAll(u, ops)
  {
    if us != [] {
      var head, tail := AsSeq(EffectAll(us[0], ops)), Through(us[1..], ops);
      EffectAllName(us[0], ops);
      assert us == [us[0]] + us[1..];
      UniqueConcat([us[0]], us[1..]);
      FindThrough(us[1..], ops, name);
      FindConcat(head, tail, name);
      FindConcat([us[0]], us[1..], name);
      FindOne(us[0], name);
      if head != [] { FindOne(head[0], name); }
      if us[0].name == name { NotInTail(us, name); }
    }
  }

  lemma FindOne(u: User, name: string)
    ensures Find([u], name) == if u.name == name then Some(u) else None
  {
  }

  lemma NotInTail(us: seq<User>, name: string)
    requires us != [] && UniqueNames(us) && us[0].name == name
    ensures Find(us[1..], name) == None
  {
    UniqueIsSingle(us, name);
    InNameSet(us[1..], name);
  }

  lemma FindIsIn(us: seq<User>, name: string) returns (i: nat)
    requires Find(us, name).Some?
    ensures i < |us| && us[i] == Find(us, name).value && us[i].name == name
  {
    i := FirstIndex(us, name);
  }

  /** What a run does to the user of a given name: each change that is due to it and whose request the run
      carries out. A whole run carries out all that are due. */
  lemma Fate(site: Site, us: seq<User>, t: Turn, after: seq<User>, name: string)
    returns (tag: bool, timer: bool, removed: bool)
    requires ValidDb(us, site.cfg.group) && Step(site, us, t, after) && Find(us, name).Some?
    ensures var u, job := Find(us, name).value, JobOf(site, t);
            && Find(after, name) == Changed(u, job, tag, timer, removed)
            && tag == (SetPvgrp(name, TagOf(u, job)) in Done(site, us, t))
            && timer == (SetDefer(name, DayOf(u, job)) in Done(site, us, t))
            && removed == (Remove(name) in Done(site, us, t))
            && (tag ==> WantsTag(u, job)) && (timer ==> WantsTimer(u, job)) && (removed ==> WantsRemoval(u, job))
            && (Whole(t) ==> Find(after, name) == Settled(u, job))
  {
    var job, part := JobOf(site, t), Done(site, us, t);
    if Additions(us, job).None? {
      tag, timer, removed := false, false, false;
    } else {
      var news := PartShape(us, job, t.parts, Or(t.cut, PartSteps(us, job, t.parts)), after);
      var i := FindIsIn(us, name);
      tag, timer, removed := CutOutcome(us, i, job, part);
      FindThrough(us, part, name);
      FindConcat(Through(us, part), news, name);
      NewsHaveOtherNames(us, news, name);
    }
  }

  lemma NewsHaveOtherNames(us: seq<User>, news: seq<User>, name: string)
    requires UniqueNames(us + news) && Find(us, name).Some?
    ensures Find(news, name) == None
  {
    UniqueConcat(us, news);
    InNameSet(us, name);
    InNameSet(news, name);
  }

  // ---------- One user over a history ----------

  /** The user of this name is there in the first database and in the n after it. */
  predicate Lived(dbs: seq<seq<User>>, name: string, n: nat)
    requires n < |dbs|
  {
    forall i :: 0 <= i <= n ==> Find(dbs[i], name).Some?
  }

  /** Equal but for the group tag and the timer. */
  predicate Same(u: User, v: User) { v == u.(pvgrp := v.pvgrp, defer := v.defer) }

  lemma SameNext(site: Site, dbs: seq<seq<User>>, turns: seq<Turn>, name: string, n: nat)
    requires History(site, dbs, turns) && n < |turns| && Find(dbs[n], name).Some? && Find(dbs[n + 1], name).Some?
    ensures Same(Find(dbs[n], name).value, Find(dbs[n + 1], name).value)
  {
    AlwaysValid(site, dbs, turns, n);
    assert StepAt(site, dbs, turns, n);
    var tag, timer, removed := Fate(site, dbs[n], turns[n], dbs[n + 1], name);
  }

  lemma {:induction false} StaysSame(site: Site, dbs: seq<seq<User>>, turns: seq<Turn>, name: string, n: nat)
    requires History(site, dbs, turns) && n <= |turns| && Lived(dbs, name, n)
    ensures Same(Find(dbs[0], name).value, Find(dbs[n], name).value)
  {
    if n > 0 {
      StaysSame(site, dbs, turns, name, n - 1);
      assert Find(dbs[n - 1], name).Some? && Find(dbs[n], name).Some?;
      SameNext(site, dbs, turns, name, n - 1);
    }
  }

  /** Membership and presence in a list depend only on what stays the same. */
  lemma SameStanding(u: User, v: User, job: Job)
    requires Same(u, v)
    ensures Member(job.cfg.group, u) == Member(job.cfg.group, v) && Present(u, job) == Present(v, job)
  {
  }

  /** Run q's list does not contain the user. */
  predicate AbsentAt(u: User, site: Site, turns: seq<Turn>, q: nat)
    requires q < |turns|
  {
    !Present(u, JobOf(site, turns[q]))
  }

  /** A timer that is running after a step either was running before and was not stopped, or it was
      started by this step for a member that is absent. */
  lemma TimerStep(u: User, job: Job, tag: bool, timer: bool)
    requires timer ==> WantsTimer(u, job)
    requires Changed(u, job, tag, timer, false).value.defer != 0
    ensures u.defer != 0 ==> Changed(u, job, tag, timer, false).value.defer == u.defer && !timer
    ensures u.defer == 0 ==>
              Changed(u, job, tag, timer, false).value.defer == job.today
              && Member(job.cfg.group, u) && !Present(u, job)
  {
  }

  /** The request to stop the user's timer is not carried out. */
  predicate StopLost(site: Site, us: seq<User>, t: Turn, name: string) { SetDefer(name, 0) !in Done(site, us, t) }

  predicate StopLostAt(site: Site, dbs: seq<seq<User>>, turns: seq<Turn>, name: string, q: nat)
    requires q < |dbs| && q < |turns|
  {
    StopLost(site, dbs[q], turns[q], name)
  }

  /** The timer of a listed member runs on exactly when the run does not come to the request to stop it:
      cut off before, or with the modifications skipped. */
  lemma TimerStoppedIff(site: Site, us: seq<User>, t: Turn, after: seq<User>, name: string)
    requires ValidDb(us, site.cfg.group) && Step(site, us, t, after) && Find(us, name).Some?
    requires var u := Find(us, name).value; Member(site.cfg.group, u) && Present(u, JobOf(site, t)) && u.defer != 0
    ensures Find(after, name).Some?
    ensures Find(after, name).value.defer == if StopLost(site, us, t, name) then Find(us, name).value.defer else 0
  {
    var tag, timer, removed := Fate(site, us, t, after, name);
  }

  /** For a run of all parts that is cut off after k changes, these are its first k changes less the
      additions. */
  lemma DoneByThen(site: Site, us: seq<User>, t: Turn)
    requires t.parts == ALL_PARTS && t.cut.Some? && Additions(us, JobOf(site, t)).Some?
    ensures var job, k := JobOf(site, t), t.cut.value;
            var adds := Size(Additions(us, job).value);
            Done(site, us, t) == FirstOps(us, job, if k <= adds then 0 else k - adds)
  {
    hide Executed, FirstOps, Additions, Size;
    AllParts(us, JobOf(site, t), t.cut.value);
  }

  lemma RunningTimer(site: Site, us: seq<User>, t: Turn, after: seq<User>, name: string)
    requires ValidDb(us, site.cfg.group) && Step(site, us, t, after)
    requires Find(us, name).Some? && Find(after, name).Some? && Find(after, name).value.defer != 0
    ensures var u, v, job := Find(us, name).value, Find(after, name).value, JobOf(site, t);
            if u.defer != 0
            then v.defer == u.defer && (Member(job.cfg.group, u) ==> !Present(u, job) || StopLost(site, us, t, name))
            else v.defer == t.today && Member(job.cfg.group, u) && !Present(u, job)
  {
    var u, job := Find(us, name).value, JobOf(site, t);
    var tag, timer, removed := Fate(site, us, t, after, name);
    TimerStep(u, job, tag, timer);
  }

  lemma RunningTimerAt(site: Site, dbs: seq<seq<User>>, turns: seq<Turn>, name: string, n: nat)
    requires History(site, dbs, turns) && n < |turns| && Lived(dbs, name, n + 1)
    requires Find(dbs[n + 1], name).value.defer != 0
    ensures var u0, u, v := Find(dbs[0], name).value, Find(dbs[n], name).value, Find(dbs[n + 1], name).value;
            if u.defer != 0
            then v.defer == u.defer
                 && (Member(site.cfg.group, u0) ==>
                       AbsentAt(u0, site, turns, n) || StopLostAt(site, dbs, turns, name, n))
            else v.defer == turns[n].today && Member(site.cfg.group, u0) && AbsentAt(u0, site, turns, n)
  {
    hide Done, Step, Present, Member;
    var u0, u := Find(dbs[0], name).value, Find(dbs[n], name).value;
    AlwaysValid(site, dbs, turns, n);
    assert StepAt(site, dbs, turns, n);
    RunningTimer(site, dbs[n], turns[n], dbs[n + 1], name);
    StaysSame(site, dbs, turns, name, n);
    SameStanding(u0, u, JobOf(site, turns[n]));
  }

  /** After run p the timer has the day of that run, and keeps it up to run n. */
  predicate Running(dbs: seq<seq<User>>, turns: seq<Turn>, name: string, p: nat, n: nat)
    requires p < |turns| && n < |dbs|
  {
    forall q :: p < q <= n ==> Find(dbs[q], name).Some? && Find(dbs[q], name).value.defer == turns[p].today
  }

  /** The meaning of a running timer that was clear at the start: on its day p a run found the member
      absent, and every later run did so too or did not come to the request to stop the timer. */
  lemma {:induction false} TimerMeaning(site: Site, dbs: seq<seq<User>>, turns: seq<Turn>, name: string, n: nat)
    returns (p: nat)
    requires History(site, dbs, turns) && n <= |turns| && Lived(dbs, name, n)
    requires Find(dbs[0], name).value.defer == 0 && Find(dbs[n], name).value.defer != 0
    ensures p < n && turns[p].today == Find(dbs[n], name).value.defer && Running(dbs, turns, name, p, n)
    ensures Member(site.cfg.group, Find(dbs[0], name).value) && AbsentAt(Find(dbs[0], name).value, site, turns, p)
    ensures forall q :: p < q < n ==>
              AbsentAt(Find(dbs[0], name).value, site, turns, q) || StopLostAt(site, dbs, turns, name, q)
  {
    hide StopLost, Present, Member;
    RunningTimerAt(site, dbs, turns, name, n - 1);
    if Find(dbs[n - 1], name).value.defer == 0 {
      p := n - 1;
    } else {
      p := TimerMeaning(site, dbs, turns, name, n - 1);
    }
  }

  /** A user that goes is an absent member whose timer started at least the deferral ago. */
  lemma RemovalMeaning(site: Site, us: seq<User>, t: Turn, after: seq<User>, name: string)
    requires ValidDb(us, site.cfg.group) && Step(site, us, t, after) && site.cfg.deferDays > 0
    requires Find(us, name).Some? && Find(after, name).None?
    ensures var u, job := Find(us, name).value, JobOf(site, t);
            Member(job.cfg.group, u) && !Present(u, job) && u.defer != 0
            && t.today >= Expiry(u.defer, site.cfg.deferDays)
  {
    var tag, timer, removed := Fate(site, us, t, after, name);
  }

  lemma ExpiryIsSum(timer: u32, deferDays: u32)
    requires timer + deferDays < 0x1_0000_0000
    ensures Expiry(timer, deferDays) == timer + deferDays
  {
  }

  /** No early deletion. With a deferral, a user whose timer was clear and that disappears in run m was
      absent in that run and in some run p at least the deferral before, and every run between the two
      found it absent as well or did not come to the request to stop its timer. */
  lemma NoEarlyDeletion(site: Site, dbs: seq<seq<User>>, turns: seq<Turn>, name: string, m: nat) returns (p: nat)
    requires History(site, dbs, turns) && site.cfg.deferDays > 0 && m < |turns| && Lived(dbs, name, m)
    requires Find(dbs[0], name).value.defer == 0 && Find(dbs[m + 1], name).None?
    ensures p < m && turns[p].today + site.cfg.deferDays <= turns[m].today && Running(dbs, turns, name, p, m)
    ensures AbsentAt(Find(dbs[0], name).value, site, turns, p) && AbsentAt(Find(dbs[0], name).value, site, turns, m)
    ensures Member(site.cfg.group, Find(dbs[0], name).value)
    ensures forall q :: p < q < m ==>
              AbsentAt(Find(dbs[0], name).value, site, turns, q) || StopLostAt(site, dbs, turns, name, q)
  {
    hide StopLost;
    var u0, u := Find(dbs[0], name).value, Find(dbs[m], name).value;
    AlwaysValid(site, dbs, turns, m);
    assert StepAt(site, dbs, turns, m);
    RemovalMeaning(site, dbs[m], turns[m], dbs[m + 1], name);
    StaysSame(site, dbs, turns, name, m);
    SameStanding(u0, u, JobOf(site, turns[m]));
    p := TimerMeaning(site, dbs, turns, name, m);
    assert StepAt(site, dbs, turns, p);
    ExpiryIsSum(u.defer, site.cfg.deferDays);
  }

  /** A whole run comes to every request it has. */
  lemma WholeStops(site: Site, us: seq<User>, t: Turn, after: seq<User>, name: string)
    requires ValidDb(us, site.cfg.group) && Step(site, us, t, after) && Whole(t) && Find(us, name).Some?
    requires var u := Find(us, name).value; Member(site.cfg.group, u) && Present(u, JobOf(site, t)) && u.defer != 0
    ensures !StopLost(site, us, t, name)
  {
    var tag, timer, removed := Fate(site, us, t, after, name);
  }

  lemma TurnDay(site: Site, dbs: seq<seq<User>>, turns: seq<Turn>, p: nat)
    requires History(site, dbs, turns) && p < |turns|
    ensures turns[p].today > 0
  {
    assert StepAt(site, dbs, turns, p);
  }

  lemma RunningAt(dbs: seq<seq<User>>, turns: seq<Turn>, name: string, p: nat, n: nat, q: nat)
    requires p < |turns| && n < |dbs| && Running(dbs, turns, name, p, n) && p < q <= n && Lived(dbs, name, n)
    ensures Find(dbs[q], name).Some? && Find(dbs[q], name).value.defer == turns[p].today && Lived(dbs, name, q)
  {
  }

  lemma WholeStopsAt(site: Site, dbs: seq<seq<User>>, turns: seq<Turn>, name: string, q: nat)
    requires History(site, dbs, turns) && q < |turns| && Whole(turns[q]) && Lived(dbs, name, q)
    requires Member(site.cfg.group, Find(dbs[0], name).value) && !AbsentAt(Find(dbs[0], name).value, site, turns, q)
    requires Find(dbs[q], name).value.defer != 0
    ensures !StopLostAt(site, dbs, turns, name, q)
  {
    hide StopLost, Whole, Member;
    AlwaysValid(site, dbs, turns, q);
    assert StepAt(site, dbs, turns, q);
    StaysSame(site, dbs, turns, name, q);
    SameStanding(Find(dbs[0], name).value, Find(dbs[q], name).value, JobOf(site, turns[q]));
    WholeStops(site, dbs[q], turns[q], dbs[q + 1], name);
  }

  /** Where every run between is whole, the user was absent in every run from p to m. */
  lemma NoEarlyDeletionWhenComplete(site: Site, dbs: seq<seq<User>>, turns: seq<Turn>, name: string, m: nat)
    returns (p: nat)
    requires History(site, dbs, turns) && site.cfg.deferDays > 0 && m < |turns| && Lived(dbs, name, m)
    requires Find(dbs[0], name).value.defer == 0 && Find(dbs[m + 1], name).None?
    requires forall q :: 0 <= q < m ==> Whole(turns[q])
    ensures p < m && turns[p].today + site.cfg.deferDays <= turns[m].today
    ensures forall q :: p <= q <= m ==> AbsentAt(Find(dbs[0], name).value, site, turns, q)
  {
    hide Find, StopLost, Whole, AbsentAt, StepAt, Member, Running;
    p := NoEarlyDeletion(site, dbs, turns, name, m);
    TurnDay(site, dbs, turns, p);
    forall q | p < q < m
      ensures AbsentAt(Find(dbs[0], name).value, site, turns, q)
    {
      if !AbsentAt(Find(dbs[0], name).value, site, turns, q) {
        RunningAt(dbs, turns, name, p, m, q);
        WholeStopsAt(site, dbs, turns, name, q);
      }
    }
  }

  /** The exception is real, and covers exactly these runs: if a run lists the member, and a later whole
      run misses it once the old timer has expired, the member is deleted if and only if the first run did
      not come to its stop request. */
  lemma LostStopDeletes(site: Site, us: seq<User>, name: string, listed: Turn, mid: seq<User>, missed: Turn,
                        after: seq<User>)
    requires ValidDb(us, site.cfg.group) && site.cfg.deferDays > 0 && Find(us, name).Some?
    requires var u := Find(us, name).value;
             && Member(site.cfg.group, u) && u.defer != 0 && u.defer + site.cfg.deferDays <= missed.today
             && Present(u, JobOf(site, listed)) && !Present(u, JobOf(site, missed))
    requires Step(site, us, listed, mid) && Step(site, mid, missed, after) && Whole(missed)
    ensures Find(after, name) == None <==> StopLost(site, us, listed, name)
  {
    hide StopLost;
    var u := Find(us, name).value;
    TimerStoppedIff(site, us, listed, mid, name);
    StepKeepsValid(site, us, listed, mid);
    var tag, timer, removed := Fate(site, us, listed, mid, name);
    SameStanding(u, Find(mid, name).value, JobOf(site, missed));
    tag, timer, removed := Fate(site, mid, missed, after, name);
    ExpiryIsSum(u.defer, site.cfg.deferDays);
  }

  // ---------- Exactly when a member goes ----------

  /** The timer of a member before run n, from what the runs listed and carried out: started by a run that
      misses the user and stopped by one that lists it. */
  function TimerBefore(site: Site, dbs: seq<seq<User>>, turns: seq<Turn>, name: string, n: nat): u32
    requires 0 < |dbs| && n <= |turns| && n <= |dbs| && Find(dbs[0], name).Some?
  {
    var u := Find(dbs[0], name).value;
    if n == 0 then u.defer
    else
      var before, done := TimerBefore(site, dbs, turns, name, n - 1), Done(site, dbs[n - 1], turns[n - 1]);
      if Present(u, JobOf(site, turns[n - 1])) then if SetDefer(name, 0) in done then 0 else before
      else if before == 0 && SetDefer(name, turns[n - 1].today) in done then turns[n - 1].today
      else before
  }

  /** The timer of a member that a run leaves in place. */
  lemma TimerAfter(u: User, job: Job, done: seq<Op>, tag: bool, timer: bool)
    requires ValidDay(job) && job.cfg.deferDays > 0 && Member(job.cfg.group, u)
    requires timer == (SetDefer(u.name, DayOf(u, job)) in done) && (timer ==> WantsTimer(u, job))
    requires Wanting(u, job, done)
    ensures Changed(u, job, tag, timer, false).value.defer
            == if Present(u, job) then if SetDefer(u.name, 0) in done then 0 else u.defer
               else if u.defer == 0 && SetDefer(u.name, job.today) in done then job.today
               else u.defer
  {
    assert Wanted(u, job, SetDefer(u.name, 0)) <==> WantsTimer(u, job) && DayOf(u, job) == 0;
    assert Wanted(u, job, SetDefer(u.name, job.today)) <==> WantsTimer(u, job) && DayOf(u, job) == job.today;
  }

  /** Of the changes to this user, only those due to it are requested. */
  ghost predicate Wanting(u: User, job: Job, done: seq<Op>) {
    forall op: Op :: op in done && op.name == u.name ==> Wanted(u, job, op)
  }

  lemma DoneIsWanted(site: Site, us: seq<User>, t: Turn, after: seq<User>, name: string)
    requires ValidDb(us, site.cfg.group) && Step(site, us, t, after) && Find(us, name).Some?
    ensures Wanting(Find(us, name).value, JobOf(site, t), Done(site, us, t))
  {
    var job := JobOf(site, t);
    if Additions(us, job).Some? {
      var news := PartShape(us, job, t.parts, Or(t.cut, PartSteps(us, job, t.parts)), after);
      var i := FindIsIn(us, name);
      forall op: Op | op in Done(site, us, t) && op.name == name
        ensures Wanted(us[i], job, op)
      {
        OpsIff(us, i, job, op);
      }
    }
  }

  lemma StepTimer(site: Site, us: seq<User>, t: Turn, after: seq<User>, name: string)
    requires ValidDb(us, site.cfg.group) && Step(site, us, t, after) && Find(us, name).Some? && Find(after, name).Some?
    requires site.cfg.deferDays > 0 && Member(site.cfg.group, Find(us, name).value)
    ensures var u, job, done := Find(us, name).value, JobOf(site, t), Done(site, us, t);
            Find(after, name).value.defer
            == if Present(u, job) then if SetDefer(name, 0) in done then 0 else u.defer
               else if u.defer == 0 && SetDefer(name, t.today) in done then t.today
               else u.defer
  {
    hide Done;
    var i := FindIsIn(us, name);
    var tag, timer, removed := Fate(site, us, t, after, name);
    DoneIsWanted(site, us, t, after, name);
    TimerAfter(us[i], JobOf(site, t), Done(site, us, t), tag, timer);
  }

  /** In every history, cut off or not, the timer of a member is what the runs have made of it. */
  lemma {:induction false} TimerExactly(site: Site, dbs: seq<seq<User>>, turns: seq<Turn>, name: string, n: nat)
    requires History(site, dbs, turns) && site.cfg.deferDays > 0 && n <= |turns| && Lived(dbs, name, n)
    requires Member(site.cfg.group, Find(dbs[0], name).value)
    ensures Find(dbs[n], name).value.defer == TimerBefore(site, dbs, turns, name, n)
  {
    hide Done, Step, Present, Member;
    if n > 0 {
      var u0, u, job := Find(dbs[0], name).value, Find(dbs[n - 1], name).value, JobOf(site, turns[n - 1]);
      TimerExactly(site, dbs, turns, name, n - 1);
      AlwaysValid(site, dbs, turns, n - 1);
      assert StepAt(site, dbs, turns, n - 1);
      StaysSame(site, dbs, turns, name, n - 1);
      SameStanding(u0, u, job);
      StepTimer(site, dbs[n - 1], turns[n - 1], dbs[n], name);
    }
  }

  /** In every history a member goes in run m if and only if that run misses it, its timer has run for the
      deferral, and the run comes to the request to remove it, as one that is not cut off does. */
  lemma RemovedExactly(site: Site, dbs: seq<seq<User>>, turns: seq<Turn>, name: string, m: nat)
    requires History(site, dbs, turns) && site.cfg.deferDays > 0 && m < |turns| && Lived(dbs, name, m)
    requires Member(site.cfg.group, Find(dbs[0], name).value)
    ensures var u, timer := Find(dbs[0], name).value, TimerBefore(site, dbs, turns, name, m);
            var due := AbsentAt(u, site, turns, m) && timer != 0 && turns[m].today >= Expiry(timer, site.cfg.deferDays);
            && (Find(dbs[m + 1], name).None? <==> due && Remove(name) in Done(site, dbs[m], turns[m]))
            && (Whole(turns[m]) ==> (Find(dbs[m + 1], name).None? <==> due))
  {
    hide Done;
    var u0, u, job := Find(dbs[0], name).value, Find(dbs[m], name).value, JobOf(site, turns[m]);
    AlwaysValid(site, dbs, turns, m);
    assert StepAt(site, dbs, turns, m);
    StaysSame(site, dbs, turns, name, m);
    SameStanding(u0, u, job);
    TimerExactly(site, dbs, turns, name, m);
    var tag, timer, removed := Fate(site, dbs[m], turns[m], dbs[m + 1], name);
  }

  // ---------- Histories of whole runs ----------

  /** The day on which the current unbroken absence began, before run n: `timer` if it lasts from the
      beginning, and 0 if the last run listed the user. */
  function AbsentSince(u: User, timer: u32, site: Site, turns: seq<Turn>, n: nat): u32
    requires n <= |turns|
  {
    if n == 0 then timer
    else if Present(u, JobOf(site, turns[n - 1])) then 0
    else
      var since := AbsentSince(u, timer, site, turns, n - 1);
      if since == 0 then turns[n - 1].today else since
  }

  lemma SettledTimer(u: User, job: Job)
    requires job.cfg.deferDays > 0 && Member(job.cfg.group, u) && Settled(u, job).Some?
    ensures Settled(u, job).value.defer == if Present(u, job) then 0 else if u.defer == 0 then job.today else u.defer
  {
  }

  lemma SettledGone(u: User, job: Job)
    requires job.cfg.deferDays > 0 && Member(job.cfg.group, u)
    ensures Settled(u, job).None?
            <==> !Present(u, job) && u.defer != 0 && job.today >= Expiry(u.defer, job.cfg.deferDays)
  {
  }

  lemma TimerSettles(site: Site, dbs: seq<seq<User>>, turns: seq<Turn>, name: string, n: nat)
    requires History(site, dbs, turns) && site.cfg.deferDays > 0 && n < |turns| && Lived(dbs, name, n)
             && Whole(turns[n])
    requires Member(site.cfg.group, Find(dbs[0], name).value)
    ensures var u0, u, v := Find(dbs[0], name).value, Find(dbs[n], name).value, Find(dbs[n + 1], name);
            if v.Some?
            then v.value.defer == if !AbsentAt(u0, site, turns, n) then 0
                                  else if u.defer == 0 then turns[n].today
                                  else u.defer
            else AbsentAt(u0, site, turns, n) && u.defer != 0 && turns[n].today >= Expiry(u.defer, site.cfg.deferDays)
    ensures var u0, u, v := Find(dbs[0], name).value, Find(dbs[n], name).value, Find(dbs[n + 1], name);
            AbsentAt(u0, site, turns, n) && u.defer != 0 && turns[n].today >= Expiry(u.defer, site.cfg.deferDays) ==>
              v.None?
  {
    var u0, u, job := Find(dbs[0], name).value, Find(dbs[n], name).value, JobOf(site, turns[n]);
    AlwaysValid(site, dbs, turns, n);
    assert StepAt(site, dbs, turns, n);
    StaysSame(site, dbs, turns, name, n);
    SameStanding(u0, u, job);
    var tag, timer, removed := Fate(site, dbs[n], turns[n], dbs[n + 1], name);
    SettledGone(u, job);
    if Settled(u, job).Some? { SettledTimer(u, job); }
  }

  /** With complete runs, a member's timer is always the day its current absence began. */
  lemma {:induction false} TimerIsAbsence(site: Site, dbs: seq<seq<User>>, turns: seq<Turn>, name: string, n: nat)
    requires History(site, dbs, turns) && site.cfg.deferDays > 0 && n <= |turns| && Lived(dbs, name, n)
    requires Member(site.cfg.group, Find(dbs[0], name).value)
    requires forall q :: 0 <= q < n ==> Whole(turns[q])
    ensures var u := Find(dbs[0], name).value; Find(dbs[n], name).value.defer == AbsentSince(u, u.defer, site, turns, n)
  {
    if n > 0 {
      TimerIsAbsence(site, dbs, turns, name, n - 1);
      TimerSettles(site, dbs, turns, name, n - 1);
    }
  }

  /** Exactly when a complete run removes a member: it is absent, and was so for the whole deferral. */
  lemma RemovedIff(site: Site, dbs: seq<seq<User>>, turns: seq<Turn>, name: string, m: nat)
    requires History(site, dbs, turns) && site.cfg.deferDays > 0 && m < |turns| && Lived(dbs, name, m)
    requires Member(site.cfg.group, Find(dbs[0], name).value)
    requires forall q :: 0 <= q <= m ==> Whole(turns[q])
    ensures var u := Find(dbs[0], name).value;
            var since := AbsentSince(u, u.defer, site, turns, m);
            Find(dbs[m + 1], name).None? <==>
              AbsentAt(u, site, turns, m) && since != 0 && turns[m].today >= Expiry(since, site.cfg.deferDays)
  {
    TimerIsAbsence(site, dbs, turns, name, m);
    TimerSettles(site, dbs, turns, name, m);
  }

  lemma {:induction false} AbsentThroughout(u: User, timer: u32, site: Site, turns: seq<Turn>, n: nat)
    requires n <= |turns| && (forall q :: 0 <= q < n ==> turns[q].today > 0 && AbsentAt(u, site, turns, q))
    ensures AbsentSince(u, timer, site, turns, n) == if timer != 0 || n == 0 then timer else turns[0].today
  {
    if n > 0 {
      assert AbsentAt(u, site, turns, n - 1);
      AbsentThroughout(u, timer, site, turns, n - 1);
    }
  }

  /** A member that is absent throughout lives exactly as long as no run comes the whole deferral after
      its timer started, which it does in the first run if it is not running yet. */
  lemma {:induction false} GoneAfterDeferral(site: Site, dbs: seq<seq<User>>, turns: seq<Turn>, name: string, n: nat)
    requires History(site, dbs, turns) && site.cfg.deferDays > 0 && 0 < n <= |turns| && Find(dbs[0], name).Some?
    requires var u := Find(dbs[0], name).value;
             && Member(site.cfg.group, u) && u.defer + site.cfg.deferDays < 0x1_0000_0000
             && forall q :: 0 <= q < n ==> AbsentAt(u, site, turns, q) && Whole(turns[q])
    ensures var u := Find(dbs[0], name).value;
            var start := if u.defer != 0 then u.defer else turns[0].today;
            Lived(dbs, name, n) <==> forall q :: 0 <= q < n ==> turns[q].today < start + site.cfg.deferDays
  {
    var u := Find(dbs[0], name).value;
    var start := if u.defer != 0 then u.defer else turns[0].today;
    if n > 1 { GoneAfterDeferral(site, dbs, turns, name, n - 1); }
    if Lived(dbs, name, n - 1) {
      LastTurn(site, dbs, turns, name, n - 1, start);
    }
  }

  lemma LastTurn(site: Site, dbs: seq<seq<User>>, turns: seq<Turn>, name: string, m: nat, start: u32)
    requires History(site, dbs, turns) && site.cfg.deferDays > 0 && m < |turns| && Lived(dbs, name, m)
    requires var u := Find(dbs[0], name).value;
             && Member(site.cfg.group, u) && u.defer + site.cfg.deferDays < 0x1_0000_0000
             && start == (if u.defer != 0 then u.defer else turns[0].today)
             && forall q :: 0 <= q <= m ==> AbsentAt(u, site, turns, q) && Whole(turns[q])
    ensures Find(dbs[m + 1], name).Some? <==> turns[m].today < start + site.cfg.deferDays
  {
    var u := Find(dbs[0], name).value;
    forall q | 0 <= q <= m
      ensures turns[q].today > 0 && turns[q].today + site.cfg.deferDays < 0x1_0000_0000
    {
      assert StepAt(site, dbs, turns, q);
    }
    assert AbsentAt(u, site, turns, m);
    RemovedIff(site, dbs, turns, name, m);
    AbsentThroughout(u, u.defer, site, turns, m);
    ExpiryIsSum(start, site.cfg.deferDays);
  }
}
