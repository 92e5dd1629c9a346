/** Concrete inputs that show where a run does not do what is meant, and which runs cannot be resumed. Each
    database has a single user. */
module SyncExamples {
  import opened Prelude
  import opened OrderedMap
  import opened Vxdb
  import opened ShadowDriver
  import LoginNames
  import opened SyncSpec
  import opened SyncOps
  import opened SyncOutcome
  import opened SyncRun
  import opened SyncTheorems
  import opened SyncHistory
  import opened SyncTags

  // ---------- One user, one run ----------

  lemma OneIsValid(u: User, g: Group)
    ensures ValidDb([u], g)
  {
  }

  /** Nobody is added for one member if the list is empty or has the member alone. */
  lemma NobodyToAdd(u: User, job: Job)
    requires job.eds.Node? ==> Member(job.cfg.group, u) && Present(u, job) && job.eds.next == Nil
    ensures Additions([u], job) == Some(Nil)
  {
    if job.eds.Node? {
      var x := u.uuid.value;
      assert Lookup(job.eds.next, x) == None && job.eds.key == x;
      assert Uuids([u], 0, job.cfg.group) == {};
      assert |[u]| == 1 && Uuids([u], 1, job.cfg.group) == {x};
      NothingToAdd([u], job);
    }
  }

  lemma OneSettles(u: User, job: Job)
    ensures Settle([u], job) == AsSeq(Settled(u, job))
  {
    assert [u][1..] == [] && Settle([], job) == [];
  }

  /** A complete run settles the one user. */
  lemma OneUserRun(u: User, job: Job)
    requires job.range.Valid() && Additions([u], job) == Some(Nil)
    ensures AfterParts([u], job, ALL_PARTS, PartSteps([u], job, ALL_PARTS)) == Some(AsSeq(Settled(u, job)))
  {
    hide Additions, AddFirst, AfterParts, Through, Settle, Settled;
    NothingAdded([u], Nil, 0, job.cfg, job.range);
    AllParts([u], job, Steps([u], job));
    CompleteAfter([u], job, Nil);
    OneIsValid(u, job.cfg.group);
    OpsSettle([u], job);
    OneSettles(u, job);
  }

  /** A run without modifications leaves the one user as it is, unless it has to go. */
  lemma OneUserWithoutChange(u: User, job: Job, parts: Parts)
    requires job.range.Valid() && Additions([u], job) == Some(Nil) && !parts.mod && !WantsRemoval(u, job)
    ensures AfterParts([u], job, parts, PartSteps([u], job, parts)) == Some([u])
  {
    hide Additions, AddFirst, AfterParts, Through;
    OneIsValid(u, job.cfg.group);
    DecisionAtIsFor([u], 0, job);
    assert Decided([u], 0, job, DeleteNow) == [] && Decided([u], 1, job, DeleteNow) == [];
    NothingAdded([u], Nil, 0, job.cfg, job.range);
    AllOfParts([u], job, parts);
    EmptyThrough([u]);
  }

  lemma CompleteStep(site: Site, u: User, t: Turn)
    requires var job := JobOf(site, t); ValidJob(job) && Additions([u], job) == Some(Nil)
    requires t.parts == ALL_PARTS && t.cut == None
    ensures Step(site, [u], t, AsSeq(Settled(u, JobOf(site, t))))
  {
    OneUserRun(u, JobOf(site, t));
  }

  lemma StepWithoutChange(site: Site, u: User, t: Turn)
    requires var job := JobOf(site, t); ValidJob(job) && Additions([u], job) == Some(Nil) && !WantsRemoval(u, job)
    requires !t.parts.mod && t.cut == None
    ensures Step(site, [u], t, [u])
  {
    OneUserWithoutChange(u, JobOf(site, t), t.parts);
  }

  // ---------- The user and the lists ----------

  function Anna(account: Account, tag: string, timer: u32): User {
    User("anna", 1000, 100, None, account, Some("8a"), Some(tag), timer)
  }

  function ListOfAnna(tag: string): Eds { Node("8a", Entry("8a", "anna", "Anna", tag), Nil) }

  function OneGroup(account: Account, deferDays: u32): Site {
    Site(Config(Group(None, 100), deferDays, account, "/home"), IdRange(1000, 2000))
  }

  lemma AnnaIsThere(account: Account, tag: string, timer: u32, deferDays: u32, today: u32, eds: Eds)
    requires today > 0 && today + deferDays < 0x1_0000_0000 && (eds == Nil || exists x :: eds == ListOfAnna(x))
    ensures var job := JobOf(OneGroup(account, deferDays), Turn(today, eds, ALL_PARTS, None));
            && ValidJob(job) && Member(job.cfg.group, Anna(account, tag, timer))
            && (Present(Anna(account, tag, timer), job) <==> eds != Nil)
            && Additions([Anna(account, tag, timer)], job) == Some(Nil)
  {
    assert LoginNames.Proposed("anna") by { assert forall c :: c in "anna" ==> LoginNames.IsLower(c); }
    NobodyToAdd(Anna(account, tag, timer), JobOf(OneGroup(account, deferDays), Turn(today, eds, ALL_PARTS, None)));
  }

  // ---------- Wrong tags ----------

  /** A user whose tag has to change to the very text of its UUID keeps the old one in a complete run. */
  lemma TagStaysWrong(account: Account)
    ensures var us, site := [Anna(account, "7b", 0)], OneGroup(account, 0);
            && ValidDb(us, site.cfg.group) && Step(site, us, Turn(1, ListOfAnna("8a"), ALL_PARTS, None), us)
            && Present(us[0], JobOf(site, Turn(1, ListOfAnna("8a"), ALL_PARTS, None)))
            && us[0].pvgrp == Some("7b")
  {
    var u, t := Anna(account, "7b", 0), Turn(1, ListOfAnna("8a"), ALL_PARTS, None);
    AnnaIsThere(account, "7b", 0, 0, 1, t.eds);
    OneIsValid(u, Group(None, 100));
    CompleteStep(OneGroup(account, 0), u, t);
  }

  /** In the tool any other tag stays wrong as well while there is no timer to change, although everything
      is agreed to. */
  lemma TagWaits(account: Account, tag: string)
    requires tag != "7b" && tag != "8a"
    ensures var us, site, eds := [Anna(account, "7b", 0)], OneGroup(account, 0), ListOfAnna(tag);
            var job := Job(site.cfg, site.range, 1, eds);
            && ValidDb(us, site.cfg.group) && Step(site, us, Turn(1, eds, ToolParts(us, job, ALL_PARTS), None), us)
            && Present(us[0], job) && Lookup(eds, us[0].uuid.value).value.pvgrp == tag && us[0].pvgrp != Some(tag)
  {
    var u, site, eds := Anna(account, "7b", 0), OneGroup(account, 0), ListOfAnna(tag);
    var job := Job(site.cfg, site.range, 1, eds);
    AnnaIsThere(account, "7b", 0, 0, 1, eds);
    OneIsValid(u, Group(None, 100));
    DecisionAtIsFor([u], 0, job);
    assert Decided([u], 0, job, Start) == [] && Decided([u], 1, job, Start) == [];
    assert Decided([u], 0, job, KeepStop) == [] && Decided([u], 1, job, KeepStop) == [];
    StepWithoutChange(site, u, Turn(1, eds, ToolParts([u], job, ALL_PARTS), None));
  }

  // ---------- A lost stop request ----------

  function LostStopTurns(tag: string): seq<Turn> {
    [Turn(5, Nil, ALL_PARTS, None), Turn(6, ListOfAnna(tag), Parts(true, false, true), None),
     Turn(8, Nil, ALL_PARTS, None)]
  }

  function LostStopDbs(account: Account, tag: string): seq<seq<User>> {
    [[Anna(account, tag, 0)], [Anna(account, tag, 5)], [Anna(account, tag, 5)], []]
  }

  lemma LostStopSteps(account: Account, tag: string)
    ensures var site, turns := OneGroup(account, 3), LostStopTurns(tag);
            var clear, running := Anna(account, tag, 0), Anna(account, tag, 5);
            && Step(site, [clear], turns[0], [running]) && Step(site, [running], turns[1], [running])
            && Step(site, [running], turns[2], [])
            && Present(clear, JobOf(site, turns[1])) && StopLost(site, [running], turns[1], "anna")
  {
    var site, turns := OneGroup(account, 3), LostStopTurns(tag);
    var clear, running := Anna(account, tag, 0), Anna(account, tag, 5);
    hide Step, StopLost;
    AnnaIsThere(account, tag, 0, 3, 5, Nil);
    CompleteStep(site, clear, turns[0]);
    AnnaIsThere(account, tag, 5, 3, 6, ListOfAnna(tag));
    StepWithoutChange(site, running, turns[1]);
    AnnaIsThere(account, tag, 5, 3, 8, Nil);
    CompleteStep(site, running, turns[2]);
    OneIsValid(running, site.cfg.group);
    FindOne(running, "anna");
    TimerStoppedIff(site, [running], turns[1], [running], "anna");
  }

  /** With a deferral of three days: a run on day 5 misses the user, one on day 6 lists it but skips its
      modifications, and one on day 8 misses it again and deletes it, two days after it was listed. */
  lemma LostStop(account: Account, tag: string)
    ensures var site, dbs, turns := OneGroup(account, 3), LostStopDbs(account, tag), LostStopTurns(tag);
            && History(site, dbs, turns) && Lived(dbs, "anna", 2) && Find(dbs[3], "anna") == None
            && Find(dbs[0], "anna").value.defer == 0
            && !AbsentAt(Find(dbs[0], "anna").value, site, turns, 1) && StopLostAt(site, dbs, turns, "anna", 1)
  {
    hide Step, StopLost, Present, Find, ValidDb;
    var site, dbs, turns := OneGroup(account, 3), LostStopDbs(account, tag), LostStopTurns(tag);
    LostStopSteps(account, tag);
    OneIsValid(Anna(account, tag, 0), site.cfg.group);
    FindOne(Anna(account, tag, 0), "anna");
    FindOne(Anna(account, tag, 5), "anna");
    FindNobody("anna");
    assert StepAt(site, dbs, turns, 0) && StepAt(site, dbs, turns, 1) && StepAt(site, dbs, turns, 2);
  }

  lemma FindNobody(name: string)
    ensures Find([], name) == None
  {
  }

  // ---------- Which runs can be resumed ----------

  /** Runs of these parts can always be resumed. */
  ghost predicate Resumable(parts: Parts) {
    forall us, job, k, mid, final :: Interrupted(us, job, parts, k, mid, final) ==> Resumed(mid, job, final)
  }

  lemma NobodyRemoved(us: seq<User>, job: Job, parts: Parts, k: nat)
    requires Additions(us, job).Some? && !parts.del
    ensures NoRemovals(Executed(us, job, parts, k))
  {
    hide ModOps, Additions;
    ModTargets(us, job);
    var part := Executed(us, job, parts, k);
    forall op | op in part
      ensures !op.Remove?
    {
      var i :| 0 <= i < |part| && part[i] == op;
      assert PartOps(us, job, parts)[i] == op && op in ModOps(us, job);
    }
  }

  /** The first new user gets an id that nobody has, and the lowest of the range if there is nobody. */
  lemma FirstNewId(us: seq<User>, m: Eds, cfg: Config, range: IdRange, news: seq<User>)
    requires range.Valid() && m.Node? && AddFirst(us, m, Size(m), cfg, range) == Some(us + news)
    ensures news != [] && news[0].uid !in UidSet(us)
    ensures us == [] ==> news[0].uid == range.min
  {
    var rq := NewUser(m.val, cfg);
    var u := range.Added(us, rq, Auto);
    var rest := AddedUsers(us + [u], m.next, Size(m) - 1, cfg, range);
    ConcatAssociative(us, [u], rest);
    SameSuffix(us, news, [u] + rest);
    if us == [] { assert UidSet(us) == {}; }
  }

  /** A member that is to go has the lowest id of the range, and another one is to be added. The whole run
      adds first, so the new user gets another id; where the deletion comes without the addition, the rerun
      gives out the id that became free. */
  function LeavingUser(): User {
    User("anna", 1000, 100, None,
         Account("Anna", "/home/anna", "/bin/sh", None, 0, 0, 0, 0, NO_EXPIRE, NO_INACTIVE, "", ""),
         Some("7a"), None, 0)
  }

  function ReplacingJob(): Job {
    Job(Config(Group(None, 100), 0, LeavingUser().account, "/home"), IdRange(1000, 2000), 1,
        Node("8a", Entry("8a", "berta", "Berta", "b"), Nil))
  }

  lemma ReplacingIsValid()
    ensures ValidJob(ReplacingJob()) && Additions([], ReplacingJob()) == Some(ReplacingJob().eds)
    ensures Additions([LeavingUser()], ReplacingJob()) == Some(ReplacingJob().eds)
    ensures WantsRemoval(LeavingUser(), ReplacingJob())
  {
    var u, job := LeavingUser(), ReplacingJob();
    assert LoginNames.Proposed("berta") by { assert forall c :: c in "berta" ==> LoginNames.IsLower(c); }
    assert "berta" != "anna" by { assert |"berta"| != |"anna"|; }
    assert "7a" != "8a" by { assert "7a"[0] != "8a"[0]; }
    assert Uuids([u], 0, job.cfg.group) == {} && VisibleNames([u], 0) == {};
    assert |[u]| == 1 && Uuids([u], 1, job.cfg.group) == {"7a"} && VisibleNames([u], 1) == {"anna"};
    assert LoginNames.Candidate("berta", 0) == "berta";
    WithoutNothing(job.eds, {"7a"});
    WithoutNothing(job.eds, {});
    assert Unclaimed([u], job) == job.eds && Unclaimed([], job) == job.eds;
    assert LoginNames.PickName("berta", {"anna"}) == Some("berta") && LoginNames.PickName("berta", {}) == Some("berta");
  }

  lemma ReplacingCompletes() returns (final: seq<User>)
    ensures Additions([LeavingUser()], ReplacingJob()).Some?
    ensures After([LeavingUser()], ReplacingJob(), Steps([LeavingUser()], ReplacingJob())) == Some(final)
    ensures final != [] && final[0].uid != 1000
  {
    hide Additions, Through, Settle, AddFirst;
    var u, job := LeavingUser(), ReplacingJob();
    ReplacingIsValid();
    var added := BertaIsAdded();
    CompleteAfter([u], job, job.eds);
    OneIsValid(u, job.cfg.group);
    final := Through(added, Ops([u], job));
    var news := CompleteShape([u], job, final);
    FirstNewId([u], job.eds, job.cfg, job.range, news);
    assert u in [u];
    OneSettles(u, job);
  }

  lemma BertaIsAdded() returns (added: seq<User>)
    ensures AddFirst([LeavingUser()], ReplacingJob().eds, 1, ReplacingJob().cfg, ReplacingJob().range) == Some(added)
  {
    var u, job := LeavingUser(), ReplacingJob();
    var rq := NewUser(job.eds.val, job.cfg);
    assert rq.name != u.name by { assert |"berta"| != |"anna"|; }
    assert FirstIndex([u], rq.name) == 1 + FirstIndex([], rq.name);
    var id: u32 := 1001;
    assert id !in UidSet([u]);
    assert job.range.FreeUid([u], Auto).Some?;
    added := [u] + [job.range.Added([u], rq, Auto)];
    NothingAdded(added, Nil, 0, job.cfg, job.range);
  }

  /** The input that shows it, for every selection of parts that deletes without adding. */
  lemma IdIsReused(parts: Parts) returns (k: nat, final: seq<User>)
    requires !parts.add && parts.del
    ensures Interrupted([LeavingUser()], ReplacingJob(), parts, k, [], final)
    ensures !Resumed([], ReplacingJob(), final)
  {
    hide Additions, ValidJob, ValidDb, After, AfterParts, LeavingUser, Steps;
    ReplacingIsValid();
    final := ReplacingCompletes();
    OneIsValid(LeavingUser(), ReplacingJob().cfg.group);
    k := LeavingGoes(parts);
    if Resumed([], ReplacingJob(), final) {
      RerunReuses(final);
    }
  }

  lemma RerunReuses(final: seq<User>)
    requires Resumed([], ReplacingJob(), final)
    ensures final != [] && final[0].uid == 1000
  {
    hide Additions, Through, AddFirst;
    var job := ReplacingJob();
    ReplacingIsValid();
    var news := CompleteShape([], job, final);
    FirstNewId([], job.eds, job.cfg, job.range, news);
    assert Settle([], job) == [];
  }

  lemma LeavingGoes(parts: Parts) returns (k: nat)
    requires !parts.add && parts.del
    ensures var us, job := [LeavingUser()], ReplacingJob();
            Additions(us, job).Some? && AfterParts(us, job, parts, k) == Some([])
  {
    hide Additions, AddFirst;
    var u, job := LeavingUser(), ReplacingJob();
    ReplacingIsValid();
    OneIsValid(u, job.cfg.group);
    k := PartSteps([u], job, parts);
    AllOfParts([u], job, parts);
    NothingAdded([u], Nil, 0, job.cfg, job.range);
    var part := PartOps([u], job, parts);
    OpsIff([u], 0, job, Remove(u.name));
    assert Remove(u.name) in part by { InDelOps([u], job, parts, Remove(u.name)); }
    PartIsOfRun([u], job, parts);
    var tag, timer, removed := CutOutcome([u], 0, job, part);
    assert [u][1..] == [] && Through([], part) == [];
  }

  lemma InDelOps(us: seq<User>, job: Job, parts: Parts, op: Op)
    requires op.Remove? && op in Ops(us, job) && parts.del
    ensures op in PartOps(us, job, parts)
  {
    ModTargets(us, job);
  }

  lemma PartIsOfRun(us: seq<User>, job: Job, parts: Parts)
    ensures PartOf(PartOps(us, job, parts), us, job)
  {
  }

  /** A run of some parts can always be resumed if and only if it does not delete without adding. */
  lemma ResumableIff(parts: Parts)
    ensures Resumable(parts) <==> parts.add || !parts.del
  {
    if parts.add || !parts.del {
      forall us, job, k, mid, final | Interrupted(us, job, parts, k, mid, final)
        ensures Resumed(mid, job, final)
      {
        if !parts.del { NobodyRemoved(us, job, parts, k); }
        Resumption(us, job, parts, k, mid, final);
      }
    } else {
      var k, final := IdIsReused(parts);
    }
  }
}
