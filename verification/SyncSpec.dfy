/** What one synchronisation run decides and does (src/libvxmdsync/proc.c, fixup.c), on values. */
module SyncSpec {
  import opened Prelude
  import opened OrderedMap
  import opened Vxdb
  import opened ShadowDriver
  import opened LoginNames

  datatype Entry = Entry(uuid: string, username: string, fullName: string, pvgrp: string)

  /** The external list, keyed and traversed by UUID. */
  type Eds = OMap<Entry>

  predicate KeyedByUuid(eds: Eds) {
    eds.Node? ==> eds.key == eds.val.uuid && KeyedByUuid(eds.next)
  }

  /** The target group, the deferral in days (0: delete at once), and defaults for new accounts. */
  datatype Config = Config(group: Group, deferDays: u32, account: Account, homeBase: string)

  /** What stays fixed over a run. */
  datatype Job = Job(cfg: Config, range: IdRange, today: u32, eds: Eds)

  // ---------- Decisions ----------

  predicate InGroup(g: Group, u: User) {
    || (g.gid != NOGID && g.gid == u.gid)
    || (g.name.Some? && u.igrp.Some? && g.name == u.igrp)
  }

  /** A user that the comparison looks at: delivered by the traversal, and in the group. */
  predicate Member(g: Group, u: User) { !IsNis(u.name) && InGroup(g, u) }

  datatype Decision = Ignore | Keep | KeepStop | Start | Wait | DeleteNow

  /** Timer plus deferral is a 32-bit sum. */
  function Expiry(timer: u32, deferDays: u32): u32 { (timer + deferDays) % 0x1_0000_0000 }

  function Verdict(present: bool, timer: u32, deferDays: u32, today: u32): Decision {
    if present then if timer != 0 then KeepStop else Keep
    else if deferDays == 0 then DeleteNow
    else if timer == 0 then Start
    else if today >= Expiry(timer, deferDays) then DeleteNow
    else Wait
  }

  /** UUIDs of the members among the first n users. */
  function Uuids(us: seq<User>, n: nat, g: Group): set<string>
    requires n <= |us|
  {
    if n == 0 then {}
    else if Member(g, us[n - 1]) && us[n - 1].uuid.Some? then Uuids(us, n - 1, g) + {us[n - 1].uuid.value}
    else Uuids(us, n - 1, g)
  }

  /** User i is found in the external list, by its UUID not yet claimed by an earlier member. */
  predicate Found(us: seq<User>, i: nat, job: Job)
    requires i < |us|
  {
    us[i].uuid.Some? && Lookup(job.eds, us[i].uuid.value).Some? && us[i].uuid.value !in Uuids(us, i, job.cfg.group)
  }

  function DecisionAt(us: seq<User>, i: nat, job: Job): Decision
    requires i < |us|
  {
    if Member(job.cfg.group, us[i]) then Verdict(Found(us, i, job), us[i].defer, job.cfg.deferDays, job.today)
    else Ignore
  }

  /** Names of the first n users that got decision `d`, in database order. */
  function Decided(us: seq<User>, n: nat, job: Job, d: Decision): seq<string>
    requires n <= |us|
  {
    if n == 0 then []
    else if DecisionAt(us, n - 1, job) == d then Decided(us, n - 1, job, d) + [us[n - 1].name]
    else Decided(us, n - 1, job, d)
  }

  /** The update list. The program compares the new group tag with the UUID, not with the old tag. */
  function Updates(us: seq<User>, n: nat, job: Job): OMap<User>
    requires n <= |us|
  {
    if n == 0 then Nil
    else
      var m := Updates(us, n - 1, job);
      var u := us[n - 1];
      if Member(job.cfg.group, u) && Found(us, n - 1, job) && Lookup(job.eds, u.uuid.value).value.pvgrp != u.uuid.value
      then Put(m, u.uuid.value, u.(pvgrp := Some(Lookup(job.eds, u.uuid.value).value.pvgrp)))
      else m
  }

  function Members(us: seq<User>, n: nat, g: Group): nat
    requires n <= |us|
  {
    if n == 0 then 0 else Members(us, n - 1, g) + if Member(g, us[n - 1]) then 1 else 0
  }

  /** Login names that the traversal delivers among the first n users. */
  function VisibleNames(us: seq<User>, n: nat): set<string>
    requires n <= |us|
  {
    if n == 0 then {}
    else if IsNis(us[n - 1].name) then VisibleNames(us, n - 1)
    else VisibleNames(us, n - 1) + {us[n - 1].name}
  }

  /** No login name is delivered twice among the first n users. */
  predicate NoRepeats(us: seq<User>, n: nat)
    requires n <= |us|
  {
    n > 0 ==> NoRepeats(us, n - 1) && (IsNis(us[n - 1].name) || us[n - 1].name !in VisibleNames(us, n - 1))
  }

  /** The workspace's lists. */
  datatype Lists = Lists(
    addReq: Eds, updateReq: OMap<User>, lnlist: set<string>,
    deferStart: seq<string>, deferWait: seq<string>, deferStop: seq<string>, deleteNow: seq<string>, numGrp: nat)

  /** The lists after comparing the first n users. */
  function ListsAt(us: seq<User>, n: nat, job: Job): Lists
    requires n <= |us|
  {
    Lists(Without(job.eds, Uuids(us, n, job.cfg.group)), Updates(us, n, job), VisibleNames(us, n),
          Decided(us, n, job, Start), Decided(us, n, job, Wait), Decided(us, n, job, KeepStop),
          Decided(us, n, job, DeleteNow),
          Members(us, n, job.cfg.group))
  }

  /** One member's effect on the lists, given its decision and its entry in the external list. */
  function Judged(l: Lists, u: User, d: Decision, e: Option<Entry>): Lists
    requires d in {Keep, KeepStop} ==> e.Some? && u.uuid.Some?
  {
    var l := l.(numGrp := l.numGrp + 1);
    match d
    case Start => l.(deferStart := l.deferStart + [u.name])
    case Wait => l.(deferWait := l.deferWait + [u.name])
    case DeleteNow => l.(deleteNow := l.deleteNow + [u.name])
    case Ignore => l
    case _ =>
      var l := l.(addReq := Del(l.addReq, u.uuid.value),
                  deferStop := if d == KeepStop then l.deferStop + [u.name] else l.deferStop);
      if e.value.pvgrp != u.uuid.value
      then l.(updateReq := Put(l.updateReq, u.uuid.value, u.(pvgrp := Some(e.value.pvgrp))))
      else l
  }

  /** The effect on the lists of a delivered user whose name is new. */
  function CompareOne(l: Lists, u: User, cfg: Config, today: u32): Lists {
    var l := l.(lnlist := l.lnlist + {u.name});
    if !InGroup(cfg.group, u) then l
    else
      var e := if u.uuid.Some? then Lookup(l.addReq, u.uuid.value) else None;
      Judged(l, u, Verdict(e.Some?, u.defer, cfg.deferDays, today), e)
  }

  lemma CompareStep(us: seq<User>, n: nat, job: Job)
    requires n < |us| && Sorted(job.eds) && !IsNis(us[n].name)
    ensures ListsAt(us, n + 1, job) == CompareOne(ListsAt(us, n, job), us[n], job.cfg, job.today)
  {
    ClaimKey(job.eds, Uuids(us, n, job.cfg.group), Or(us[n].uuid, ""));
  }

  // ---------- Additions ----------

  /** Gives every remaining entry, in UUID order, the first free variant of its proposed name. */
  function Allot(m: Eds, taken: set<string>): Option<Eds> {
    match m
    case Nil => Some(Nil)
    case Node(k, e, next) =>
      match PickName(e.username, taken)
      case None => None
      case Some(name) =>
        match Allot(next, taken + {name})
        case None => None
        case Some(rest) => Some(Node(k, e.(username := name), rest))
  }

  /** Entries that no member claims. */
  function Unclaimed(us: seq<User>, job: Job): Eds { Without(job.eds, Uuids(us, |us|, job.cfg.group)) }

  function Additions(us: seq<User>, job: Job): Option<Eds> { Allot(Unclaimed(us, job), VisibleNames(us, |us|)) }

  function NewUser(e: Entry, cfg: Config): User {
    User(e.username, 0, cfg.group.gid, cfg.group.name,
         cfg.account.(real_ := e.fullName, home := cfg.homeBase + "/" + e.username),
         Some(e.uuid), Some(e.pvgrp), 0)
  }

  /** The database after adding the first n of the allotted entries; None once an addition fails. */
  function AddFirst(us: seq<User>, m: Eds, n: nat, cfg: Config, range: IdRange): Option<seq<User>>
    requires range.Valid()
    decreases n
  {
    if n == 0 || m.Nil? then Some(us)
    else
      var rq := NewUser(m.val, cfg);
      if range.AddStatus(us, true, rq, Auto) == Success
      then AddFirst(us + [range.Added(us, rq, Auto)], m.next, n - 1, cfg, range)
      else None
  }

  // ---------- Modifications and deletions ----------

  datatype Op = SetPvgrp(name: string, pvgrp: string) | SetDefer(name: string, day: u32) | Remove(name: string)

  function Effect(u: User, op: Op): Option<User> {
    if u.name != op.name then Some(u)
    else
      match op
      case SetPvgrp(_, p) => Some(u.(pvgrp := Some(p)))
      case SetDefer(_, d) => Some(u.(defer := d))
      case Remove(_) => None
  }

  function EffectAll(u: User, ops: seq<Op>): Option<User>
    decreases |ops|
  {
    if ops == [] then Some(u)
    else match Effect(u, ops[0]) case None => None case Some(v) => EffectAll(v, ops[1..])
  }

  function AsSeq<T>(o: Option<T>): seq<T> { match o case None => [] case Some(x) => [x] }

  /** Every user after all operations, users that are gone left out. */
  function Through(us: seq<User>, ops: seq<Op>): seq<User> {
    if us == [] then [] else AsSeq(EffectAll(us[0], ops)) + Through(us[1..], ops)
  }

  function UpdateOps(m: OMap<User>): seq<Op> {
    match m
    case Nil => []
    case Node(_, u, next) => [SetPvgrp(u.name, Or(u.pvgrp, ""))] + UpdateOps(next)
  }

  function DeferOps(names: seq<string>, day: u32): seq<Op> {
    if names == [] then [] else [SetDefer(names[0], day)] + DeferOps(names[1..], day)
  }

  function RemoveOps(names: seq<string>): seq<Op> {
    if names == [] then [] else [Remove(names[0])] + RemoveOps(names[1..])
  }

  /** The requests of mdsync_mod, in order: group tags, timers to start, timers to stop. */
  function ModRequests(l: Lists, today: u32): seq<Op> {
    UpdateOps(l.updateReq) + TimerRequests(l, today)
  }

  function TimerRequests(l: Lists, today: u32): seq<Op> { DeferOps(l.deferStart, today) + DeferOps(l.deferStop, 0) }

  function ModOps(us: seq<User>, job: Job): seq<Op> { ModRequests(ListsAt(us, |us|, job), job.today) }

  function DelOps(us: seq<User>, job: Job): seq<Op> { RemoveOps(Decided(us, |us|, job, DeleteNow)) }

  function Ops(us: seq<User>, job: Job): seq<Op> { ModOps(us, job) + DelOps(us, job) }

  // ---------- A run, possibly cut off ----------

  /** Number of single database changes in the full run. */
  function Steps(us: seq<User>, job: Job): nat
    requires Additions(us, job).Some?
  {
    Size(Additions(us, job).value) + |Ops(us, job)|
  }

  /** The database after the first k changes: additions, then modifications, then deletions. None if
      an addition among them fails. */
  function After(us: seq<User>, job: Job, k: nat): Option<seq<User>>
    requires job.range.Valid() && Additions(us, job).Some?
  {
    var adds := Additions(us, job).value;
    match AddFirst(us, adds, k, job.cfg, job.range)
    case None => None
    case Some(added) =>
      var rest := if k <= Size(adds) then 0 else k - Size(adds);
      Some(Through(added, FirstOps(us, job, rest)))
  }

  function FirstOps(us: seq<User>, job: Job, n: nat): (pre: seq<Op>)
    ensures pre <= Ops(us, job) && (n == 0 ==> pre == []) && (n >= |Ops(us, job)| ==> pre == Ops(us, job))
  {
    FirstOf(Ops(us, job), n)
  }

  function FirstOf(ops: seq<Op>, n: nat): (pre: seq<Op>)
    ensures pre <= ops && (n == 0 ==> pre == []) && (n >= |ops| ==> pre == ops)
  {
    if n <= |ops| then ops[..n] else ops
  }

  // ---------- A run of which some parts are skipped ----------

  /** The parts that are carried out. The tool asks before each, and goes on if the answer is no. */
  datatype Parts = Parts(add: bool, mod: bool, del: bool)

  const ALL_PARTS := Parts(true, true, true)

  function PartAdds(us: seq<User>, job: Job, parts: Parts): Eds
    requires Additions(us, job).Some?
  {
    if parts.add then Additions(us, job).value else Nil
  }

  function PartOps(us: seq<User>, job: Job, parts: Parts): seq<Op> {
    (if parts.mod then ModOps(us, job) else []) + (if parts.del then DelOps(us, job) else [])
  }

  function PartSteps(us: seq<User>, job: Job, parts: Parts): nat
    requires Additions(us, job).Some?
  {
    Size(PartAdds(us, job, parts)) + |PartOps(us, job, parts)|
  }

  /** The operations among the first k changes of these parts. */
  function Executed(us: seq<User>, job: Job, parts: Parts, k: nat): seq<Op>
    requires Additions(us, job).Some?
  {
    var n := Size(PartAdds(us, job, parts));
    FirstOf(PartOps(us, job, parts), if k <= n then 0 else k - n)
  }

  function AfterParts(us: seq<User>, job: Job, parts: Parts, k: nat): Option<seq<User>>
    requires job.range.Valid() && Additions(us, job).Some?
  {
    match AddFirst(us, PartAdds(us, job, parts), k, job.cfg, job.range)
    case None => None
    case Some(added) => Some(Through(added, Executed(us, job, parts, k)))
  }

  lemma AllParts(us: seq<User>, job: Job, k: nat)
    requires Additions(us, job).Some?
    ensures PartSteps(us, job, ALL_PARTS) == Steps(us, job)
    ensures job.range.Valid() ==> AfterParts(us, job, ALL_PARTS, k) == After(us, job, k)
    ensures var n := Size(Additions(us, job).value);
            Executed(us, job, ALL_PARTS, k) == FirstOps(us, job, if k <= n then 0 else k - n)
  {
    hide Additions, ModOps, DelOps, AddFirst, Through, Size;
  }
}
