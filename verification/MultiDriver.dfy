/** The driver that unites a write module and read modules (src/drivers/mmd.c): traversal as the program
    does it, lookups, the choice of a free id, and merged group lists. */
module MultiDriver {
  import opened Prelude
  import opened Vxdb
  import opened ShadowDriver

  /** A module as its users see it; `opens` tells whether a traversal of it can be begun. */
  datatype Mod = Mod(users: seq<User>, opens: bool, groups: map<string, seq<string>>)

  // ---------- The sequences that are meant ----------

  function ReadUnion(read: seq<Mod>): seq<User> {
    if read == [] then [] else (if read[0].opens then read[0].users else []) + ReadUnion(read[1..])
  }

  /** The write module's users and then each read module's. */
  function Union(write: Option<Mod>, read: seq<Mod>): seq<User> {
    (if write.Some? && write.value.opens then write.value.users else []) + ReadUnion(read)
  }

  /** The traversal of a read module is freed but not forgotten, so none may follow one that opened. */
  predicate Sound(read: seq<Mod>) { forall i :: 0 <= i < |read| - 1 ==> !read[i].opens }

  // ---------- The traversal as it is ----------

  /** The inner traversal: none, one at a position, or one that was freed. */
  datatype Inner = Null | Live(pos: nat) | Freed

  /** What a traversal still delivers, and whether it ends well or by using a freed one. */
  datatype Plan = Plan(users: seq<User>, sound: bool)

  function Before(users: seq<User>, rest: Plan): Plan { Plan(users + rest.users, rest.sound) }

  function From(users: seq<User>, pos: nat): seq<User> { if pos <= |users| then users[pos..] else [] }

  function ReadPlan(read: seq<Mod>, i: nat, inner: Inner): Plan
    decreases |read| - i, inner.Null?
  {
    if i >= |read| then Plan([], true)
    else
      match inner
      case Freed => Plan([], false)
      case Null => if read[i].opens then ReadPlan(read, i, Live(0)) else ReadPlan(read, i + 1, Null)
      case Live(pos) => Before(From(read[i].users, pos), ReadPlan(read, i + 1, Freed))
  }

  function WritePlan(write: Mod, read: seq<Mod>, pos: nat): Plan {
    Before(From(write.users, pos), ReadPlan(read, 0, Null))
  }

  function WholePlan(write: Option<Mod>, read: seq<Mod>): Plan {
    if write.Some? && write.value.opens then WritePlan(write.value, read, 0) else ReadPlan(read, 0, Null)
  }

  /** A position inside a list delivers one user and moves on; at its end nothing is left of it. */
  lemma FromStep(users: seq<User>, pos: nat, rest: Plan)
    requires pos <= |users|
    ensures if pos < |users|
            then Before(From(users, pos), rest) == Before([users[pos]], Before(From(users, pos + 1), rest))
            else Before(From(users, pos), rest) == rest
  {
    if pos < |users| {
      assert users[pos..] + rest.users == [users[pos]] + (users[pos + 1..] + rest.users);
    } else {
      assert users[pos..] + rest.users == rest.users;
    }
  }

  datatype Step = Delivered(user: User) | Ended | Undefined

  class Traversal {
    const write: Option<Mod>
    const read: seq<Mod>
    var wrMod: bool
    var rdMod: nat
    var itrav: Inner

    ghost predicate Valid()
      reads this
    {
      && (wrMod ==> write.Some? && itrav.Live? && itrav.pos <= |write.value.users| && rdMod == 0)
      && rdMod <= |read| && (!wrMod && itrav.Live? && rdMod < |read| ==> itrav.pos <= |read[rdMod].users|)
    }

    ghost function Left(): Plan
      reads this
    {
      if wrMod && write.Some? && itrav.Live? then WritePlan(write.value, read, itrav.pos)
      else ReadPlan(read, rdMod, itrav)
    }

    constructor (write: Option<Mod>, read: seq<Mod>)
      ensures this.write == write && this.read == read && Valid() && Left() == WholePlan(write, read)
    {
      this.write, this.read, rdMod := write, read, 0;
      wrMod := write.Some? && write.value.opens;
      itrav := if write.Some? && write.value.opens then Live(0) else Null;
    }

    /** A user, the end, or the use of a freed traversal. */
    method Walk() returns (r: Step)
      requires Valid()
      modifies this
      ensures Valid()
      ensures match r
              case Delivered(u) => old(Left()) == Before([u], Left())
              case Ended => old(Left()) == Plan([], true)
              case Undefined => old(Left()) == Plan([], false)
    {
      if wrMod {
        var users := write.value.users;
        FromStep(users, itrav.pos, ReadPlan(read, 0, Null));
        if itrav.pos < |users| {
          r := Delivered(users[itrav.pos]);
          itrav := Live(itrav.pos + 1);
          return;
        }
        wrMod, itrav := false, Null;
      }
      r := WalkRead();
    }

    /** The loop over the read modules. */
    method WalkRead() returns (r: Step)
      requires Valid() && !wrMod
      modifies this
      ensures Valid() && !wrMod
      ensures match r
              case Delivered(u) => old(Left()) == Before([u], Left())
              case Ended => old(Left()) == Plan([], true)
              case Undefined => old(Left()) == Plan([], false)
    {
      hide From;
      while rdMod < |read|
        invariant Valid() && !wrMod && ReadPlan(read, rdMod, itrav) == old(Left())
        decreases |read| - rdMod
      {
        var mh := read[rdMod];
        if itrav.Null? && mh.opens { itrav := Live(0); }
        if itrav.Freed? { return Undefined; }
        if itrav.Live? {
          FromStep(mh.users, itrav.pos, ReadPlan(read, rdMod + 1, Freed));
          if itrav.pos < |mh.users| {
            r := Delivered(mh.users[itrav.pos]);
            itrav := Live(itrav.pos + 1);
            return;
          }
          itrav := Freed;
        }
        rdMod := rdMod + 1;
      }
      return Ended;
    }

    /** A whole traversal: the users it delivers, and whether it ends well. */
    method Collect() returns (all: seq<User>, ok: bool)
      requires Valid()
      modifies this
      ensures Plan(all, ok) == old(Left())
    {
      all := [];
      ghost var plan := Left();
      assert [] + plan.users == plan.users;
      while true
        invariant Valid() && plan == Before(all, Left())
        decreases |Left().users|
      {
        ghost var rest := Left();
        var step := Walk();
        match step
        case Delivered(u) =>
          assert all + ([u] + Left().users) == all + [u] + Left().users;
          all := all + [u];
        case Ended =>
          assert all + [] == all;
          return all, true;
        case Undefined =>
          assert all + [] == all;
          return all, false;
      }
    }
  }

  // ---------- What the traversal delivers ----------

  lemma {:induction false} ReadPlanIs(read: seq<Mod>, i: nat)
    requires i <= |read|
    ensures var plan, all := ReadPlan(read, i, Null), ReadUnion(read[i..]);
            (plan.sound <==> Sound(read[i..])) && (plan.sound ==> plan.users == all) && plan.users <= all
    decreases |read| - i
  {
    if i < |read| {
      var tail := read[i..];
      assert tail[1..] == read[i + 1..] && tail[0] == read[i];
      if read[i].opens {
        OpenedPlan(read, i);
        if i + 1 == |read| {
          assert ReadUnion(tail[1..]) == [] && read[i].users + [] == read[i].users;
        } else {
          assert !Sound(tail) by { assert tail[0].opens; }
        }
      } else {
        ReadPlanIs(read, i + 1);
        SoundTail(tail);
        assert [] + ReadUnion(tail[1..]) == ReadUnion(tail[1..]);
      }
    }
  }

  /** The users of the first module that opens, and then the end or a freed traversal. */
  lemma OpenedPlan(read: seq<Mod>, i: nat)
    requires i < |read| && read[i].opens
    ensures ReadPlan(read, i, Null) == Plan(read[i].users, i + 1 == |read|)
  {
    assert ReadPlan(read, i, Null) == ReadPlan(read, i, Live(0));
    assert ReadPlan(read, i + 1, Freed) == Plan([], i + 1 == |read|);
    assert read[i].users[0..] + [] == read[i].users;
  }

  lemma SoundTail(read: seq<Mod>)
    requires read != [] && !read[0].opens
    ensures Sound(read) <==> Sound(read[1..])
  {
    if Sound(read[1..]) {
      forall i | 0 <= i < |read| - 1 ensures !read[i].opens {
        if i > 0 { assert !read[1..][i - 1].opens; }
      }
    }
  }

  lemma PrefixBehind(us: seq<User>, part: seq<User>, whole: seq<User>)
    requires part <= whole
    ensures us + part <= us + whole
  {
  }

  /** The traversal ends well exactly when no read module but the last can be traversed; then it
      delivers every user of the union once and in order, and otherwise only an initial part of them. */
  lemma TraversalIsUnionIff(write: Option<Mod>, read: seq<Mod>)
    ensures WholePlan(write, read).sound <==> Sound(read)
    ensures Sound(read) ==> WholePlan(write, read).users == Union(write, read)
    ensures WholePlan(write, read).users <= Union(write, read)
  {
    hide ReadPlan, ReadUnion, Sound;
    ReadPlanIs(read, 0);
    assert read[0..] == read;
    assert [] + ReadUnion(read) == ReadUnion(read);
    if write.Some? {
      assert From(write.value.users, 0) == write.value.users;
      PrefixBehind(write.value.users, ReadPlan(read, 0, Null).users, ReadUnion(read));
    }
  }

  /** Two read modules with a user each: the second user is never delivered. */
  lemma SecondModuleIsLost(u: User, v: User)
    ensures var read := [Mod([u], true, map[]), Mod([v], true, map[])];
            WholePlan(None, read) == Plan([u], false) && Union(None, read) == [u, v]
  {
    var read := [Mod([u], true, map[]), Mod([v], true, map[])];
    OpenedPlan(read, 0);
    assert read[1..] == [Mod([v], true, map[])] && read[1..][1..] == [];
    assert ReadUnion(read[1..]) == [v];
  }

  // ---------- Lookups ----------

  function AllRead(read: seq<Mod>): seq<User> { if read == [] then [] else read[0].users + AllRead(read[1..]) }

  /** Every user there is, whether or not modules can be traversed. */
  function Everybody(write: Option<Mod>, read: seq<Mod>): seq<User> {
    (if write.Some? then write.value.users else []) + AllRead(read)
  }

  function FindUid(us: seq<User>, uid: u32): Option<User> {
    if us == [] then None else if us[0].uid == uid then Some(us[0]) else FindUid(us[1..], uid)
  }

  lemma {:induction false} FindUidConcat(us: seq<User>, vs: seq<User>, uid: u32)
    ensures FindUid(us + vs, uid) == if FindUid(us, uid).Some? then FindUid(us, uid) else FindUid(vs, uid)
  {
    if us == [] {
      assert us + vs == vs;
    } else {
      assert (us + vs)[1..] == us[1..] + vs;
      FindUidConcat(us[1..], vs, uid);
    }
  }

  /** The first user of that name in the modules' order. */
  method GetPwnam(write: Option<Mod>, read: seq<Mod>, name: string) returns (r: Option<User>)
    ensures r == Find(Everybody(write, read), name)
  {
    hide Find, FindUid;
    NobodyFound(name, 0);
    if write.Some? {
      FindConcat(write.value.users, AllRead(read), name);
      r := Find(write.value.users, name);
      if r.Some? { return; }
    } else {
      assert Everybody(write, read) == AllRead(read);
    }
    var i := 0;
    assert read[0..] == read;
    while i < |read|
      invariant i <= |read| && Find(Everybody(write, read), name) == Find(AllRead(read[i..]), name)
    {
      assert read[i..][1..] == read[i + 1..];
      FindConcat(read[i].users, AllRead(read[i + 1..]), name);
      r := Find(read[i].users, name);
      if r.Some? { return; }
      i := i + 1;
    }
    return None;
  }

  lemma NobodyFound(name: string, uid: u32)
    ensures Find([], name) == None && FindUid([], uid) == None
  {
  }

  /** The first user of that id in the modules' order. */
  method GetPwuid(write: Option<Mod>, read: seq<Mod>, uid: u32) returns (r: Option<User>)
    ensures r == FindUid(Everybody(write, read), uid)
  {
    hide Find, FindUid;
    NobodyFound("", uid);
    if write.Some? {
      FindUidConcat(write.value.users, AllRead(read), uid);
      r := FindUid(write.value.users, uid);
      if r.Some? { return; }
    } else {
      assert Everybody(write, read) == AllRead(read);
    }
    var i := 0;
    assert read[0..] == read;
    while i < |read|
      invariant i <= |read| && FindUid(Everybody(write, read), uid) == FindUid(AllRead(read[i..]), uid)
    {
      assert read[i..][1..] == read[i + 1..];
      FindUidConcat(read[i].users, AllRead(read[i + 1..]), uid);
      r := FindUid(read[i].users, uid);
      if r.Some? { return; }
      i := i + 1;
    }
    return None;
  }

  // ---------- Merged group lists ----------

  function GroupsOf(m: Mod, user: string): seq<string> { if user in m.groups then m.groups[user] else [] }

  function ReadGroups(read: seq<Mod>, user: string): seq<string> {
    if read == [] then [] else GroupsOf(read[0], user) + ReadGroups(read[1..], user)
  }

  /** Appends one module's list to the result, or only its length to the count. */
  method SgmapMerge(outp: Option<seq<string>>, entries: nat, inp: seq<string>)
    returns (out: Option<seq<string>>, count: nat)
    ensures count == entries + |inp| && out == if outp.Some? then Some(outp.value + inp) else None
  {
    count := entries + |inp|;
    if outp.None? { return None, count; }
    var list := outp.value;
    for i := 0 to |inp|
      invariant list == outp.value + inp[..i]
    {
      list := list + [inp[i]];
    }
    assert inp[..|inp|] == inp;
    out := Some(list);
  }

  function AllGroups(write: Option<Mod>, read: seq<Mod>, user: string): seq<string> {
    (if write.Some? then GroupsOf(write.value, user) else []) + ReadGroups(read, user)
  }

  lemma ReadGroupsAt(read: seq<Mod>, i: nat, user: string, done: seq<string>)
    requires i <= |read|
    ensures i == |read| ==> done + ReadGroups(read[i..], user) == done
    ensures i < |read| ==>
            done + ReadGroups(read[i..], user) == done + GroupsOf(read[i], user) + ReadGroups(read[i + 1..], user)
  {
    if i < |read| {
      assert read[i..][1..] == read[i + 1..];
      var more, rest := GroupsOf(read[i], user), ReadGroups(read[i + 1..], user);
      assert done + (more + rest) == done + more + rest;
    } else {
      assert ReadGroups([], user) == [] && done + [] == done;
    }
  }

  /** Every module's groups of the user, in the modules' order; the count is the same with and without a
      list to fill. */
  method SgmapGet(write: Option<Mod>, read: seq<Mod>, user: string, wanted: bool)
    returns (result: Option<seq<string>>, count: nat)
    ensures count == |AllGroups(write, read, user)|
            && result == if wanted then Some(AllGroups(write, read, user)) else None
  {
    ghost var done: seq<string> := [];
    result, count := if wanted then Some([]) else None, 0;
    if write.Some? {
      result, count := SgmapMerge(result, count, GroupsOf(write.value, user));
      done := done + GroupsOf(write.value, user);
    }
    assert read[0..] == read && AllGroups(write, read, user) == done + ReadGroups(read, user);
    hide AllGroups, ReadGroups, GroupsOf;
    for i := 0 to |read|
      invariant done + ReadGroups(read[i..], user) == AllGroups(write, read, user)
      invariant count == |done| && result == if wanted then Some(done) else None
    {
      ReadGroupsAt(read, i, user, done);
      result, count := SgmapMerge(result, count, GroupsOf(read[i], user));
      done := done + GroupsOf(read[i], user);
    }
    ReadGroupsAt(read, |read|, user, done);
  }

  /** Module by module: the users of those that open, all users, and all groups of a user. */
  lemma {:induction false} ModuleByModule(a: seq<Mod>, b: seq<Mod>, user: string)
    ensures ReadUnion(a + b) == ReadUnion(a) + ReadUnion(b)
    ensures AllRead(a + b) == AllRead(a) + AllRead(b)
    ensures ReadGroups(a + b, user) == ReadGroups(a, user) + ReadGroups(b, user)
    decreases |a|
  {
    hide GroupsOf;
    if a == [] {
      assert a + b == b;
    } else {
      var m, rest := a[0], a[1..];
      ModuleByModule(rest, b, user);
      assert (a + b)[1..] == rest + b && (a + b)[0] == m;
      Regrouped(if m.opens then m.users else [], ReadUnion(rest), ReadUnion(b));
      Regrouped(m.users, AllRead(rest), AllRead(b));
      Regrouped(GroupsOf(m, user), ReadGroups(rest, user), ReadGroups(b, user));
    }
  }

  lemma Regrouped<T>(a: seq<T>, b: seq<T>, c: seq<T>)
    ensures a + (b + c) == a + b + c
  {
  }

  lemma OneModule(m: Mod, user: string)
    ensures ReadUnion([m]) == (if m.opens then m.users else []) && AllRead([m]) == m.users
    ensures ReadGroups([m], user) == if user in m.groups then m.groups[user] else []
  {
    assert [m][1..] == [] && ReadUnion([]) == [] && AllRead([]) == [] && ReadGroups([], user) == [];
    assert m.users + [] == m.users && GroupsOf(m, user) + [] == GroupsOf(m, user);
  }

  /** The write module comes first. */
  lemma WriteModuleFirst(w: Mod, read: seq<Mod>, user: string)
    ensures Everybody(Some(w), read) == AllRead([w] + read) && Everybody(None, read) == AllRead(read)
    ensures Union(Some(w), read) == ReadUnion([w] + read) && Union(None, read) == ReadUnion(read)
    ensures AllGroups(Some(w), read, user) == ReadGroups([w] + read, user)
            && AllGroups(None, read, user) == ReadGroups(read, user)
  {
    assert ([w] + read)[1..] == read;
    assert [] + AllRead(read) == AllRead(read) && [] + ReadUnion(read) == ReadUnion(read);
    assert [] + ReadGroups(read, user) == ReadGroups(read, user);
  }

  /** The first user of an id, and none exactly if nobody has it. */
  lemma {:induction false} FirstOfUid(us: seq<User>, u: User, vs: seq<User>)
    ensures !IdTaken(us, u.uid) ==> FindUid(us + [u] + vs, u.uid) == Some(u)
    ensures FindUid(us, u.uid) == None <==> !IdTaken(us, u.uid)
  {
    var all := us + [u] + vs;
    if us == [] {
      assert all[0] == u;
    } else {
      assert us == [us[0]] + us[1..] && all[0] == us[0] && all[1..] == us[1..] + [u] + vs;
      FirstOfUid(us[1..], u, vs);
      assert us[0] in us;
    }
  }

  // ---------- A free id ----------

  /** The program's highest id so far. The comparison is made before the conversion to a signed int. */
  function High(us: seq<User>, n: nat, lo: int, hi: int): (h: int)
    requires n <= |us|
    ensures -0x8000_0000 <= h < 0x8000_0000
  {
    if n == 0 then -1
    else
      var h, uid := High(us, n - 1, lo, hi), us[n - 1].uid;
      if lo <= uid <= hi && uid > h then Wrap(uid) else h
  }

  /** The successor of the highest id, or else the first free one. */
  function Choose(us: seq<User>, lo: int, hi: u32): Option<u32>
    requires 0 <= lo
  {
    var h := High(us, |us|, lo, hi);
    if 0 <= h < hi then Some(h + 1)
    else if lo > hi then None
    else FirstFreeId(UidSet(us), lo, hi)
  }

  datatype IdResult = Id(id: u32) | NoSpace | Broken

  function AsResult(r: Option<u32>): IdResult { if r.Some? then Id(r.value) else NoSpace }

  /** Scans the whole traversal for the highest id, and then the traversal for every id in turn. */
  method AutoUid(write: Option<Mod>, read: seq<Mod>, range: IdRange, wanted: IdRequest) returns (r: IdResult)
    requires range.Valid()
    ensures r == if wanted.Exactly? then Id(wanted.id)
                 else if !Sound(read) then Broken
                 else AsResult(Choose(Union(write, read), range.Low(wanted), range.High(wanted)))
  {
    hide WholePlan, Union, UidSet;
    if wanted.Exactly? { return Id(wanted.id); }
    var min, max := range.Low(wanted), range.High(wanted);
    TraversalIsUnionIff(write, read);
    var trav := new Traversal(write, read);
    var us, ok := trav.Collect();
    if !ok { return Broken; }
    var high := HighestId(us, min, max);
    if high >= 0 && high < max { return Id(high + 1); }
    r := ScanIds(write, read, min, max, us);
  }

  /** The scan of the range, with a traversal for every id. */
  method ScanIds(write: Option<Mod>, read: seq<Mod>, min: u32, max: u32, ghost us: seq<User>) returns (r: IdResult)
    requires max < 0xFFFF_FFFF && WholePlan(write, read) == Plan(us, true)
    ensures r == if min > max then NoSpace else AsResult(FirstFreeId(UidSet(us), min, max))
  {
    hide WholePlan, UidSet;
    var accept: int := min;
    while accept <= max
      invariant min <= accept && (min <= max + 1 ==> accept <= max + 1)
      invariant min <= max + 1 ==> FirstFreeId(UidSet(us), accept, max) == FirstFreeId(UidSet(us), min, max)
    {
      var trav := new Traversal(write, read);
      var again, fine := trav.Collect();
      var used := UsesId(again, accept);
      if !used { return Id(accept); }
      accept := accept + 1;
    }
    return NoSpace;
  }

  method HighestId(us: seq<User>, min: u32, max: u32) returns (high: int)
    ensures high == High(us, |us|, min, max)
  {
    high := -1;
    for i := 0 to |us|
      invariant high == High(us, i, min, max)
    {
      var uid := us[i].uid;
      if uid >= min && uid <= max && uid > high { high := Wrap(uid); }
    }
  }

  method UsesId(us: seq<User>, id: u32) returns (used: bool)
    ensures used <==> id in UidSet(us)
  {
    for i := 0 to |us|
      invariant forall j :: 0 <= j < i ==> us[j].uid != id
    {
      if us[i].uid == id {
        assert us[i] in us;
        return true;
      }
    }
    return false;
  }

  ghost predicate AlwaysRight(lo: u32, hi: u32) {
    forall us: seq<User> :: RightChoice(us, lo, hi, Choose(us, lo, hi))
  }

  /** In a range of signed ints the highest id is the highest. */
  lemma {:induction false} HighIsHighest(us: seq<User>, n: nat, lo: u32, hi: u32)
    requires n <= |us| && hi < 0x8000_0000
    ensures High(us, n, lo, hi) == -1 || lo <= High(us, n, lo, hi) <= hi
    ensures forall i :: 0 <= i < n && lo <= us[i].uid <= hi ==> us[i].uid <= High(us, n, lo, hi)
  {
    if n > 0 {
      HighIsHighest(us, n - 1, lo, hi);
    }
  }

  /** In a range beyond them it stays negative, and the choice is left to the scan. */
  lemma {:induction false} HighIsNegative(us: seq<User>, n: nat, lo: u32, hi: u32)
    requires n <= |us| && lo >= 0x8000_0000
    ensures High(us, n, lo, hi) < 0
  {
    if n > 0 {
      HighIsNegative(us, n - 1, lo, hi);
    }
  }

  lemma ChooseIsRight(us: seq<User>, lo: u32, hi: u32)
    requires hi < 0x8000_0000 || lo >= 0x8000_0000
    ensures RightChoice(us, lo, hi, Choose(us, lo, hi))
  {
    if lo >= 0x8000_0000 {
      HighIsNegative(us, |us|, lo, hi);
    } else {
      HighIsHighest(us, |us|, lo, hi);
    }
  }

  /** A right choice, by the ids there are: in the range and unused, and none only if all are used. */
  lemma RightChoiceMeans(us: seq<User>, lo: u32, hi: u32, r: Option<u32>)
    ensures RightChoice(us, lo, hi, r)
            <==> if r.Some? then lo <= r.value <= hi && !IdTaken(us, r.value)
                 else forall id: u32 :: lo <= id <= hi ==> IdTaken(us, id)
  {
    forall id: u32 ensures IdTaken(us, id) <==> id in UidSet(us) { TakenIsUsed(us, id); }
  }

  /** Among signed ids the successor of the highest one in the range is chosen while there is one. */
  lemma ChoosesSuccessor(us: seq<User>, top: User, lo: u32, hi: u32)
    requires hi < 0x8000_0000 && top in us && lo <= top.uid < hi
    requires forall u :: u in us && lo <= u.uid <= hi ==> u.uid <= top.uid
    ensures Choose(us, lo, hi) == Some(top.uid + 1)
  {
    HighIsHighest(us, |us|, lo, hi);
    HighIsUsed(us, |us|, lo, hi);
    var i :| 0 <= i < |us| && us[i] == top;
  }

  lemma {:induction false} HighIsUsed(us: seq<User>, n: nat, lo: u32, hi: u32)
    requires n <= |us| && hi < 0x8000_0000
    ensures High(us, n, lo, hi) == -1 || exists u :: u in us && u.uid == High(us, n, lo, hi)
  {
    if n > 0 {
      HighIsUsed(us, n - 1, lo, hi);
      assert us[n - 1] in us;
    }
  }

  /** An id taken twice, with 2^31 between: the highest id falls back to the low one, whose successor
      is used. */
  function Misleading(u: User, lo: u32): (us: seq<User>)
    requires lo < 0x8000_0000
  {
    [u.(uid := lo), u.(uid := lo + 1), u.(uid := 0x8000_0000), u.(uid := lo)]
  }

  lemma MisledChoice(u: User, lo: u32, hi: u32)
    requires lo < 0x8000_0000 <= hi
    ensures !RightChoice(Misleading(u, lo), lo, hi, Choose(Misleading(u, lo), lo, hi))
  {
    var us := Misleading(u, lo);
    assert High(us, 1, lo, hi) == lo;
    assert High(us, 2, lo, hi) == Wrap(lo + 1);
    assert High(us, 3, lo, hi) == -0x8000_0000;
    assert High(us, 4, lo, hi) == lo;
    assert us[1] in us && us[1].uid == lo + 1;
  }

  /** The choice is right for every database exactly when the range does not reach across 2^31. */
  lemma AlwaysRightIff(u: User, lo: u32, hi: u32)
    ensures AlwaysRight(lo, hi) <==> hi < 0x8000_0000 || lo >= 0x8000_0000
  {
    if hi < 0x8000_0000 || lo >= 0x8000_0000 {
      forall us: seq<User> ensures RightChoice(us, lo, hi, Choose(us, lo, hi)) { ChooseIsRight(us, lo, hi); }
    } else {
      MisledChoice(u, lo, hi);
    }
  }
}
