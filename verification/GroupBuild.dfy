/** Rebuilding the groups that follow users' tags (src/clutils/groupbld.c). The name of a tag's group is
    given as a function; all such names begin with the prefix. */
module GroupBuild {
  import opened Prelude
  import opened Vxdb

  /** The group named for a tag, and what is selected: all users, or those of one group id. */
  datatype Plan = Plan(prefix: string, nameOf: string -> string, gid: u32) {
    ghost predicate Valid() { forall tag :: prefix <= nameOf(tag) }

    predicate Prefixed(g: string) { prefix <= g }

    predicate Selected(u: User) {
      u.pvgrp.Some? && u.pvgrp.value != [] && (gid == NOGID || u.gid == gid)
    }

    /** The group a selected user belongs in. */
    function GroupFor(u: User): string { if u.pvgrp.Some? then nameOf(u.pvgrp.value) else [] }
  }

  // ---------- Membership lists ----------

  type Lists = map<string, seq<string>>

  function ListOf(lists: Lists, user: string): seq<string> { if user in lists then lists[user] else [] }

  function Filtered(list: seq<string>, gone: set<string>): seq<string> {
    if list == [] then []
    else if list[0] in gone then Filtered(list[1..], gone)
    else [list[0]] + Filtered(list[1..], gone)
  }

  /** The prefixed groups among the first n, other than the one wanted. */
  function Stale(plan: Plan, list: seq<string>, n: nat, wanted: string): set<string>
    requires n <= |list|
  {
    set i | 0 <= i < n && plan.Prefixed(list[i]) && list[i] != wanted :: list[i]
  }

  /** A user's list after the move: stale groups gone, the wanted one there. */
  function Moved(plan: Plan, list: seq<string>, wanted: string): seq<string> {
    Filtered(list, Stale(plan, list, |list|, wanted)) + if wanted in list then [] else [wanted]
  }

  /** The memberships that no tag governs, in order. */
  function Unprefixed(plan: Plan, list: seq<string>): seq<string> {
    if list == [] then []
    else if plan.Prefixed(list[0]) then Unprefixed(plan, list[1..])
    else [list[0]] + Unprefixed(plan, list[1..])
  }

  lemma {:induction false} InFiltered(list: seq<string>, gone: set<string>, g: string)
    ensures g in Filtered(list, gone) <==> g in list && g !in gone
  {
    if list != [] {
      InFiltered(list[1..], gone, g);
      assert list == [list[0]] + list[1..];
    }
  }

  lemma {:induction false} FilteredTwice(list: seq<string>, a: set<string>, b: set<string>)
    ensures Filtered(Filtered(list, a), b) == Filtered(list, a + b)
  {
    if list != [] {
      FilteredTwice(list[1..], a, b);
      var rest := Filtered(list[1..], a);
      if list[0] !in a { assert ([list[0]] + rest)[1..] == rest; }
    }
  }

  lemma {:induction false} FilteredNothing(list: seq<string>, gone: set<string>)
    requires forall g :: g in list ==> g !in gone
    ensures Filtered(list, gone) == list
  {
    if list != [] {
      assert list[0] in list;
      FilteredNothing(list[1..], gone);
    }
  }

  lemma {:induction false} UnprefixedConcat(plan: Plan, a: seq<string>, b: seq<string>)
    ensures Unprefixed(plan, a + b) == Unprefixed(plan, a) + Unprefixed(plan, b)
  {
    if a == [] {
      assert a + b == b;
    } else {
      assert (a + b)[1..] == a[1..] + b;
      UnprefixedConcat(plan, a[1..], b);
    }
  }

  /** Removing prefixed groups leaves the others as they are. */
  lemma {:induction false} UnprefixedFiltered(plan: Plan, list: seq<string>, gone: set<string>)
    requires forall g :: g in gone ==> plan.Prefixed(g)
    ensures Unprefixed(plan, Filtered(list, gone)) == Unprefixed(plan, list)
  {
    if list != [] {
      UnprefixedFiltered(plan, list[1..], gone);
      var rest := Filtered(list[1..], gone);
      if list[0] !in gone { assert ([list[0]] + rest)[1..] == rest; }
    }
  }

  /** After the move the user is in the wanted group and in no other prefixed one, and otherwise where it
      was, in the same order. */
  lemma MovedExactly(plan: Plan, list: seq<string>, wanted: string, g: string)
    requires plan.Prefixed(wanted)
    ensures g in Moved(plan, list, wanted) <==> g == wanted || (g in list && !plan.Prefixed(g))
    ensures Unprefixed(plan, Moved(plan, list, wanted)) == Unprefixed(plan, list)
  {
    var gone := Stale(plan, list, |list|, wanted);
    InFiltered(list, gone, g);
    UnprefixedFiltered(plan, list, gone);
    var more := if wanted in list then [] else [wanted];
    UnprefixedConcat(plan, Filtered(list, gone), more);
    assert Unprefixed(plan, more) == [] by { if more != [] { assert more[1..] == []; } }
    if g in list && plan.Prefixed(g) && g != wanted { assert g in gone; }
  }

  /** Moving again changes nothing. */
  lemma MovedTwice(plan: Plan, list: seq<string>, wanted: string)
    requires plan.Prefixed(wanted)
    ensures Moved(plan, Moved(plan, list, wanted), wanted) == Moved(plan, list, wanted)
  {
    hide Filtered, Unprefixed;
    var moved := Moved(plan, list, wanted);
    MovedExactly(plan, list, wanted, wanted);
    forall g | g in moved ensures g !in Stale(plan, moved, |moved|, wanted) { MovedExactly(plan, list, wanted, g); }
    FilteredNothing(moved, Stale(plan, moved, |moved|, wanted));
  }

  predicate NoRepeats(list: seq<string>) { list == [] || (list[0] !in list[1..] && NoRepeats(list[1..])) }

  lemma {:induction false} FilteredNoRepeats(list: seq<string>, gone: set<string>)
    requires NoRepeats(list)
    ensures NoRepeats(Filtered(list, gone))
  {
    if list != [] {
      FilteredNoRepeats(list[1..], gone);
      InFiltered(list[1..], gone, list[0]);
      var rest := Filtered(list[1..], gone);
      if list[0] !in gone { assert ([list[0]] + rest)[1..] == rest; }
    }
  }

  lemma {:induction false} AppendNoRepeats(list: seq<string>, g: string)
    requires NoRepeats(list) && g !in list
    ensures NoRepeats(list + [g])
  {
    if list == [] {
      assert list + [g] == [g] && [g][1..] == [];
    } else {
      AppendNoRepeats(list[1..], g);
      assert (list + [g])[1..] == list[1..] + [g];
    }
  }

  lemma MovedNoRepeats(plan: Plan, list: seq<string>, wanted: string)
    requires NoRepeats(list)
    ensures NoRepeats(Moved(plan, list, wanted))
  {
    var rest := Filtered(list, Stale(plan, list, |list|, wanted));
    FilteredNoRepeats(list, Stale(plan, list, |list|, wanted));
    InFiltered(list, Stale(plan, list, |list|, wanted), wanted);
    if wanted in list { assert rest + [] == rest; } else { AppendNoRepeats(rest, wanted); }
  }

  lemma {:induction false} NotBefore(list: seq<string>, i: nat)
    requires NoRepeats(list) && i < |list|
    ensures list[i] !in list[..i]
  {
    if i > 0 {
      NotBefore(list[1..], i - 1);
      assert list[1..][i - 1] == list[i] && list[..i] == [list[0]] + list[1..][..i - 1];
    }
  }

  /** In a list without repetitions the next stale group has not been removed yet. */
  lemma StillThere(plan: Plan, list: seq<string>, i: nat, wanted: string)
    requires NoRepeats(list) && i < |list|
    ensures list[i] in Filtered(list, Stale(plan, list, i, wanted))
  {
    NotBefore(list, i);
    InFiltered(list, Stale(plan, list, i, wanted), list[i]);
  }

  // ---------- The database ----------

  /** Groups and memberships. Every operation takes the next entry of the script; false makes it fail
      without an effect, and once the script is used up operations succeed. */
  class GroupDb {
    var groups: set<string>
    var lists: Lists
    var script: seq<bool>

    method Permitted() returns (ok: bool)
      modifies this`script
      ensures old(script) == [] ==> ok && script == []
    {
      if script == [] { return true; }
      ok, script := script[0], script[1..];
    }

    /** Whether the group exists; None stands for an error. */
    method Getgrnam(name: string) returns (r: Option<bool>)
      modifies this`script
      ensures r.Some? ==> r.value == (name in groups)
      ensures old(script) == [] ==> r.Some? && script == []
    {
      var ok := Permitted();
      r := if ok then Some(name in groups) else None;
    }

    method GroupAdd(name: string) returns (ok: bool)
      modifies this`script, this`groups
      ensures groups == if ok then old(groups) + {name} else old(groups)
      ensures old(script) == [] ==> ok && script == []
    {
      ok := Permitted();
      if ok { groups := groups + {name}; }
    }

    method SgmapGet(user: string) returns (r: Option<seq<string>>)
      modifies this`script
      ensures r.Some? ==> r.value == ListOf(lists, user)
      ensures old(script) == [] ==> r.Some? && script == []
    {
      var ok := Permitted();
      r := if ok then Some(ListOf(lists, user)) else None;
    }

    /** Ends a membership; there must be one. */
    method SgmapDel(user: string, group: string) returns (ok: bool)
      modifies this`script, this`lists
      ensures ok ==> group in ListOf(old(lists), user)
      ensures lists == if ok then old(lists)[user := Filtered(ListOf(old(lists), user), {group})] else old(lists)
      ensures old(script) == [] && group in ListOf(old(lists), user) ==> ok
      ensures old(script) == [] ==> script == []
    {
      ok := Permitted();
      if !ok || group !in ListOf(lists, user) { return false; }
      lists := lists[user := Filtered(ListOf(lists, user), {group})];
    }

    method SgmapAdd(user: string, group: string) returns (ok: bool)
      modifies this`script, this`lists
      ensures lists == if ok then old(lists)[user := ListOf(old(lists), user) + [group]] else old(lists)
      ensures old(script) == [] ==> ok && script == []
    {
      ok := Permitted();
      if ok { lists := lists[user := ListOf(lists, user) + [group]]; }
    }
  }

  // ---------- The program ----------

  /** Makes sure the group exists. */
  method Create(db: GroupDb, name: string) returns (ok: bool)
    modifies db`script, db`groups
    ensures db.groups == if ok then old(db.groups) + {name} else old(db.groups)
    ensures old(db.script) == [] ==> ok && db.script == []
  {
    var found := db.Getgrnam(name);
    if found.None? { return false; }
    if found.value { return true; }
    ok := db.GroupAdd(name);
  }

  lemma StaleStep(plan: Plan, list: seq<string>, n: nat, wanted: string)
    requires n < |list|
    ensures Stale(plan, list, n + 1, wanted)
            == if plan.Prefixed(list[n]) && list[n] != wanted then Stale(plan, list, n, wanted) + {list[n]}
               else Stale(plan, list, n, wanted)
  {
  }

  /** Takes the user out of all prefixed groups but the wanted one, and puts it into that one. Where an
      operation fails, no membership outside the prefixed groups has changed. */
  method Move(db: GroupDb, plan: Plan, user: string, wanted: string) returns (ok: bool)
    requires plan.Prefixed(wanted)
    modifies db`script, db`lists
    ensures ok ==> ListOf(db.lists, user) == Moved(plan, ListOf(old(db.lists), user), wanted)
    ensures forall x :: x != user ==> ListOf(db.lists, x) == ListOf(old(db.lists), x)
    ensures Unprefixed(plan, ListOf(db.lists, user)) == Unprefixed(plan, ListOf(old(db.lists), user))
    ensures old(db.script) == [] && NoRepeats(ListOf(old(db.lists), user)) ==> ok && db.script == []
  {
    hide Unprefixed, Filtered, NoRepeats;
    ghost var smooth := db.script == [] && NoRepeats(ListOf(db.lists, user));
    ghost var lists0, list := db.lists, ListOf(db.lists, user);
    var sgrp := db.SgmapGet(user);
    if sgrp.None? { return false; }
    var added, i, p := false, 0, sgrp.value;
    assert Stale(plan, p, 0, wanted) == {};
    FilteredNothing(p, {});
    while i < |p|
      invariant i <= |p| && (added <==> wanted in p[..i])
      invariant ListOf(db.lists, user) == Filtered(p, Stale(plan, p, i, wanted))
      invariant forall x :: x != user ==> ListOf(db.lists, x) == ListOf(lists0, x)
      invariant smooth ==> db.script == [] && NoRepeats(p)
    {
      StaleStep(plan, p, i, wanted);
      if smooth { StillThere(plan, p, i, wanted); }
      FilteredTwice(p, Stale(plan, p, i, wanted), {p[i]});
      UnprefixedFiltered(plan, p, Stale(plan, p, i, wanted));
      if p[i] == wanted {
        added := true;
      } else if plan.Prefixed(p[i]) {
        ok := db.SgmapDel(user, p[i]);
        if !ok { return false; }
      }
      i := i + 1;
    }
    assert p[..|p|] == p;
    MovedExactly(plan, p, wanted, wanted);
    UnprefixedFiltered(plan, p, Stale(plan, p, |p|, wanted));
    ok := true;
    if !added { ok := db.SgmapAdd(user, wanted); }
    assert added ==> Filtered(p, Stale(plan, p, |p|, wanted)) + [] == Filtered(p, Stale(plan, p, |p|, wanted));
  }

  // ---------- All users ----------

  function After(plan: Plan, lists: Lists, us: seq<User>, n: nat): Lists
    requires n <= |us|
  {
    if n == 0 then lists
    else
      var before := After(plan, lists, us, n - 1);
      var u := us[n - 1];
      if plan.Selected(u) then before[u.name := Moved(plan, ListOf(before, u.name), plan.GroupFor(u))] else before
  }

  /** The same list for every user; an empty one may be left out. */
  ghost predicate Same(a: Lists, b: Lists) { forall x :: ListOf(a, x) == ListOf(b, x) }

  /** The groups and memberships that a complete run makes of those before it. */
  datatype State = State(groups: set<string>, lists: Lists)

  function Built(plan: Plan, before: State, us: seq<User>): State {
    State(before.groups + Created(plan, us, |us|), After(plan, before.lists, us, |us|))
  }

  ghost predicate SameState(a: State, b: State) { a.groups == b.groups && Same(a.lists, b.lists) }

  function Created(plan: Plan, us: seq<User>, n: nat): set<string>
    requires n <= |us|
  {
    set i | 0 <= i < n && plan.Selected(us[i]) :: plan.GroupFor(us[i])
  }

  /** Every operation will succeed, and no list names a group twice. */
  ghost predicate Smooth(script: seq<bool>, lists: Lists) { script == [] && forall x :: NoRepeats(ListOf(lists, x)) }

  /** The loop body for a selected user. */
  method Rebuild(db: GroupDb, plan: Plan, u: User) returns (ok: bool)
    requires plan.Valid() && plan.Selected(u)
    modifies db
    ensures ok ==> ListOf(db.lists, u.name) == Moved(plan, ListOf(old(db.lists), u.name), plan.GroupFor(u))
    ensures ok ==> db.groups == old(db.groups) + {plan.GroupFor(u)}
    ensures !ok ==> db.groups == old(db.groups) || db.groups == old(db.groups) + {plan.GroupFor(u)}
    ensures forall x :: x != u.name ==> ListOf(db.lists, x) == ListOf(old(db.lists), x)
    ensures Unprefixed(plan, ListOf(db.lists, u.name)) == Unprefixed(plan, ListOf(old(db.lists), u.name))
    ensures Smooth(old(db.script), old(db.lists)) ==> ok && Smooth(db.script, db.lists)
  {
    hide Moved, Unprefixed, NoRepeats;
    var vgname := plan.GroupFor(u);
    ok := Create(db, vgname);
    if !ok { return; }
    if NoRepeats(ListOf(db.lists, u.name)) { MovedNoRepeats(plan, ListOf(db.lists, u.name), vgname); }
    ok := Move(db, plan, u.name, vgname);
  }

  lemma CreatedStep(plan: Plan, us: seq<User>, n: nat)
    requires n < |us|
    ensures Created(plan, us, n + 1)
            == if plan.Selected(us[n]) then Created(plan, us, n) + {plan.GroupFor(us[n])} else Created(plan, us, n)
  {
  }

  lemma NoneCreated(plan: Plan, us: seq<User>)
    ensures Created(plan, us, 0) == {}
  {
  }

  /** On failure n users are done, the next one may be half-way, its group made or not, and no other list
      and no unprefixed membership has changed. */
  ghost predicate Stopped(plan: Plan, before: State, us: seq<User>, n: nat, now: State) {
    && n < |us| && plan.Selected(us[n])
    && (now.groups == before.groups + Created(plan, us, n) || now.groups == before.groups + Created(plan, us, n + 1))
    && forall x :: StoppedList(plan, ListOf(After(plan, before.lists, us, n), x), ListOf(now.lists, x), x == us[n].name)
  }

  predicate StoppedList(plan: Plan, list: seq<string>, now: seq<string>, halfWay: bool) {
    Unprefixed(plan, now) == Unprefixed(plan, list) && (!halfWay ==> now == list)
  }

  /** The traversal over all users. Without failing operations and repeated groups it succeeds. */
  method Loop(db: GroupDb, plan: Plan, us: seq<User>) returns (success: bool, ghost n: nat)
    requires plan.Valid()
    modifies db
    ensures var before, now := State(old(db.groups), old(db.lists)), State(db.groups, db.lists);
            if success then n == |us| && SameState(now, Built(plan, before, us)) else Stopped(plan, before, us, n, now)
    ensures Smooth(old(db.script), old(db.lists)) ==> success
  {
    hide Moved, Unprefixed, NoRepeats, Smooth, Created;
    NoneCreated(plan, us);
    var i := 0;
    while i < |us|
      invariant i <= |us| && Same(db.lists, After(plan, old(db.lists), us, i))
      invariant db.groups == old(db.groups) + Created(plan, us, i)
      invariant Smooth(old(db.script), old(db.lists)) ==> Smooth(db.script, db.lists)
    {
      CreatedStep(plan, us, i);
      if plan.Selected(us[i]) {
        var ok := Rebuild(db, plan, us[i]);
        if !ok { return false, i; }
      }
      i := i + 1;
    }
    return true, |us|;
  }

  // ---------- Main results ----------

  lemma {:induction false} OthersKept(plan: Plan, lists: Lists, us: seq<User>, n: nat, x: string)
    requires n <= |us| && forall i :: 0 <= i < n && plan.Selected(us[i]) ==> us[i].name != x
    ensures ListOf(After(plan, lists, us, n), x) == ListOf(lists, x)
  {
    if n > 0 {
      OthersKept(plan, lists, us, n - 1, x);
    }
  }

  /** What a complete run makes of user i's list. */
  lemma {:induction false} ListAfter(plan: Plan, lists: Lists, us: seq<User>, n: nat, i: nat)
    requires i < n <= |us| && UniqueNames(us)
    ensures ListOf(After(plan, lists, us, n), us[i].name)
            == if plan.Selected(us[i]) then Moved(plan, ListOf(lists, us[i].name), plan.GroupFor(us[i]))
               else ListOf(lists, us[i].name)
  {
    hide Moved;
    if i == n - 1 {
      forall j | 0 <= j < n - 1 ensures us[j].name != us[i].name {}
      OthersKept(plan, lists, us, n - 1, us[i].name);
    } else {
      assert us[i].name != us[n - 1].name;
      ListAfter(plan, lists, us, n - 1, i);
    }
  }

  /** After a successful run a selected user is in the group of its tag, which exists, and in no other
      prefixed one; all other memberships, and those of users not selected, are as before. */
  lemma RebuiltMemberships(plan: Plan, before: State, us: seq<User>, i: nat, g: string)
    requires plan.Valid() && i < |us| && UniqueNames(us)
    ensures var x, now := us[i].name, Built(plan, before, us);
            var list, list' := ListOf(before.lists, x), ListOf(now.lists, x);
            if plan.Selected(us[i])
            then (g in list' <==> g == plan.GroupFor(us[i]) || (g in list && !plan.Prefixed(g)))
                 && Unprefixed(plan, list') == Unprefixed(plan, list)
                 && (g in list' && plan.Prefixed(g) ==> g in now.groups)
            else list' == list
  {
    ListAfter(plan, before.lists, us, |us|, i);
    if plan.Selected(us[i]) {
      MovedExactly(plan, ListOf(before.lists, us[i].name), plan.GroupFor(us[i]), g);
      assert plan.GroupFor(us[i]) in Created(plan, us, |us|);
    }
  }

  /** The same of a user's own fields: one with a group tag, and with the group id asked for if there is one,
      is in the existing group named for the tag and in no other group whose name begins with the prefix. */
  lemma TaggedMemberships(plan: Plan, before: State, us: seq<User>, i: nat, g: string)
    requires plan.Valid() && i < |us| && UniqueNames(us)
    ensures var u, now := us[i], Built(plan, before, us);
            var list, list' := ListOf(before.lists, u.name), ListOf(now.lists, u.name);
            if u.pvgrp.Some? && u.pvgrp.value != "" && (plan.gid == 0xFFFF_FFFF || u.gid == plan.gid)
            then var own := plan.nameOf(u.pvgrp.value);
                 && (g in list' <==> g == own || (g in list && !(plan.prefix <= g)))
                 && own in now.groups
            else list' == list
  {
    hide Moved, After;
    RebuiltMemberships(plan, before, us, i, g);
    if plan.Selected(us[i]) {
      assert plan.GroupFor(us[i]) in Created(plan, us, |us|);
    }
  }

  /** Other memberships, one by one: those that begin with the prefix are passed over. */
  lemma UnprefixedOne(plan: Plan, g: string)
    ensures Unprefixed(plan, [g]) == if plan.prefix <= g then [] else [g]
  {
    assert [g][1..] == [];
  }

  /** A group is new after a successful run exactly when it did not exist and some selected user is now in
      it. */
  lemma NewGroupsAreUsed(plan: Plan, before: State, us: seq<User>, g: string)
    requires plan.Valid() && UniqueNames(us)
    ensures var now := Built(plan, before, us);
            before.groups <= now.groups
            && (g in now.groups - before.groups <==>
                g !in before.groups && plan.Prefixed(g)
                && (exists i :: 0 <= i < |us| && plan.Selected(us[i]) && g in ListOf(now.lists, us[i].name)))
  {
    var now := Built(plan, before, us);
    forall i | 0 <= i < |us| && plan.Selected(us[i]) && plan.Prefixed(g)
      ensures g in ListOf(now.lists, us[i].name) <==> g == plan.GroupFor(us[i])
    {
      RebuiltMemberships(plan, before, us, i, g);
    }
  }

  /** Users that do not exist keep their lists as well. */
  lemma StrangersKept(plan: Plan, lists: Lists, us: seq<User>, x: string)
    requires forall u :: u in us ==> u.name != x
    ensures ListOf(After(plan, lists, us, |us|), x) == ListOf(lists, x)
  {
    OthersKept(plan, lists, us, |us|, x);
  }

  /** A second run makes no change, to memberships or groups. */
  lemma SecondRunIdle(plan: Plan, before: State, us: seq<User>)
    requires plan.Valid() && UniqueNames(us)
    ensures var once := Built(plan, before, us); SameState(Built(plan, once, us), once)
  {
    hide Moved;
    var lists, once := before.lists, After(plan, before.lists, us, |us|);
    forall x
      ensures ListOf(After(plan, once, us, |us|), x) == ListOf(once, x)
    {
      if i :| 0 <= i < |us| && us[i].name == x {
        ListAfter(plan, lists, us, |us|, i);
        ListAfter(plan, once, us, |us|, i);
        if plan.Selected(us[i]) { MovedTwice(plan, ListOf(lists, x), plan.GroupFor(us[i])); }
      } else {
        OthersKept(plan, once, us, |us|, x);
      }
    }
  }
}
