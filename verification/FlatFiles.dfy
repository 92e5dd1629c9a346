/** The passwd, shadow and group files (src/drivers/shadow/fspasswd.c, fsshadow.c, fsgroup.c): parsers,
    printers, and what comes back when a list is written and read again. Text that is absent is empty. */
module FlatFiles {
  import opened Prelude
  import opened Vxdb
  import opened TextFields
  import Decimal

  // ---------- passwd ----------

  predicate IsSkipped(line: string) { line != [] && (line[0] == '#' || line[0] == '+' || line[0] == '-') }

  function FieldAt(f: seq<string>, i: nat): string { if i < |f| then f[i] else [] }

  /** The account of a user without a shadow entry. */
  function FreshAccount(real_: string, home: string, shell: string, tail: string): Account {
    Account(real_, home, shell, None, 0, 0, 10000, 21, NO_EXPIRE, NO_INACTIVE, tail, "")
  }

  function UserOf(f: seq<string>): User {
    User(FieldAt(f, 0), StrtoulAsUint(FieldAt(f, 2)), StrtoulAsUint(FieldAt(f, 3)), None,
         FreshAccount(FieldAt(f, 4), FieldAt(f, 5), FieldAt(f, 6), FieldAt(f, 7)), None, None, 0)
  }

  /** The user on a line; None for comments, NIS entries and lines with fewer than four fields. */
  function ParsePasswd(line: string): Option<User> {
    var f := Split(Chomp(line), 8);
    if IsSkipped(line) || |f| < 4 then None else Some(UserOf(f))
  }

  function Users(lines: seq<string>): seq<User> {
    if lines == [] then []
    else match ParsePasswd(lines[0]) case None => Users(lines[1..]) case Some(u) => [u] + Users(lines[1..])
  }

  method ReadPasswd(text: string) returns (us: seq<User>)
    ensures us == Users(Lines(text))
  {
    hide UserOf, Chomp, Split, Lines, Behind, IndexOf;
    us := [];
    var left := text;
    NoLines();
    assert us + Users(Lines(left)) == Users(Lines(text));
    while left != []
      invariant us + Users(Lines(left)) == Users(Lines(text))
      decreases |left|
    {
      FirstLine(left);
      var ln := left[..IndexOf(left, '\n')];
      left := Behind(left);
      if IsSkipped(ln) { continue; }
      var data := Split(Chomp(ln), 8);
      if |data| < 4 { continue; }
      assert us + ([UserOf(data)] + Users(Lines(left))) == us + [UserOf(data)] + Users(Lines(left));
      us := us + [UserOf(data)];
    }
  }

  /** The printed line; the tail follows the shell without a colon. */
  function PasswdLine(u: User): string {
    Join([u.name, "x", Decimal.Print(u.uid), Decimal.Print(u.gid), u.account.real_, u.account.home],
         u.account.shell + u.account.passwdTail)
  }

  predicate IsLong(n: int) { -LONG_MAX - 1 <= n <= LONG_MAX }

  /** A user that can be written: a name, and fields without separators. */
  predicate Writable(u: User) {
    var a := u.account;
    && u.name != [] && Plain(u.name) && !IsSkipped(u.name)
    && Plain(a.real_) && Plain(a.home) && Plain(a.shell) && PlainTail(a.passwdTail) && PlainTail(a.shadowTail)
    && (a.passwd.Some? ==> Plain(a.passwd.value))
    && IsLong(a.lastchg) && IsLong(a.min) && IsLong(a.max) && IsLong(a.warn) && IsLong(a.expire) && IsLong(a.inact)
  }

  predicate Without(s: string, separators: set<char>) { forall c :: c in s ==> c !in separators }

  /** What can be written, by characters: names and fields without colons and line ends, tails without line
      ends, and ages of 64 bits. */
  lemma WritableIff(u: User)
    ensures var a, all, ends := u.account, {':', '\n', '\r'}, {'\n', '\r'};
            Writable(u)
            <==> && |u.name| > 0 && u.name[0] !in {'#', '+', '-'} && Without(u.name, all)
                 && Without(a.real_, all) && Without(a.home, all) && Without(a.shell, all)
                 && (a.passwd.Some? ==> Without(a.passwd.value, all))
                 && Without(a.passwdTail, ends) && Without(a.shadowTail, ends)
                 && forall n :: n in [a.lastchg, a.min, a.max, a.warn, a.expire, a.inact] ==>
                      -0x8000_0000_0000_0000 <= n < 0x8000_0000_0000_0000
  {
    hide Without, Plain, PlainTail;
    var a := u.account;
    PlainIff(u.name);
    PlainIff(a.real_);
    PlainIff(a.home);
    PlainIff(a.shell);
    PlainIff(a.passwdTail);
    PlainIff(a.shadowTail);
    if a.passwd.Some? { PlainIff(a.passwd.value); }
    var ages := [a.lastchg, a.min, a.max, a.warn, a.expire, a.inact];
    assert ages[0] in ages && ages[1] in ages && ages[2] in ages && ages[3] in ages && ages[4] in ages
           && ages[5] in ages;
  }

  lemma PlainIff(s: string)
    ensures Plain(s) <==> Without(s, {':', '\n', '\r'})
    ensures PlainTail(s) <==> Without(s, {'\n', '\r'})
  {
  }

  lemma NumeralIsPlain(n: int)
    ensures Plain(PrintSigned(n)) && (n >= 0 ==> PrintSigned(n) == Decimal.Print(n))
  {
  }

  lemma FirstOfJoin(fields: seq<string>, last: string)
    requires fields != [] && fields[0] != [] && !IsSkipped(fields[0])
    ensures Join(fields, last) != [] && !IsSkipped(Join(fields, last))
  {
    assert Join(fields, last)[0] == fields[0][0];
  }

  /** What is left of shell and tail when the line is read again. */
  function ReadShell(a: Account): string { FieldAt(Split(a.shell + a.passwdTail, 2), 0) }
  function ReadTail(a: Account): string { FieldAt(Split(a.shell + a.passwdTail, 2), 1) }

  lemma PasswdFields(u: User)
    requires Writable(u)
    ensures var a, f := u.account, Split(Chomp(PasswdLine(u)), 8);
            && !IsSkipped(PasswdLine(u)) && '\n' !in PasswdLine(u) && |f| >= 4
            && UserOf(f)
               == User(u.name, u.uid, u.gid, None, FreshAccount(a.real_, a.home, ReadShell(a), ReadTail(a)),
                       None, None, 0)
  {
    hide Decimal.Print, Split, Join, Chomp, StrtoulAsUint;
    var a := u.account;
    var fields, last :=
      [u.name, "x", Decimal.Print(u.uid), Decimal.Print(u.gid), a.real_, a.home], a.shell + a.passwdTail;
    NumeralIsPlain(u.uid);
    NumeralIsPlain(u.gid);
    assert AllPlain(fields);
    SplitJoin(fields, last, 8);
    JoinIsPlain(fields, last);
    ChompPlain(PasswdLine(u));
    FirstOfJoin(fields, last);
    UintOfPrint(u.uid);
    UintOfPrint(u.gid);
    SplitInTwo(last);
  }

  lemma SplitInTwo(s: string)
    ensures 1 <= |Split(s, 2)| <= 2
  {
  }

  /** The file's text: every line, and a newline behind it. */
  function PasswdText(us: seq<User>): string {
    if us == [] then [] else PasswdLine(us[0]) + "\n" + PasswdText(us[1..])
  }

  function ShadowText(us: seq<User>): string {
    if us == [] then [] else ShadowLine(us[0]) + "\n" + ShadowText(us[1..])
  }

  /** The loop that writes both files. */
  method WriteUsers(us: seq<User>) returns (passwd: string, shadow: string)
    ensures passwd == PasswdText(us) && shadow == ShadowText(us)
  {
    hide PasswdLine, ShadowLine;
    passwd, shadow := [], [];
    assert us[0..] == us;
    for i := 0 to |us|
      invariant passwd + PasswdText(us[i..]) == PasswdText(us) && shadow + ShadowText(us[i..]) == ShadowText(us)
    {
      assert us[i..][1..] == us[i + 1..];
      var p, s := PasswdLine(us[i]) + "\n", ShadowLine(us[i]) + "\n";
      assert passwd + (p + PasswdText(us[i + 1..])) == passwd + p + PasswdText(us[i + 1..]);
      assert shadow + (s + ShadowText(us[i + 1..])) == shadow + s + ShadowText(us[i + 1..]);
      passwd, shadow := passwd + p, shadow + s;
    }
    assert us[|us|..] == [] && passwd + [] == passwd && shadow + [] == shadow;
  }

  /** A user as reading its passwd line gives it. */
  function Reread(u: User): User {
    var a := u.account;
    User(u.name, u.uid, u.gid, None, FreshAccount(a.real_, a.home, ReadShell(a), ReadTail(a)), None, None, 0)
  }

  function RereadAll(us: seq<User>): (r: seq<User>)
    ensures |r| == |us| && forall i :: 0 <= i < |us| ==> r[i] == Reread(us[i])
  {
    if us == [] then [] else [Reread(us[0])] + RereadAll(us[1..])
  }

  lemma {:induction false} PasswdRoundTrip(us: seq<User>)
    requires forall u :: u in us ==> Writable(u)
    ensures Users(Lines(PasswdText(us))) == RereadAll(us)
  {
    hide PasswdLine, Split, Chomp, ReadShell, ReadTail, UserOf, FreshAccount, Writable;
    if us != [] {
      PasswdFields(us[0]);
      LineBehind(PasswdLine(us[0]), PasswdText(us[1..]));
      PasswdRoundTrip(us[1..]);
      var line, rest := PasswdLine(us[0]), Lines(PasswdText(us[1..]));
      assert ([line] + rest)[1..] == rest && ([line] + rest)[0] == line;
      RereadIs(us[0]);
    }
  }

  lemma RereadIs(u: User)
    ensures var a := u.account;
            Reread(u)
            == User(u.name, u.uid, u.gid, None, FreshAccount(a.real_, a.home, ReadShell(a), ReadTail(a)), None, None, 0)
  {
  }

  // ---------- shadow ----------

  function Optional(field: string, current: int): int { if field == [] then current else Strtol(field) }

  function WithShadow(u: User, f: seq<string>): User {
    u.(account := u.account.(
         passwd := Some(FieldAt(f, 1)), lastchg := Strtol(FieldAt(f, 2)), min := Strtol(FieldAt(f, 3)),
         max := Strtol(FieldAt(f, 4)), warn := Strtol(FieldAt(f, 5)),
         expire := Optional(FieldAt(f, 6), u.account.expire), inact := Optional(FieldAt(f, 7), u.account.inact),
         shadowTail := FieldAt(f, 8)))
  }

  /** The list after one line; None where a user's line lacks one of the fields that are always read. */
  function ApplyShadow(us: seq<User>, line: string): Option<seq<User>> {
    var f := Split(Chomp(line), 9);
    var i := FirstIndex(us, f[0]);
    if IsSkipped(line) || f[0] == [] || i == |us| then Some(us)
    else if |f| < 6 then None
    else Some(us[i := WithShadow(us[i], f)])
  }

  function ApplyAll(us: seq<User>, lines: seq<string>): Option<seq<User>>
    decreases |lines|
  {
    if lines == [] then Some(us)
    else match ApplyShadow(us, lines[0]) case None => None case Some(vs) => ApplyAll(vs, lines[1..])
  }

  /** Fills in the listed users' fields; false stands for the use of a missing field. */
  method ReadShadow(text: string, us0: seq<User>) returns (us: seq<User>, ok: bool)
    ensures if us0 == [] then ok && us == [] else ApplyAll(us0, Lines(text)) == if ok then Some(us) else None
  {
    hide Chomp, Split, WithShadow, FirstIndex, Lines, Behind, IndexOf;
    us := us0;
    if us == [] { return us, true; }
    var left := text;
    NoLines();
    while left != []
      invariant ApplyAll(us, Lines(left)) == ApplyAll(us0, Lines(text))
      decreases |left|
    {
      FirstLine(left);
      var ln := left[..IndexOf(left, '\n')];
      left := Behind(left);
      if IsSkipped(ln) { continue; }
      var data := Split(Chomp(ln), 9);
      if data[0] == [] { continue; }
      var k := LookupUser(us, data[0]);
      if k == |us| { continue; }
      if |data| < 6 { return us, false; }
      us := us[k := WithShadow(us[k], data)];
    }
    return us, true;
  }

  function Password(a: Account): string { if a.passwd.Some? then a.passwd.value else "!" }

  function Unless(n: int, none: int): string { if n == none then [] else PrintSigned(n) }

  function ShadowLine(u: User): string {
    var a := u.account;
    Join([u.name, Password(a), PrintSigned(a.lastchg), PrintSigned(a.min), PrintSigned(a.max), PrintSigned(a.warn),
          Unless(a.expire, NO_EXPIRE), Unless(a.inact, NO_INACTIVE)], a.shadowTail)
  }

  /** A user as reading both of its lines gives it. */
  function Restored(u: User): User {
    var a := u.account;
    User(u.name, u.uid, u.gid, None, a.(shell := ReadShell(a), passwdTail := ReadTail(a), passwd := Some(Password(a))),
         None, None, 0)
  }

  function RestoredAll(us: seq<User>): (r: seq<User>)
    ensures |r| == |us| && forall i :: 0 <= i < |us| ==> r[i] == Restored(us[i])
  {
    if us == [] then [] else [Restored(us[0])] + RestoredAll(us[1..])
  }

  lemma OptionalOfUnless(n: int, none: int)
    requires IsLong(n)
    ensures Optional(Unless(n, none), none) == n && Plain(Unless(n, none))
  {
    NumeralIsPlain(n);
    StrtolOfPrint(n);
  }

  lemma ShadowFields(u: User)
    requires Writable(u)
    ensures var f := Split(Chomp(ShadowLine(u)), 9);
            && !IsSkipped(ShadowLine(u)) && '\n' !in ShadowLine(u) && |f| == 9 && f[0] == u.name
            && WithShadow(Reread(u), f) == Restored(u)
  {
    hide PrintSigned, Split, Join, Chomp, Strtol, Optional, Unless, ReadShell, ReadTail;
    var a := u.account;
    var fields :=
      [u.name, Password(a), PrintSigned(a.lastchg), PrintSigned(a.min), PrintSigned(a.max), PrintSigned(a.warn),
                   Unless(a.expire, NO_EXPIRE), Unless(a.inact, NO_INACTIVE)];
    ShadowNumbers(a);
    assert Plain("!");
    assert AllPlain(fields);
    SplitJoin(fields, a.shadowTail, 9);
    SplitLast(a.shadowTail, 1);
    JoinIsPlain(fields, a.shadowTail);
    ChompPlain(ShadowLine(u));
    FirstOfJoin(fields, a.shadowTail);
  }

  lemma ShadowNumbers(a: Account)
    requires IsLong(a.lastchg) && IsLong(a.min) && IsLong(a.max) && IsLong(a.warn) && IsLong(a.expire)
             && IsLong(a.inact)
    ensures Plain(PrintSigned(a.lastchg)) && Plain(PrintSigned(a.min)) && Plain(PrintSigned(a.max))
            && Plain(PrintSigned(a.warn))
    ensures Plain(Unless(a.expire, NO_EXPIRE)) && Plain(Unless(a.inact, NO_INACTIVE))
    ensures Strtol(PrintSigned(a.lastchg)) == a.lastchg && Strtol(PrintSigned(a.min)) == a.min
    ensures Strtol(PrintSigned(a.max)) == a.max && Strtol(PrintSigned(a.warn)) == a.warn
    ensures Optional(Unless(a.expire, NO_EXPIRE), NO_EXPIRE) == a.expire
            && Optional(Unless(a.inact, NO_INACTIVE), NO_INACTIVE) == a.inact
  {
    hide PrintSigned, Strtol, Optional, Unless, Plain;
    NumeralIsPlain(a.lastchg);
    NumeralIsPlain(a.min);
    NumeralIsPlain(a.max);
    NumeralIsPlain(a.warn);
    StrtolOfPrint(a.lastchg);
    StrtolOfPrint(a.min);
    StrtolOfPrint(a.max);
    StrtolOfPrint(a.warn);
    OptionalOfUnless(a.expire, NO_EXPIRE);
    OptionalOfUnless(a.inact, NO_INACTIVE);
  }

  /** No user of `us` is called `name`. */
  predicate Absent(us: seq<User>, name: string) { forall u :: u in us ==> u.name != name }

  lemma {:induction false} FirstBehind(us: seq<User>, u: User, rest: seq<User>)
    requires Absent(us, u.name)
    ensures FirstIndex(us + [u] + rest, u.name) == |us|
  {
    var all := us + [u] + rest;
    if us == [] {
      assert all[0] == u;
    } else {
      assert us[0] in us && all[0] == us[0] && all[1..] == us[1..] + [u] + rest;
      FirstBehind(us[1..], u, rest);
    }
  }

  lemma ReplaceMiddle(us: seq<User>, u: User, v: User, rest: seq<User>)
    ensures (us + [u] + rest)[|us| := v] == us + [v] + rest
  {
  }

  /** One user's line restores that user and leaves the others alone. */
  lemma ShadowStep(done: seq<User>, u: User, rest: seq<User>)
    requires Writable(u) && Absent(done, u.name)
    ensures ApplyShadow(done + [Reread(u)] + rest, ShadowLine(u)) == Some(done + [Restored(u)] + rest)
  {
    hide ShadowLine, Split, Chomp, WithShadow, FirstIndex, ReadShell, ReadTail;
    var us := done + [Reread(u)] + rest;
    ShadowFields(u);
    assert Reread(u).name == u.name;
    FirstBehind(done, Reread(u), rest);
    assert us[|done|] == Reread(u);
    ReplaceMiddle(done, Reread(u), Restored(u), rest);
  }

  predicate Distinct(us: seq<User>) { us == [] || (Absent(us[1..], us[0].name) && Distinct(us[1..])) }

  lemma {:induction false} UniqueIsDistinct(us: seq<User>)
    requires UniqueNames(us)
    ensures Distinct(us)
  {
    if us != [] {
      forall u | u in us[1..] ensures u.name != us[0].name {
        var j :| 0 <= j < |us[1..]| && us[1..][j] == u;
        assert us[0].name != us[j + 1].name;
      }
      UniqueIsDistinct(us[1..]);
    }
  }

  lemma ShadowLines(us: seq<User>)
    requires forall u :: u in us ==> Writable(u)
    ensures Lines(ShadowText(us)) == if us == [] then [] else [ShadowLine(us[0])] + Lines(ShadowText(us[1..]))
  {
    hide ShadowLine, Writable, Split;
    if us != [] {
      ShadowFields(us[0]);
      LineBehind(ShadowLine(us[0]), ShadowText(us[1..]));
    }
  }

  lemma {:induction false} ShadowRoundTrip(done: seq<User>, us: seq<User>)
    requires (forall u :: u in us ==> Writable(u)) && Distinct(us) && forall u :: u in us ==> Absent(done, u.name)
    ensures ApplyAll(done + RereadAll(us), Lines(ShadowText(us))) == Some(done + RestoredAll(us))
    decreases |us|
  {
    hide ShadowLine, ApplyShadow, Writable, Reread, Restored, ShadowText, Lines, RereadAll, RestoredAll;
    assert RereadAll([]) == [] && RestoredAll([]) == [] by { NobodyReread(); }
    ShadowLines(us);
    if us == [] {
      assert done + [] == done;
    } else {
      var u, rest := us[0], us[1..];
      ShadowStep(done, u, RereadAll(rest));
      MoveOver(done, us);
      var next := done + [Restored(u)];
      NextAbsent(done, u, rest);
      ShadowRoundTrip(next, rest);
      var line, lines := ShadowLine(u), Lines(ShadowText(rest));
      assert ([line] + lines)[1..] == lines && ([line] + lines)[0] == line;
    }
  }

  lemma NobodyReread()
    ensures RereadAll([]) == [] && RestoredAll([]) == []
  {
  }

  lemma MoveOver(done: seq<User>, us: seq<User>)
    requires us != []
    ensures done + RereadAll(us) == done + [Reread(us[0])] + RereadAll(us[1..])
    ensures done + RestoredAll(us) == done + [Restored(us[0])] + RestoredAll(us[1..])
  {
    hide Reread, Restored;
  }

  lemma NextAbsent(done: seq<User>, u: User, rest: seq<User>)
    requires Absent(rest, u.name) && (forall v :: v in rest ==> Absent(done, v.name))
    ensures forall v :: v in rest ==> Absent(done + [Restored(u)], v.name)
  {
  }

  // ---------- Main results on users ----------

  /** Reading both files. */
  function Load(passwd: string, shadow: string): Option<seq<User>> { ApplyAll(Users(Lines(passwd)), Lines(shadow)) }

  /** Writing the list and reading it back restores every user, as far as the files hold it. */
  lemma UsersRoundTrip(us: seq<User>)
    requires (forall u :: u in us ==> Writable(u)) && UniqueNames(us)
    ensures Load(PasswdText(us), ShadowText(us)) == Some(RestoredAll(us))
  {
    hide Lines, Users, ApplyAll, Writable, PasswdText, ShadowText, UniqueNames, RereadAll, RestoredAll;
    PasswdRoundTrip(us);
    UniqueIsDistinct(us);
    ShadowRoundTrip([], us);
    assert [] + RereadAll(us) == RereadAll(us);
    assert [] + RestoredAll(us) == RestoredAll(us);
  }

  /** The part of a user that both files hold. */
  function Held(u: User): User { User(u.name, u.uid, u.gid, None, u.account, None, None, 0) }

  lemma ShellAndTail(a: Account)
    requires Plain(a.shell)
    ensures ReadShell(a) == a.shell && ReadTail(a) == a.passwdTail <==> a.passwdTail == []
    ensures ReadShell(a) + ReadTail(a) == a.shell + a.passwdTail <==> ':' !in a.passwdTail
  {
    var s := a.shell + a.passwdTail;
    var i := IndexOf(s, ':');
    if ':' !in a.passwdTail {
      assert ':' !in s;
      IndexNone(s, ':');
      assert s + [] == s;
    } else {
      var j :| 0 <= j < |a.passwdTail| && a.passwdTail[j] == ':';
      assert s[|a.shell| + j] == ':' && i < |s|;
      SplitLast(s[i + 1..], 1);
      assert |ReadShell(a) + ReadTail(a)| == |s| - 1;
    }
  }

  /** Every field of a user comes back exactly when it has a password and nothing behind its shell: the
      program writes that tail without the colon in front of it. */
  lemma RestoredIff(u: User)
    requires Writable(u)
    ensures Restored(u) == Held(u) <==> u.account.passwdTail == [] && u.account.passwd.Some?
  {
    hide ReadShell, ReadTail;
    ShellAndTail(u.account);
  }

  /** A tail without a colon comes back as the end of the shell. */
  lemma TailJoinsShell(a: Account)
    requires Plain(a.shell) && ':' !in a.passwdTail
    ensures ReadShell(a) == a.shell + a.passwdTail && ReadTail(a) == []
  {
    var s := a.shell + a.passwdTail;
    IndexNone(s, ':');
  }

  /** A user that loses its shell and its tail. */
  lemma TailIsLost()
    ensures var u := User("anna", 1000, 100, None,
                          Account("Anna", "/home/anna", "/bin/sh", Some("!"), 0, 0, 0, 0, NO_EXPIRE, NO_INACTIVE,
                                  "x", ""),
                          None, None, 0);
            Writable(u) && Restored(u).account.shell == "/bin/shx" && Restored(u).account.passwdTail == ""
  {
    hide ReadShell, ReadTail, Password;
    var a := Account("Anna", "/home/anna", "/bin/sh", Some("!"), 0, 0, 0, 0, NO_EXPIRE, NO_INACTIVE, "x", "");
    TailJoinsShell(a);
    assert "/bin/sh" + "x" == "/bin/shx";
  }

  /** Writing a restored user again gives the same lines exactly when the tail has no colon. */
  lemma SecondWriteIff(u: User)
    requires Writable(u)
    ensures PasswdLine(Restored(u)) == PasswdLine(u) <==> ':' !in u.account.passwdTail
    ensures ShadowLine(Restored(u)) == ShadowLine(u)
  {
    hide ReadShell, ReadTail, PrintSigned, Unless, Join, Decimal.Print;
    var a := u.account;
    ShellAndTail(a);
    var fields := [u.name, "x", Decimal.Print(u.uid), Decimal.Print(u.gid), a.real_, a.home];
    JoinCancels(fields, ReadShell(a) + ReadTail(a), a.shell + a.passwdTail);
  }

  lemma {:induction false} JoinCancels(fields: seq<string>, x: string, y: string)
    ensures Join(fields, x) == Join(fields, y) <==> x == y
  {
    if fields != [] {
      JoinCancels(fields[1..], x, y);
      var head := fields[0] + ":";
      assert (head + Join(fields[1..], x))[|head|..] == Join(fields[1..], x);
      assert (head + Join(fields[1..], y))[|head|..] == Join(fields[1..], y);
    }
  }

  /** Without tails the files are stable: reading and writing once more changes nothing in them. */
  lemma {:induction false} WriteIsStable(us: seq<User>)
    requires forall u :: u in us ==> Writable(u) && ':' !in u.account.passwdTail
    ensures PasswdText(RestoredAll(us)) == PasswdText(us) && ShadowText(RestoredAll(us)) == ShadowText(us)
  {
    hide PasswdLine, ShadowLine, Restored, Writable;
    if us != [] {
      SecondWriteIff(us[0]);
      WriteIsStable(us[1..]);
    }
  }

  // ---------- Lines, written out ----------

  function Colon(field: string, rest: string): string { field + ":" + rest }

  lemma JoinFirst(field: string, rest: seq<string>, last: string)
    ensures Join([field] + rest, last) == Colon(field, Join(rest, last)) && Join([], last) == last
  {
    assert ([field] + rest)[1..] == rest;
  }

  lemma JoinFour(a: string, b: string, c: string, d: string, rest: seq<string>, last: string)
    ensures Join([a, b, c, d] + rest, last) == Colon(a, Colon(b, Colon(c, Colon(d, Join(rest, last)))))
  {
    hide Join, Colon;
    assert [a, b, c, d] + rest == [a] + ([b] + ([c] + ([d] + rest)));
    JoinFirst(a, [b] + ([c] + ([d] + rest)), last);
    JoinFirst(b, [c] + ([d] + rest), last);
    JoinFirst(c, [d] + rest, last);
    JoinFirst(d, rest, last);
  }

  /** The text of a user's lines: "x" for the password in passwd, "!" in shadow for one that has none, and
      nothing for an expiry or inactivity that is off. */
  lemma LinesOfUser(u: User)
    ensures var a := u.account;
            && PasswdLine(u)
               == Colon(u.name, Colon("x", Colon(Decimal.Print(u.uid), Colon(Decimal.Print(u.gid),
                  Colon(a.real_, Colon(a.home, a.shell + a.passwdTail))))))
            && ShadowLine(u)
               == Colon(u.name, Colon(if a.passwd.Some? then a.passwd.value else "!",
                  Colon(PrintSigned(a.lastchg), Colon(PrintSigned(a.min),
                  Colon(PrintSigned(a.max), Colon(PrintSigned(a.warn),
                  Colon(if a.expire == -1 then "" else PrintSigned(a.expire),
                  Colon(if a.inact == -1 then "" else PrintSigned(a.inact), a.shadowTail))))))))
  {
    hide Join, Colon, Decimal.Print, PrintSigned;
    var a := u.account;
    var uid, gid, last := Decimal.Print(u.uid), Decimal.Print(u.gid), a.shell + a.passwdTail;
    assert [u.name, "x", uid, gid, a.real_, a.home] == [u.name, "x", uid, gid] + ([a.real_] + ([a.home] + []));
    JoinFour(u.name, "x", uid, gid, [a.real_] + ([a.home] + []), last);
    JoinFirst(a.real_, [a.home] + [], last);
    JoinFirst(a.home, [], last);
    var f := [u.name, Password(a), PrintSigned(a.lastchg), PrintSigned(a.min), PrintSigned(a.max),
              PrintSigned(a.warn), Unless(a.expire, NO_EXPIRE), Unless(a.inact, NO_INACTIVE)];
    assert f == [f[0], f[1], f[2], f[3]] + ([f[4], f[5], f[6], f[7]] + []);
    JoinFour(f[0], f[1], f[2], f[3], [f[4], f[5], f[6], f[7]] + [], a.shadowTail);
    JoinFour(f[4], f[5], f[6], f[7], [], a.shadowTail);
    assert Join([], a.shadowTail) == a.shadowTail by { JoinFirst("", [], a.shadowTail); }
    assert ShadowLine(u) == Join(f, a.shadowTail);
  }

  /** Fields with colons between them are found again. */
  lemma FieldsOfLine(fields: seq<string>, last: string, max: nat)
    requires AllPlain(fields) && Plain(last) && |fields| < max
    ensures Split(Chomp(Join(fields, last)), max) == fields + [last]
  {
    JoinIsPlain(fields, last);
    ChompPlain(Join(fields, last));
    SplitJoin(fields, last, max);
    SplitLast(last, max - |fields|);
  }

  /** A user that is read from passwd alone: no password, and the default ages of a password. */
  lemma ReadFromPasswd(name: string, x: string, uid: u32, gid: u32, real_: string, home: string, shell: string)
    requires name != [] && name[0] !in {'#', '+', '-'} && Plain(name) && Plain(x)
    requires Plain(real_) && Plain(home) && Plain(shell)
    ensures ParsePasswd(Join([name, x, Decimal.Print(uid), Decimal.Print(gid), real_, home], shell))
            == Some(User(name, uid, gid, None,
                         Account(real_, home, shell, None, 0, 0, 10000, 21, -1, -1, "", ""), None, None, 0))
  {
    hide Decimal.Print, Split, Join, Chomp, StrtoulAsUint;
    var fields := [name, x, Decimal.Print(uid), Decimal.Print(gid), real_, home];
    NumeralIsPlain(uid);
    NumeralIsPlain(gid);
    assert AllPlain(fields);
    FieldsOfLine(fields, shell, 8);
    FirstOfJoin(fields, shell);
    UintOfPrint(uid);
    UintOfPrint(gid);
  }

  /** How many fields a line needs: four in passwd, three in group, and six in shadow, where a user's line
      with fewer is an error. */
  lemma FieldsNeeded(fields: seq<string>, last: string, us: seq<User>)
    requires AllPlain(fields) && Plain(last) && fields != [] && fields[0] != [] && fields[0][0] !in {'#', '+', '-'}
    ensures |fields| < 8 ==> (ParsePasswd(Join(fields, last)) == None <==> |fields| + 1 < 4)
    ensures |fields| < 4 ==> (ParseGroup(Join(fields, last)) == None <==> |fields| + 1 < 3)
    ensures |fields| < 9 && FirstIndex(us, fields[0]) < |us| ==>
              (ApplyShadow(us, Join(fields, last)) == None <==> |fields| + 1 < 6)
    ensures |fields| < 9 && FirstIndex(us, fields[0]) == |us| ==> ApplyShadow(us, Join(fields, last)) == Some(us)
  {
    hide Split, Join, Chomp, UserOf, WithShadow, FirstIndex, StrtolAsUint, Plain;
    FirstOfJoin(fields, last);
    if |fields| < 8 { FieldsOfLine(fields, last, 8); }
    if |fields| < 4 { FieldsOfLine(fields, last, 4); }
    if |fields| < 9 { FieldsOfLine(fields, last, 9); }
  }

  /** Comments and NIS entries are passed over in all three files, and in shadow a line without a name. */
  lemma LinesPassedOver(c: char, rest: string, us: seq<User>)
    requires c in {'#', '+', '-'}
    ensures ParsePasswd([c] + rest) == None && ParseGroup([c] + rest) == None
    ensures ApplyShadow(us, [c] + rest) == Some(us)
  {
    hide Split, Chomp, UserOf, WithShadow, FirstIndex, StrtolAsUint;
  }

  // ---------- group ----------

  datatype GroupEntry = GroupEntry(name: string, gid: u32, tail: string)

  function ParseGroup(line: string): Option<GroupEntry> {
    var f := Split(Chomp(line), 4);
    if IsSkipped(line) || |f| < 3 then None
    else Some(GroupEntry(FieldAt(f, 0), StrtolAsUint(FieldAt(f, 2)), FieldAt(f, 3)))
  }

  function Groups(lines: seq<string>): seq<GroupEntry> {
    if lines == [] then []
    else match ParseGroup(lines[0]) case None => Groups(lines[1..]) case Some(g) => [g] + Groups(lines[1..])
  }

  method ReadGroups(text: string) returns (gs: seq<GroupEntry>)
    ensures gs == Groups(Lines(text))
  {
    hide Chomp, Split, StrtolAsUint, Lines, Behind, IndexOf;
    gs := [];
    var left := text;
    NoLines();
    assert gs + Groups(Lines(left)) == Groups(Lines(text));
    while left != []
      invariant gs + Groups(Lines(left)) == Groups(Lines(text))
      decreases |left|
    {
      FirstLine(left);
      var ln := left[..IndexOf(left, '\n')];
      left := Behind(left);
      if IsSkipped(ln) { continue; }
      var data := Split(Chomp(ln), 4);
      if |data| < 3 { continue; }
      var g := GroupEntry(FieldAt(data, 0), StrtolAsUint(FieldAt(data, 2)), FieldAt(data, 3));
      assert gs + ([g] + Groups(Lines(left))) == gs + [g] + Groups(Lines(left));
      gs := gs + [g];
    }
  }

  function GroupLine(g: GroupEntry): string { Join([g.name, "x", Decimal.Print(g.gid)], g.tail) }

  function GroupText(gs: seq<GroupEntry>): string {
    if gs == [] then [] else GroupLine(gs[0]) + "\n" + GroupText(gs[1..])
  }

  /** A group's line: an "x" for the password, and the list of members last. */
  lemma LineOfGroup(g: GroupEntry)
    ensures GroupLine(g) == Colon(g.name, Colon("x", Colon(Decimal.Print(g.gid), g.tail)))
  {
    hide Join, Colon, Decimal.Print;
    var gid := Decimal.Print(g.gid);
    assert [g.name, "x", gid] == [g.name] + (["x"] + ([gid] + []));
    JoinFirst(g.name, ["x"] + ([gid] + []), g.tail);
    JoinFirst("x", [gid] + [], g.tail);
    JoinFirst(gid, [], g.tail);
  }

  method FlushGroups(gs: seq<GroupEntry>) returns (text: string)
    ensures text == GroupText(gs)
  {
    hide GroupLine;
    text := [];
    assert gs[0..] == gs;
    for i := 0 to |gs|
      invariant text + GroupText(gs[i..]) == GroupText(gs)
    {
      assert gs[i..][1..] == gs[i + 1..];
      var line := GroupLine(gs[i]) + "\n";
      assert text + (line + GroupText(gs[i + 1..])) == text + line + GroupText(gs[i + 1..]);
      text := text + line;
    }
    assert gs[|gs|..] == [] && text + [] == text;
  }

  /** A group that can be written; its tail, the member list, may hold colons. */
  predicate WritableGroup(g: GroupEntry) { g.name != [] && Plain(g.name) && !IsSkipped(g.name) && PlainTail(g.tail) }

  lemma GroupFields(g: GroupEntry)
    requires WritableGroup(g)
    ensures ParseGroup(GroupLine(g)) == Some(g) && '\n' !in GroupLine(g)
  {
    hide Decimal.Print, Split, Join, Chomp, StrtolAsUint;
    var fields := [g.name, "x", Decimal.Print(g.gid)];
    NumeralIsPlain(g.gid);
    assert AllPlain(fields);
    SplitJoin(fields, g.tail, 4);
    SplitLast(g.tail, 1);
    JoinIsPlain(fields, g.tail);
    ChompPlain(GroupLine(g));
    FirstOfJoin(fields, g.tail);
    UintOfPrint(g.gid);
  }

  /** Writing the groups and reading them back restores all of them. */
  lemma {:induction false} GroupsRoundTrip(gs: seq<GroupEntry>)
    requires forall g :: g in gs ==> WritableGroup(g)
    ensures Groups(Lines(GroupText(gs))) == gs
  {
    hide GroupLine, ParseGroup, WritableGroup;
    if gs != [] {
      GroupFields(gs[0]);
      LineBehind(GroupLine(gs[0]), GroupText(gs[1..]));
      GroupsRoundTrip(gs[1..]);
      var line, rest := GroupLine(gs[0]), Lines(GroupText(gs[1..]));
      assert ([line] + rest)[1..] == rest && ([line] + rest)[0] == line;
    }
  }
}
