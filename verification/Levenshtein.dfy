/** Edit distance as computed by vxckuuid (src/clutils/ckuuid.c).

    Three views of one number are tied together: the flattened matrix that `Levd` fills, the cheapest
    left-to-right edit script, and the shortest chain of strings in which neighbours differ by a
    single insertion, deletion or substitution. */
module Levenshtein {

  function Init<T>(s: seq<T>): seq<T>
    requires s != []
  {
    s[..|s| - 1]
  }

  function Last<T>(s: seq<T>): T
    requires s != []
  {
    s[|s| - 1]
  }

  // ---------- Edit scripts: the reference definition ----------

  datatype Edit = Keep(c: char) | Substitute(from: char, into: char) | Insert(c: char) | Delete(c: char)

  function Cost(script: seq<Edit>): nat {
    if script == [] then 0
    else Cost(Init(script)) + if Last(script).Keep? then 0 else 1
  }

  /** `script` consumes all of `s` and produces all of `t`. */
  predicate Turns(script: seq<Edit>, s: string, t: string) {
    if script == [] then s == [] && t == []
    else
      match Last(script)
      case Keep(c) => s != [] && t != [] && Last(s) == c == Last(t) && Turns(Init(script), Init(s), Init(t))
      case Substitute(a, b) =>
        s != [] && t != [] && Last(s) == a && Last(t) == b && Turns(Init(script), Init(s), Init(t))
      case Insert(b) => t != [] && Last(t) == b && Turns(Init(script), s, Init(t))
      case Delete(a) => s != [] && Last(s) == a && Turns(Init(script), Init(s), t)
  }

  // ---------- The recurrence ----------

  function Min3(a: nat, b: nat, c: nat): (m: nat)
    ensures m <= a && m <= b && m <= c && m in {a, b, c}
  {
    var b' := if a < b then a else b;
    if b' < c then b' else c
  }

  function Mismatch(a: char, b: char): nat { if a == b then 0 else 1 }

  function Distance(s: string, t: string): nat
    decreases |s| + |t|
  {
    if s == [] then |t|
    else if t == [] then |s|
    else Min3(Distance(Init(s), t) + 1,
              Distance(s, Init(t)) + 1,
              Distance(Init(s), Init(t)) + Mismatch(Last(s), Last(t)))
  }

  // ---------- The matrix ----------

  /** The program's LOC macro: column x of row y in a matrix with `width + 1` columns. */
  function Loc(width: nat, x: nat, y: nat): nat { y * (width + 1) + x }

  lemma {:induction false} RowsApart(width: nat, y: nat, y': nat)
    requires y < y'
    ensures y * (width + 1) + width < y' * (width + 1)
    decreases y'
  {
    assert (y' - 1) * (width + 1) + (width + 1) == y' * (width + 1);
    if y < y' - 1 {
      RowsApart(width, y, y' - 1);
    }
  }

  lemma LocInRange(width: nat, height: nat, x: nat, y: nat)
    requires x <= width && y <= height
    ensures Loc(width, x, y) < (width + 1) * (height + 1)
  {
    RowsApart(width, y, height + 1);
  }

  lemma LocInjective(width: nat, x: nat, y: nat, x': nat, y': nat)
    requires x <= width && x' <= width && Loc(width, x, y) == Loc(width, x', y')
    ensures x == x' && y == y'
  {
    if y < y' {
      RowsApart(width, y, y');
    } else if y' < y {
      RowsApart(width, y', y);
    }
  }

  /** Cell (x, y) of the matrix holds the distance of the prefixes of those lengths. */
  ghost predicate CellDone(d: seq<nat>, s: string, t: string, x: nat, y: nat)
    requires x <= |s| && y <= |t|
  {
    Loc(|s|, x, y) < |d| && d[Loc(|s|, x, y)] == Distance(s[..x], t[..y])
  }

  /** The whole column x is finished. */
  ghost predicate ColumnDone(d: seq<nat>, s: string, t: string, x: nat)
    requires x <= |s|
  {
    forall y :: 0 <= y <= |t| ==> CellDone(d, s, t, x, y)
  }

  lemma CellAt(d: seq<nat>, s: string, t: string, x: nat, y: nat)
    requires x <= |s| && y <= |t| && CellDone(d, s, t, x, y)
    ensures Loc(|s|, x, y) < |d| && d[Loc(|s|, x, y)] == Distance(s[..x], t[..y])
  {
  }

  /** Writing its distance finishes a cell, and every other finished cell stays finished. */
  lemma CellWritten(before: seq<nat>, after: seq<nat>, s: string, t: string, x: nat, y: nat)
    requires x <= |s| && y <= |t| && Loc(|s|, x, y) < |before|
    requires after == before[Loc(|s|, x, y) := Distance(s[..x], t[..y])]
    ensures CellDone(after, s, t, x, y)
    ensures forall x', y' :: 0 <= x' <= |s| && 0 <= y' <= |t| && CellDone(before, s, t, x', y') ==>
              CellDone(after, s, t, x', y')
  {
    hide Distance, Loc;
    forall x', y' | 0 <= x' <= |s| && 0 <= y' <= |t| && CellDone(before, s, t, x', y')
      ensures CellDone(after, s, t, x', y')
    {
      if Loc(|s|, x', y') == Loc(|s|, x, y) {
        LocInjective(|s|, x, y, x', y');
      }
    }
  }

  /** The value that the program computes for a cell from its three neighbours. */
  lemma CellValue(d: seq<nat>, s: string, t: string, x: nat, y: nat)
    requires 0 < x <= |s| && 0 < y <= |t|
    requires CellDone(d, s, t, x - 1, y) && CellDone(d, s, t, x, y - 1) && CellDone(d, s, t, x - 1, y - 1)
    ensures Distance(s[..x], t[..y]) == Min3(d[Loc(|s|, x - 1, y)] + 1,
                                             d[Loc(|s|, x, y - 1)] + 1,
                                             d[Loc(|s|, x - 1, y - 1)] + if s[x - 1] == t[y - 1] then 0 else 1)
  {
    assert Init(s[..x]) == s[..x - 1] && Init(t[..y]) == t[..y - 1];
  }

  lemma BorderValue(s: string, t: string, x: nat, y: nat)
    requires x <= |s| && y <= |t|
    ensures Distance(s[..x], t[..0]) == x && Distance(s[..0], t[..y]) == y
  {
  }

  /** The program sizes the matrix in 32-bit arithmetic. */
  predicate MatrixFits(width: nat, height: nat) { (width + 1) * (height + 1) < 0x1_0000_0000 }

  /** The first two loops: row and column 0. */
  method FillBorder(d: array<nat>, s: string, t: string)
    requires d.Length == (|s| + 1) * (|t| + 1)
    modifies d
    ensures forall x :: 0 <= x <= |s| ==> CellDone(d[..], s, t, x, 0)
    ensures ColumnDone(d[..], s, t, 0)
  {
    hide CellDone, Distance, Loc;
    for i := 0 to |s| + 1
      invariant forall x :: 0 <= x < i ==> CellDone(d[..], s, t, x, 0)
    {
      LocInRange(|s|, |t|, i, 0);
      BorderValue(s, t, i, 0);
      ghost var before := d[..];
      d[Loc(|s|, i, 0)] := i;
      CellWritten(before, d[..], s, t, i, 0);
    }
    for j := 0 to |t| + 1
      invariant forall x :: 0 <= x <= |s| ==> CellDone(d[..], s, t, x, 0)
      invariant forall y :: 0 <= y < j ==> CellDone(d[..], s, t, 0, y)
    {
      LocInRange(|s|, |t|, 0, j);
      BorderValue(s, t, 0, j);
      ghost var before := d[..];
      d[Loc(|s|, 0, j)] := j;
      CellWritten(before, d[..], s, t, 0, j);
    }
  }

  /** The inner loop: column i from the one before it. */
  method FillColumn(d: array<nat>, s: string, t: string, i: nat)
    requires d.Length == (|s| + 1) * (|t| + 1) && 0 < i <= |s| && CellDone(d[..], s, t, i, 0)
    requires ColumnDone(d[..], s, t, i - 1)
    modifies d
    ensures ColumnDone(d[..], s, t, i)
    ensures forall x :: 0 <= x <= |s| && old(CellDone(d[..], s, t, x, 0)) ==> CellDone(d[..], s, t, x, 0)
  {
    hide CellDone, Distance, Loc, Min3;
    for j := 1 to |t| + 1
      invariant ColumnDone(d[..], s, t, i - 1)
      invariant forall y :: 0 <= y < j ==> CellDone(d[..], s, t, i, y)
      invariant forall x :: 0 <= x <= |s| && old(CellDone(d[..], s, t, x, 0)) ==> CellDone(d[..], s, t, x, 0)
    {
      LocInRange(|s|, |t|, i, j);
      LocInRange(|s|, |t|, i - 1, j);
      LocInRange(|s|, |t|, i, j - 1);
      LocInRange(|s|, |t|, i - 1, j - 1);
      CellValue(d[..], s, t, i, j);
      ghost var before := d[..];
      var step := if s[i - 1] == t[j - 1] then 0 else 1;
      d[Loc(|s|, i, j)] := Min3(d[Loc(|s|, i - 1, j)] + 1,
                                d[Loc(|s|, i, j - 1)] + 1,
                                d[Loc(|s|, i - 1, j - 1)] + step);
      CellWritten(before, d[..], s, t, i, j);
    }
  }

  method Levd(s: string, t: string) returns (cost: nat)
    requires MatrixFits(|s|, |t|)
    ensures cost == Distance(s, t)
  {
    var width, height := |s|, |t|;
    if width == 0 { return height; }
    if height == 0 { return width; }
    hide CellDone, Distance, Loc;
    var d := new nat[(width + 1) * (height + 1)](_ => 0);
    FillBorder(d, s, t);
    for i := 1 to width + 1
      invariant forall x :: 0 <= x <= width ==> CellDone(d[..], s, t, x, 0)
      invariant ColumnDone(d[..], s, t, i - 1)
    {
      FillColumn(d, s, t, i);
    }
    LocInRange(width, height, width, height);
    CellAt(d[..], s, t, width, height);
    assert s[..width] == s && t[..height] == t;
    cost := d[Loc(width, width, height)];
  }

  // ---------- The recurrence is the cheapest script ----------

  /** No script is cheaper than the distance. */
  lemma {:induction false} DistanceIsLowerBound(script: seq<Edit>, s: string, t: string)
    requires Turns(script, s, t)
    ensures Distance(s, t) <= Cost(script)
  {
    if script != [] {
      match Last(script) {
        case Keep(_) => DistanceIsLowerBound(Init(script), Init(s), Init(t));
        case Substitute(_, _) => DistanceIsLowerBound(Init(script), Init(s), Init(t));
        case Insert(_) =>
          DistanceIsLowerBound(Init(script), s, Init(t));
          if s == [] { assert Distance(s, Init(t)) == |t| - 1; }
        case Delete(_) =>
          DistanceIsLowerBound(Init(script), Init(s), t);
          if t == [] { assert Distance(Init(s), t) == |s| - 1; }
      }
    }
  }

  /** Some script costs exactly the distance; this one follows the recurrence's choices. */
  function CheapestScript(s: string, t: string): (script: seq<Edit>)
    ensures Turns(script, s, t) && Cost(script) == Distance(s, t)
    decreases |s| + |t|
  {
    if s == [] && t == [] then []
    else if s == [] then CheapestScript(s, Init(t)) + [Insert(Last(t))]
    else if t == [] then CheapestScript(Init(s), t) + [Delete(Last(s))]
    else if Distance(s, t) == Distance(Init(s), t) + 1 then CheapestScript(Init(s), t) + [Delete(Last(s))]
    else if Distance(s, t) == Distance(s, Init(t)) + 1 then CheapestScript(s, Init(t)) + [Insert(Last(t))]
    else if Last(s) == Last(t) then CheapestScript(Init(s), Init(t)) + [Keep(Last(s))]
    else CheapestScript(Init(s), Init(t)) + [Substitute(Last(s), Last(t))]
  }

  /** What `Levd` computes: n is the distance exactly when n is the least cost of a script. */
  lemma DistanceIsMinimum(s: string, t: string, n: nat)
    ensures n == Distance(s, t) <==>
            (exists script :: Turns(script, s, t) && Cost(script) == n) &&
            (forall script :: Turns(script, s, t) ==> n <= Cost(script))
  {
    var best := CheapestScript(s, t);
    assert Turns(best, s, t) && Cost(best) == Distance(s, t);
    forall script | Turns(script, s, t)
      ensures Distance(s, t) <= Cost(script)
    {
      DistanceIsLowerBound(script, s, t);
    }
  }

  // ---------- It is a metric ----------

  lemma {:induction false} Symmetric(s: string, t: string)
    ensures Distance(s, t) == Distance(t, s)
    decreases |s| + |t|
  {
    if s != [] && t != [] {
      Symmetric(Init(s), t);
      Symmetric(s, Init(t));
      Symmetric(Init(s), Init(t));
    }
  }

  lemma {:induction false} Bounds(s: string, t: string)
    ensures |s| - |t| <= Distance(s, t) && |t| - |s| <= Distance(s, t)
    ensures Distance(s, t) <= if |s| < |t| then |t| else |s|
    decreases |s| + |t|
  {
    if s != [] && t != [] {
      Bounds(Init(s), t);
      Bounds(s, Init(t));
      Bounds(Init(s), Init(t));
    }
  }

  lemma {:induction false} ZeroIffEqual(s: string, t: string)
    ensures Distance(s, t) == 0 <==> s == t
    decreases |s| + |t|
  {
    if s != [] && t != [] {
      ZeroIffEqual(Init(s), Init(t));
      assert s == Init(s) + [Last(s)] && t == Init(t) + [Last(t)];
    }
  }

  /** One more character on either side changes the distance by at most one upwards. */
  lemma OneMore(s: string, t: string)
    ensures s != [] ==> Distance(s, t) <= Distance(Init(s), t) + 1
    ensures t != [] ==> Distance(s, t) <= Distance(s, Init(t)) + 1
    ensures s != [] && t != [] ==> Distance(s, t) <= Distance(Init(s), Init(t)) + Mismatch(Last(s), Last(t))
  {
  }

  lemma {:induction false} Triangle(s: string, t: string, u: string)
    ensures Distance(s, u) <= Distance(s, t) + Distance(t, u)
    decreases |s| + |t| + |u|
  {
    if s == [] || t == [] || u == [] {
      Bounds(s, t);
      Bounds(t, u);
      Bounds(s, u);
    } else {
      OneMore(s, u);
      Triangle(Init(s), t, u);
      Triangle(s, t, Init(u));
      Triangle(s, Init(t), u);
      Triangle(s, Init(t), Init(u));
      Triangle(Init(s), Init(t), u);
      Triangle(Init(s), Init(t), Init(u));
    }
  }

  // ---------- Chains of single edits ----------

  /** `t` arises from `s` by inserting, deleting or substituting one character anywhere. */
  ghost predicate OneEdit(s: string, t: string) {
    exists i: nat, c: char :: EditAt(s, t, i, c)
  }

  predicate EditAt(s: string, t: string, i: nat, c: char) {
    || (i <= |s| && t == s[..i] + [c] + s[i..])
    || (i < |s| && t == s[..i] + s[i + 1..])
    || (i < |s| && t == s[..i] + [c] + s[i + 1..])
  }

  ghost predicate Chain(strings: seq<string>) {
    forall i :: 0 <= i < |strings| - 1 ==> OneEdit(strings[i], strings[i + 1])
  }

  ghost predicate ChainBetween(strings: seq<string>, s: string, t: string) {
    strings != [] && strings[0] == s && Last(strings) == t && Chain(strings)
  }

  lemma {:induction false} CommonTail(s: string, t: string, tail: string)
    ensures Distance(s + tail, t + tail) <= Distance(s, t)
    decreases |tail|
  {
    if tail == [] {
      assert s + tail == s && t + tail == t;
    } else {
      CommonTail(s, t, Init(tail));
      assert Init(s + tail) == s + Init(tail) && Init(t + tail) == t + Init(tail);
      OneMore(s + tail, t + tail);
    }
  }

  lemma InsertionCost(head: string, c: char, tail: string)
    ensures Distance(head + tail, head + [c] + tail) <= 1
    ensures Distance(head + [c] + tail, head + tail) <= 1
  {
    var longer := head + [c];
    ZeroIffEqual(head, head);
    assert Init(longer) == head;
    OneMore(head, longer);
    CommonTail(head, longer, tail);
    Symmetric(head + tail, longer + tail);
  }

  lemma SubstitutionCost(head: string, a: char, b: char, tail: string)
    ensures Distance(head + [a] + tail, head + [b] + tail) <= 1
  {
    ZeroIffEqual(head, head);
    assert Init(head + [a]) == head && Init(head + [b]) == head;
    OneMore(head + [a], head + [b]);
    CommonTail(head + [a], head + [b], tail);
  }

  lemma OneEditCostsAtMostOne(s: string, t: string)
    requires OneEdit(s, t)
    ensures Distance(s, t) <= 1
  {
    var i: nat, c: char :| EditAt(s, t, i, c);
    var head := s[..i];
    if i <= |s| && t == head + [c] + s[i..] {
      assert s == head + s[i..];
      InsertionCost(head, c, s[i..]);
    } else {
      assert s == head + [s[i]] + s[i + 1..];
      InsertionCost(head, s[i], s[i + 1..]);
      SubstitutionCost(head, s[i], c, s[i + 1..]);
    }
  }

  /** No chain of single edits from one string to the other is shorter than the distance. */
  lemma {:induction false} ChainIsLowerBound(strings: seq<string>)
    requires strings != [] && Chain(strings)
    ensures Distance(strings[0], Last(strings)) <= |strings| - 1
  {
    if |strings| == 1 {
      ZeroIffEqual(strings[0], strings[0]);
    } else {
      var shorter := Init(strings);
      assert Chain(shorter) by {
        forall i | 0 <= i < |shorter| - 1
          ensures OneEdit(shorter[i], shorter[i + 1])
        {
          assert OneEdit(strings[i], strings[i + 1]);
        }
      }
      ChainIsLowerBound(shorter);
      assert OneEdit(strings[|strings| - 2], strings[|strings| - 1]);
      OneEditCostsAtMostOne(Last(shorter), Last(strings));
      Triangle(strings[0], Last(shorter), Last(strings));
    }
  }

  lemma OneEditWithTail(s: string, t: string, c: char)
    requires OneEdit(s, t)
    ensures OneEdit(s + [c], t + [c])
  {
    var i: nat, x: char :| EditAt(s, t, i, x);
    var s', t' := s + [c], t + [c];
    assert s'[..i] == s[..i];
    if i <= |s| && t == s[..i] + [x] + s[i..] {
      assert s'[i..] == s[i..] + [c];
      assert t' == s'[..i] + [x] + s'[i..];
    } else {
      assert s'[i + 1..] == s[i + 1..] + [c];
      assert t' == s'[..i] + s'[i + 1..] || t' == s'[..i] + [x] + s'[i + 1..];
    }
    assert EditAt(s', t', i, x);
  }

  function WithTail(strings: seq<string>, c: char): (r: seq<string>)
    ensures |r| == |strings| && forall i :: 0 <= i < |r| ==> r[i] == strings[i] + [c]
  {
    seq(|strings|, i requires 0 <= i < |strings| => strings[i] + [c])
  }

  lemma ChainExtended(strings: seq<string>, t: string)
    requires strings != [] && Chain(strings) && OneEdit(Last(strings), t)
    ensures Chain(strings + [t])
  {
    var longer := strings + [t];
    forall i | 0 <= i < |longer| - 1
      ensures OneEdit(longer[i], longer[i + 1])
    {
      if i < |strings| - 1 {
        assert OneEdit(strings[i], strings[i + 1]);
      }
    }
  }

  lemma ChainWithTail(strings: seq<string>, c: char)
    requires strings != [] && Chain(strings)
    ensures Chain(WithTail(strings, c))
  {
    var longer := WithTail(strings, c);
    forall i | 0 <= i < |longer| - 1
      ensures OneEdit(longer[i], longer[i + 1])
    {
      assert OneEdit(strings[i], strings[i + 1]);
      OneEditWithTail(strings[i], strings[i + 1], c);
    }
  }

  lemma ChainThenInsert(strings: seq<string>, s: string, t: string)
    requires t != [] && ChainBetween(strings, s, Init(t))
    ensures ChainBetween(strings + [t], s, t)
  {
    assert EditAt(Init(t), t, |t| - 1, Last(t)) by { assert t == Init(t) + [Last(t)] + []; }
    ChainExtended(strings, t);
  }

  lemma ChainWithLast(strings: seq<string>, s: string, t: string, c: char)
    requires s != [] && Last(s) == c && ChainBetween(strings, Init(s), t)
    ensures ChainBetween(WithTail(strings, c), s, t + [c])
  {
    assert s == Init(s) + [c];
    ChainWithTail(strings, c);
  }

  lemma ChainThenDelete(strings: seq<string>, s: string, t: string, c: char)
    requires ChainBetween(strings, s, t + [c])
    ensures ChainBetween(strings + [t], s, t)
  {
    var longer := t + [c];
    assert longer[..|t|] == t && longer[|t| + 1..] == [];
    assert EditAt(longer, t, |t|, c);
    ChainExtended(strings, t);
  }

  lemma ChainThenSubstitute(strings: seq<string>, s: string, t: string, c: char)
    requires t != [] && ChainBetween(strings, s, Init(t) + [c])
    ensures ChainBetween(strings + [t], s, t)
  {
    var other := Init(t) + [c];
    assert other[..|t| - 1] == Init(t) && other[|t|..] == [] && t == Init(t) + [Last(t)] + [];
    assert EditAt(other, t, |t| - 1, Last(t));
    ChainExtended(strings, t);
  }

  /** A chain of exactly the distance exists. */
  lemma {:induction false} ChainAttained(s: string, t: string) returns (strings: seq<string>)
    ensures ChainBetween(strings, s, t) && |strings| == Distance(s, t) + 1
    decreases |s| + |t|
  {
    if s == [] && t == [] {
      strings := [s];
    } else if t != [] && (s == [] || Distance(s, t) == Distance(s, Init(t)) + 1) {
      strings := ChainAttained(s, Init(t));
      ChainThenInsert(strings, s, t);
      strings := strings + [t];
    } else if t == [] || Distance(s, t) == Distance(Init(s), t) + 1 {
      strings := ChainAttained(Init(s), t);
      ChainWithLast(strings, s, t, Last(s));
      strings := WithTail(strings, Last(s));
      ChainThenDelete(strings, s, t, Last(s));
      strings := strings + [t];
    } else {
      strings := ChainAttained(Init(s), Init(t));
      ChainWithLast(strings, s, Init(t), Last(s));
      strings := WithTail(strings, Last(s));
      assert t == Init(t) + [Last(t)];
      if Last(s) != Last(t) {
        ChainThenSubstitute(strings, s, t, Last(s));
        strings := strings + [t];
      }
    }
  }

  /** The distance is the least number of single-character edits, wherever they are made. */
  lemma DistanceIsFewestEdits(s: string, t: string, n: nat)
    ensures n == Distance(s, t) <==>
            (exists strings :: ChainBetween(strings, s, t) && |strings| == n + 1) &&
            (forall strings :: ChainBetween(strings, s, t) ==> n + 1 <= |strings|)
  {
    var best := ChainAttained(s, t);
    assert ChainBetween(best, s, t);
    forall strings | ChainBetween(strings, s, t)
      ensures Distance(s, t) + 1 <= |strings|
    {
      ChainIsLowerBound(strings);
    }
  }

  // ---------- Comparing a database entry with a list entry ----------

  datatype Pair = Pair(uuidDist: nat, nameDist: nat, costFactor: nat, combinedDist: nat)

  predicate StartsWith(s: string, prefix: string) { |prefix| <= |s| && s[..|prefix|] == prefix }

  const VX3A := "{VX3A}"

  function IndexOf(s: string, c: char, from: nat): (i: nat)
    requires from <= |s|
    ensures from <= i <= |s| && c !in s[from..i] && (i < |s| ==> s[i] == c)
    decreases |s| - from
  {
    if from == |s| || s[from] == c then from else IndexOf(s, c, from + 1)
  }

  /** A VX3A identifier carries six date digits after its tag, which are read unconditionally. */
  predicate WellTagged(uuid: string) { StartsWith(uuid, VX3A) ==> |uuid| >= 12 }

  /** The part of a UUID that is compared: the six date digits of a VX3A identifier, and otherwise
      everything after a leading "{type}" tag. */
  function ComparedPart(uuid: string): string
    requires WellTagged(uuid)
  {
    if StartsWith(uuid, VX3A) then uuid[6..12]
    else
      var close := IndexOf(uuid, '}', 0);
      if uuid != [] && uuid[0] == '{' && close < |uuid| then uuid[close + 1..] else uuid
  }

  /** Name changes weigh in quadratically, and a change of both quadruples the sum; all in 32 bits. */
  function Weigh(uuidDist: nat, nameEdits: nat): Pair {
    var nameDist := nameEdits * nameEdits % 0x1_0000_0000;
    var factor := if uuidDist != 0 && nameDist != 0 then 4 else 1;
    Pair(uuidDist, nameDist, factor, (uuidDist + nameDist) * factor % 0x1_0000_0000)
  }

  /** The distance of the names counts with its square, and a change of both UUID and name four times. */
  lemma WeightOfChanges(u: nat, w: nat)
    requires u < 32768 && w < 32768 && 4 * (u + w * w) < 0x1_0000_0000
    ensures var p := Weigh(u, w);
            && p.uuidDist == u && p.nameDist == w * w
            && p.costFactor == (if u > 0 && w > 0 then 4 else 1)
            && p.combinedDist == if u > 0 && w > 0 then 4 * (u + w * w) else u + w * w
  {
    var square := w * w;
    assert w != 0 ==> square != 0;
    Fits32(square);
    Fits32(u + square);
    Fits32(4 * (u + square));
  }

  lemma Fits32(x: nat)
    requires x < 0x1_0000_0000
    ensures x % 0x1_0000_0000 == x
  {
  }

  /** Of a VX3A identifier the six characters behind the tag are compared. */
  lemma DatePart(digits: string, rest: string)
    requires |digits| == 6
    ensures ComparedPart("{VX3A}" + digits + rest) == digits
  {
    var s := "{VX3A}" + digits + rest;
    assert s[..6] == "{VX3A}" && s[6..12] == digits;
  }

  lemma IndexAt(s: string, c: char, k: nat)
    requires k < |s| && s[k] == c && c !in s[..k]
    ensures IndexOf(s, c, 0) == k
  {
    assert forall j :: 0 <= j < k ==> s[j] in s[..k];
    assert s[..|s|] == s && forall i :: k < i <= |s| ==> s[0..i][k] == c;
  }

  /** Of another tagged identifier everything behind its tag is compared. */
  lemma TaggedPart(tag: string, rest: string)
    requires '}' !in tag && !StartsWith("{" + tag + "}" + rest, "{VX3A}")
    ensures ComparedPart("{" + tag + "}" + rest) == rest
  {
    var s := "{" + tag + "}" + rest;
    assert s[..|tag| + 1] == "{" + tag && s[|tag| + 1] == '}' && s[|tag| + 2..] == rest;
    IndexAt(s, '}', |tag| + 1);
  }

  /** An identifier that is not tagged, or whose tag does not end, is compared as a whole. */
  lemma UntaggedPart(uuid: string)
    requires WellTagged(uuid) && (uuid == [] || uuid[0] != '{' || '}' !in uuid)
    ensures ComparedPart(uuid) == uuid
  {
    assert "{VX3A}"[0] == '{' && "{VX3A}"[5] == '}';
    assert 6 <= |uuid| ==> uuid[..6][0] == uuid[0] && uuid[..6][5] == uuid[5] && uuid[5] in uuid;
    assert forall k :: 0 <= k < |uuid| ==> uuid[k] in uuid;
  }

  method LevdP(uuid: string, name: string, edsUuid: string, edsName: string) returns (pair: Pair)
    requires MatrixFits(|uuid|, |edsUuid|) && MatrixFits(|name|, |edsName|)
    requires WellTagged(uuid) && WellTagged(edsUuid)
    ensures pair == Weigh(Distance(ComparedPart(uuid), ComparedPart(edsUuid)), Distance(name, edsName))
  {
    var vxdbPart, edsPart := ComparedPart(uuid), ComparedPart(edsUuid);
    SmallerMatrix(|uuid|, |edsUuid|, |vxdbPart|, |edsPart|);
    var u := Levd(vxdbPart, edsPart);
    var w := Levd(name, edsName);
    pair := Weigh(u, w);
  }

  lemma SmallerMatrix(w: nat, h: nat, w': nat, h': nat)
    requires MatrixFits(w, h) && w' <= w && h' <= h
    ensures MatrixFits(w', h')
  {
    assert (w' + 1) * (h' + 1) <= (w' + 1) * (h + 1) by { assert (w' + 1) * (h - h') >= 0; }
    assert (w' + 1) * (h + 1) <= (w + 1) * (h + 1) by { assert (w - w') * (h + 1) >= 0; }
  }

  lemma WeighZero(u: nat, w: nat)
    requires u < 32768 && w < 32768
    ensures Weigh(u, w).combinedDist == 0 <==> u == 0 && w == 0
  {
    assert w * w <= 32767 * 32767 by { assert w * w <= w * 32767; }
    assert w != 0 ==> w * w != 0;
  }

  /** The report lists exactly the pairs that differ: for strings below 32768 characters nothing
      wraps, and the combined distance vanishes only for equal names with equal compared parts. */
  lemma CombinedZeroIffSame(uuid: string, name: string, edsUuid: string, edsName: string)
    requires |uuid| < 32768 && |edsUuid| < 32768 && |name| < 32768 && |edsName| < 32768
    requires WellTagged(uuid) && WellTagged(edsUuid)
    ensures Weigh(Distance(ComparedPart(uuid), ComparedPart(edsUuid)), Distance(name, edsName)).combinedDist == 0
            <==> ComparedPart(uuid) == ComparedPart(edsUuid) && name == edsName
  {
    var a, b := ComparedPart(uuid), ComparedPart(edsUuid);
    ZeroIffEqual(a, b);
    Bounds(a, b);
    ZeroIffEqual(name, edsName);
    Bounds(name, edsName);
    WeighZero(Distance(a, b), Distance(name, edsName));
  }
}
