/** Word-boundary string comparison (src/libvxmdfmt/extra.c), the key order of the group map. */
module WordCompare {
  import opened Prelude
  import Decimal

  // ---------- Segments ----------

  datatype Class = Digit | Alpha | Other

  /** Position in the enumeration; the end of the string (CLASS_NONE) has rank 0. */
  function Rank(c: Class): int {
    match c
    case Digit => 1
    case Alpha => 2
    case Other => 3
  }

  function ClassOf(c: char): Class {
    if 'A' <= c <= 'Z' || 'a' <= c <= 'z' then Alpha
    else if Decimal.IsDigit(c) then Digit
    else Other
  }

  function RankAt(s: string, i: nat): int {
    if i < |s| then Rank(ClassOf(s[i])) else 0
  }

  datatype Segments = End | Segment(class_: Class, text: string, rest: Segments)

  predicate Uniform(text: string, c: Class) {
    forall k :: 0 <= k < |text| ==> ClassOf(text[k]) == c
  }

  /** Length of the run of characters of class `c` at the front of `s`. */
  function Run(s: string, c: Class): (n: nat)
    ensures n <= |s| && Uniform(s[..n], c)
    ensures n < |s| ==> ClassOf(s[n]) != c
  {
    if s == [] || ClassOf(s[0]) != c then 0
    else
      var n := Run(s[1..], c);
      assert s[..1 + n] == [s[0]] + s[1..][..n];
      1 + n
  }

  /** The same-class segments of a string, in order. */
  function Split(s: string): Segments
    decreases |s|
  {
    if s == [] then End
    else
      var c := ClassOf(s[0]);
      var n := Run(s, c);
      Segment(c, s[..n], Split(s[n..]))
  }

  function Flatten(segments: Segments): string {
    match segments
    case End => []
    case Segment(_, text, rest) => text + Flatten(rest)
  }

  /** Every segment is uniform and differs in class from its neighbour, so none can be extended. */
  predicate Maximal(segments: Segments) {
    match segments
    case End => true
    case Segment(c, text, rest) =>
      text != [] && Uniform(text, c) && (rest.Segment? ==> rest.class_ != c) && Maximal(rest)
  }

  lemma {:induction false} SplitIsMaximal(s: string)
    ensures Flatten(Split(s)) == s
    ensures Maximal(Split(s))
    decreases |s|
  {
    if s != [] {
      var n := Run(s, ClassOf(s[0]));
      SplitIsMaximal(s[n..]);
      assert s == s[..n] + s[n..];
    }
  }

  lemma {:induction false} RunOfAppend(text: string, tail: string, c: Class)
    requires Uniform(text, c) && (tail != [] ==> ClassOf(tail[0]) != c)
    ensures Run(text + tail, c) == |text|
  {
    if text == [] {
      assert text + tail == tail;
    } else {
      assert (text + tail)[1..] == text[1..] + tail;
      RunOfAppend(text[1..], tail, c);
    }
  }

  /** There is only one way to cut a string into maximal segments. */
  lemma {:induction false} SplitIsUnique(segments: Segments)
    requires Maximal(segments)
    ensures Split(Flatten(segments)) == segments
  {
    if segments.Segment? {
      var Segment(c, text, rest) := segments;
      SplitIsUnique(rest);
      RunOfAppend(text, Flatten(rest), c);
      assert (text + Flatten(rest))[0] == text[0];
      assert (text + Flatten(rest))[|text|..] == Flatten(rest);
    }
  }

  // ---------- Comparing segment lists ----------

  lemma Modulo(x: int)
    requires -0x1_0000_0000 <= x < 0x1_0000_0000
    ensures x % 0x1_0000_0000 == if x < 0 then x + 0x1_0000_0000 else x
  {
  }

  lemma WrapSmall(x: int)
    ensures -0x8000_0000 <= Wrap(x) < 0x8000_0000
    ensures -0x8000_0000 <= x < 0x8000_0000 ==> Wrap(x) == x
  {
  }

  /** strtoul saturates at 64 bits; the result is stored in a 32-bit int. */
  function AsInt(n: nat): int {
    Wrap(if n < 0x1_0000_0000_0000_0000 then n else 0xFFFF_FFFF_FFFF_FFFF)
  }

  /** The program's comparison of two segments of one class. */
  function CompareContent(c: Class, x: string, y: string): int {
    if c == Digit then Wrap(AsInt(Decimal.Value(x)) - AsInt(Decimal.Value(y)))
    else StrCmp(x, y)
  }

  function CompareSegments(a: Segments, b: Segments): int {
    match (a, b)
    case (End, End) => 0
    case (End, Segment(c, _, _)) => -Rank(c)
    case (Segment(c, _, _), End) => Rank(c)
    case (Segment(c, x, ra), Segment(c', y, rb)) =>
      if c != c' then Rank(c) - Rank(c')
      else
        var d := CompareContent(c, x, y);
        if d != 0 then d else CompareSegments(ra, rb)
  }

  /** Every segment fits the 256-byte buffer it is copied into. */
  predicate FitsBuffer(segments: Segments) {
    segments.Segment? ==> |segments.text| < 256 && FitsBuffer(segments.rest)
  }

  /** When the next classes differ, or both strings end, the classes decide. */
  lemma ClassesDecide(a: string, i: nat, b: string, j: nat)
    requires i <= |a| && j <= |b|
    ensures RankAt(a, i) != RankAt(b, j) || RankAt(a, i) == 0 ==>
              CompareSegments(Split(a[i..]), Split(b[j..])) == RankAt(a, i) - RankAt(b, j)
  {
  }

  method CompareWbc(a: string, b: string) returns (r: int)
    requires FitsBuffer(Split(a)) && FitsBuffer(Split(b))
    ensures r == CompareSegments(Split(a), Split(b))
  {
    hide CompareSegments, Split, Run, AsInt, Wrap, FitsBuffer, Decimal.Value;
    var strA, strB := 0, 0;
    var clA, clB := RankAt(a, 0), RankAt(b, 0);
    assert a[0..] == a && b[0..] == b;
    ClassesDecide(a, 0, b, 0);
    if clA != clB { return clA - clB; }
    if clA == 0 { return 0; }
    ghost var goal := CompareSegments(Split(a), Split(b));
    while true
      invariant strA < |a| && strB < |b|
      invariant clA == clB == Rank(ClassOf(a[strA])) == Rank(ClassOf(b[strB]))
      invariant goal == CompareSegments(Split(a[strA..]), Split(b[strB..]))
      decreases |a| - strA
    {
      var walkA := EndOfRun(a, strA, clA);
      var walkB := EndOfRun(b, strB, clB);
      HeadsDecide(a, strA, walkA, b, strB, walkB);
      if clA == 1 {
        var va, vb := AsInt(Decimal.Value(a[strA..walkA])), AsInt(Decimal.Value(b[strB..walkB]));
        if va != vb { return Wrap(va - vb); }
      } else {
        var d := StrCmp(a[strA..walkA], b[strB..walkB]);
        if d != 0 { return d; }
      }
      clA, clB := RankAt(a, walkA), RankAt(b, walkB);
      ClassesDecide(a, walkA, b, walkB);
      if clA != clB { return clA - clB; }
      if clA == 0 { return 0; }
      strA, strB := walkA, walkB;
    }
  }

  /** Two heads of one class decide, or the comparison goes on behind them. */
  lemma HeadsDecide(a: string, i: nat, k: nat, b: string, j: nat, l: nat)
    requires i < |a| && k == i + Run(a[i..], ClassOf(a[i]))
    requires j < |b| && l == j + Run(b[j..], ClassOf(b[j]))
    requires ClassOf(a[i]) == ClassOf(b[j])
    ensures var d := CompareContent(ClassOf(a[i]), a[i..k], b[j..l]);
            CompareSegments(Split(a[i..]), Split(b[j..]))
            == if d != 0 then d else CompareSegments(Split(a[k..]), Split(b[l..]))
    ensures ClassOf(a[i]) == Digit ==>
              (CompareContent(Digit, a[i..k], b[j..l]) == 0 <==>
                 AsInt(Decimal.Value(a[i..k])) == AsInt(Decimal.Value(b[j..l])))
  {
    HeadSegment(a, i, k);
    HeadSegment(b, j, l);
    WrapDifference(AsInt(Decimal.Value(a[i..k])), AsInt(Decimal.Value(b[j..l])));
  }

  /** The two inner loops: move on while the class stays the same. */
  method EndOfRun(s: string, start: nat, rank: int) returns (walk: nat)
    requires start < |s| && rank == Rank(ClassOf(s[start]))
    ensures walk == start + Run(s[start..], ClassOf(s[start])) && start < walk <= |s|
  {
    walk := start;
    while RankAt(s, walk) == rank
      invariant start <= walk <= |s|
      invariant walk + Run(s[walk..], ClassOf(s[start])) == start + Run(s[start..], ClassOf(s[start]))
      decreases |s| - walk
    {
      assert s[walk..][1..] == s[walk + 1..];
      walk := walk + 1;
    }
  }

  lemma HeadSegment(s: string, start: nat, walk: nat)
    requires start < |s| && walk == start + Run(s[start..], ClassOf(s[start]))
    ensures Split(s[start..]) == Segment(ClassOf(s[start]), s[start..walk], Split(s[walk..]))
  {
    assert s[start..][walk - start..] == s[walk..];
    assert s[start..][..walk - start] == s[start..walk];
  }

  lemma WrapDifference(va: int, vb: int)
    requires -0x8000_0000 <= va < 0x8000_0000 && -0x8000_0000 <= vb < 0x8000_0000
    ensures Wrap(va - vb) == 0 <==> va == vb
  {
  }

  // ---------- The order that is meant ----------

  function Sign(x: int): int { if x < 0 then -1 else if x > 0 then 1 else 0 }

  /** Segments of one class: digits by their true value, everything else as text. */
  function ContentOrder(c: Class, x: string, y: string): int {
    if c == Digit then Sign(Decimal.Value(x) - Decimal.Value(y)) else StrCmp(x, y)
  }

  /** Lexicographic on segments; class first, then content; the shorter list is less. */
  function Order(a: Segments, b: Segments): int {
    match (a, b)
    case (End, End) => 0
    case (End, Segment(_, _, _)) => -1
    case (Segment(_, _, _), End) => 1
    case (Segment(c, x, ra), Segment(c', y, rb)) =>
      if c != c' then Sign(Rank(c) - Rank(c'))
      else if ContentOrder(c, x, y) != 0 then ContentOrder(c, x, y)
      else Order(ra, rb)
  }

  lemma {:induction false} OrderReflexive(a: Segments)
    ensures Order(a, a) == 0
  {
    if a.Segment? {
      StrCmpZero(a.text, a.text);
      OrderReflexive(a.rest);
    }
  }

  lemma {:induction false} OrderAntisymmetric(a: Segments, b: Segments)
    ensures Order(a, b) == -Order(b, a)
  {
    if a.Segment? && b.Segment? {
      StrCmpAntisymmetric(a.text, b.text);
      OrderAntisymmetric(a.rest, b.rest);
    }
  }

  lemma ContentTransitive(c: Class, x: string, y: string, z: string)
    requires ContentOrder(c, x, y) <= 0 && ContentOrder(c, y, z) <= 0
    ensures ContentOrder(c, x, z) <= 0
    ensures ContentOrder(c, x, z) == 0 ==> ContentOrder(c, x, y) == 0 && ContentOrder(c, y, z) == 0
  {
    if c != Digit {
      StrCmpTransitive(x, y, z);
      StrCmpZero(x, z);
      StrCmpZero(x, y);
      StrCmpAntisymmetric(x, y);
    }
  }

  lemma {:induction false} OrderTransitive(a: Segments, b: Segments, c: Segments)
    requires Order(a, b) <= 0 && Order(b, c) <= 0
    ensures Order(a, c) <= 0
  {
    if a.Segment? && b.Segment? && c.Segment? && a.class_ == b.class_ == c.class_ {
      ContentTransitive(a.class_, a.text, b.text, c.text);
      if ContentOrder(a.class_, a.text, b.text) == 0 && ContentOrder(a.class_, b.text, c.text) == 0 {
        OrderTransitive(a.rest, b.rest, c.rest);
      }
    }
  }

  /** Same classes, same texts, and digit segments that differ in leading zeros only. */
  predicate SameUpToZeros(a: Segments, b: Segments) {
    match (a, b)
    case (End, End) => true
    case (Segment(c, x, ra), Segment(c', y, rb)) =>
      && c == c'
      && (if c == Digit then Decimal.StripZeros(x) == Decimal.StripZeros(y) else x == y)
      && SameUpToZeros(ra, rb)
    case _ => false
  }

  lemma ContentZero(c: Class, x: string, y: string)
    requires Uniform(x, c) && Uniform(y, c)
    ensures ContentOrder(c, x, y) == 0
            <==> if c == Digit then Decimal.StripZeros(x) == Decimal.StripZeros(y) else x == y
  {
    if c == Digit {
      UniformDigits(x);
      UniformDigits(y);
      Decimal.SameValue(x, y);
    } else {
      StrCmpZero(x, y);
    }
  }

  lemma {:induction false} OrderZero(a: Segments, b: Segments)
    requires Maximal(a) && Maximal(b)
    ensures Order(a, b) == 0 <==> SameUpToZeros(a, b)
  {
    if a.Segment? && b.Segment? && a.class_ == b.class_ {
      ContentZero(a.class_, a.text, b.text);
      OrderZero(a.rest, b.rest);
    }
  }

  lemma UniformDigits(text: string)
    requires Uniform(text, Digit)
    ensures Decimal.AllDigits(text)
  {
  }

  // ---------- When the program computes it ----------

  /** Every digit segment is below 2^31. */
  predicate Tame(segments: Segments) {
    match segments
    case End => true
    case Segment(c, text, rest) => (c == Digit ==> Decimal.Value(text) < 0x8000_0000) && Tame(rest)
  }

  lemma ContentIsOrder(c: Class, x: string, y: string)
    requires c == Digit ==> Decimal.Value(x) < 0x8000_0000 && Decimal.Value(y) < 0x8000_0000
    ensures Sign(CompareContent(c, x, y)) == ContentOrder(c, x, y)
  {
    if c == Digit {
      var vx: int, vy: int := Decimal.Value(x), Decimal.Value(y);
      WrapSmall(vx);
      WrapSmall(vy);
      WrapSmall(vx - vy);
    }
  }

  lemma {:induction false} CompareIsOrder(a: Segments, b: Segments)
    requires Tame(a) && Tame(b)
    ensures Sign(CompareSegments(a, b)) == Order(a, b)
  {
    if a.Segment? && b.Segment? && a.class_ == b.class_ {
      ContentIsOrder(a.class_, a.text, b.text);
      CompareIsOrder(a.rest, b.rest);
    }
  }

  /** The order of the map's keys: the sign of the program's result. */
  function KeyOrder(a: string, b: string): int { Sign(CompareSegments(Split(a), Split(b))) }

  predicate TameKey(s: string) { Tame(Split(s)) }

  /** On strings whose digit runs stay below 2^31 the comparison is a total preorder, and strings tie
      exactly when their segments agree up to leading zeros. */
  lemma KeyOrderIsTotalPreorder(a: string, b: string, c: string)
    requires TameKey(a) && TameKey(b) && TameKey(c)
    ensures KeyOrder(a, a) == 0
    ensures KeyOrder(a, b) == -KeyOrder(b, a)
    ensures KeyOrder(a, b) <= 0 && KeyOrder(b, c) <= 0 ==> KeyOrder(a, c) <= 0
    ensures KeyOrder(a, b) == 0 <==> SameUpToZeros(Split(a), Split(b))
  {
    CompareIsOrder(Split(a), Split(a));
    CompareIsOrder(Split(a), Split(b));
    CompareIsOrder(Split(b), Split(a));
    CompareIsOrder(Split(b), Split(c));
    CompareIsOrder(Split(a), Split(c));
    OrderReflexive(Split(a));
    OrderAntisymmetric(Split(a), Split(b));
    if Order(Split(a), Split(b)) <= 0 && Order(Split(b), Split(c)) <= 0 {
      OrderTransitive(Split(a), Split(b), Split(c));
    }
    SplitIsMaximal(a);
    SplitIsMaximal(b);
    OrderZero(Split(a), Split(b));
  }

  // ---------- The order in terms of characters ----------

  predicate IsDigit(c: char) { '0' <= c <= '9' }

  predicate IsLetter(c: char) { 'A' <= c <= 'Z' || 'a' <= c <= 'z' }

  predicate IsOther(c: char) { !IsDigit(c) && !IsLetter(c) }

  /** A non-empty run of characters of one kind, and what follows it is of another kind. */
  predicate RunThen(kind: char -> bool, run: string, rest: string) {
    run != [] && (forall c :: c in run ==> kind(c)) && (rest != [] ==> !kind(rest[0]))
  }

  lemma KindIsClass(c: char)
    ensures IsDigit(c) <==> ClassOf(c) == Digit
    ensures IsLetter(c) <==> ClassOf(c) == Alpha
    ensures IsOther(c) <==> ClassOf(c) == Other
  {
  }

  lemma SplitRun(class_: Class, run: string, rest: string)
    requires run != [] && Uniform(run, class_) && (rest != [] ==> ClassOf(rest[0]) != class_)
    ensures Split(run + rest) == Segment(class_, run, Split(rest))
  {
    SplitIsMaximal(rest);
    SplitIsUnique(Segment(class_, run, Split(rest)));
  }

  lemma UniformOf(kind: char -> bool, class_: Class, run: string)
    requires (forall c :: c in run ==> kind(c)) && forall c :: kind(c) ==> ClassOf(c) == class_
    ensures Uniform(run, class_)
  {
  }

  /** The end of a key comes before everything, and a digit before a letter before any other character. */
  lemma KindsInOrder(a: string, b: string)
    ensures b != [] ==> KeyOrder([], b) == -1
    ensures a != [] && b != [] && IsDigit(a[0]) && (IsLetter(b[0]) || IsOther(b[0])) ==> KeyOrder(a, b) == -1
    ensures a != [] && b != [] && IsLetter(a[0]) && IsOther(b[0]) ==> KeyOrder(a, b) == -1
  {
    if a != [] { KindIsClass(a[0]); }
    if b != [] { KindIsClass(b[0]); }
  }

  /** Two runs of letters are ordered by their first different character; the same holds of two runs of
      other characters. */
  lemma RunsByCharacter(kind: char -> bool, p: string, c: char, x: string, a: string, d: char, y: string, b: string)
    requires kind == IsLetter || kind == IsOther
    requires RunThen(kind, p + [c] + x, a) && RunThen(kind, p + [d] + y, b) && c < d
    ensures KeyOrder(p + [c] + x + a, p + [d] + y + b) == -1
  {
    KindsDiffer();
    SplitKind(kind, p + [c] + x, a);
    SplitKind(kind, p + [d] + y, b);
    StrCmpFirstDifference(p, c, x, d, y);
  }

  lemma SplitKind(kind: char -> bool, run: string, rest: string)
    requires (kind == IsLetter || kind == IsOther || kind == IsDigit) && RunThen(kind, run, rest)
    ensures Split(run + rest)
            == Segment(if kind == IsDigit then Digit else if kind == IsLetter then Alpha else Other, run, Split(rest))
  {
    var class_ := if kind == IsDigit then Digit else if kind == IsLetter then Alpha else Other;
    KindsDiffer();
    forall c ensures kind(c) <==> ClassOf(c) == class_ { KindIsClass(c); }
    UniformOf(kind, class_, run);
    SplitRun(class_, run, rest);
  }

  lemma KindsDiffer()
    ensures IsDigit != IsLetter && IsDigit != IsOther && IsLetter != IsOther
  {
    assert IsDigit('0') && !IsLetter('0') && !IsOther('0') && IsLetter('a') && !IsOther('a');
  }

  /** A run that is cut short by the end, or by another kind, comes before the longer run. */
  lemma ShorterRunFirst(kind: char -> bool, p: string, x: string, a: string, b: string)
    requires kind == IsLetter || kind == IsOther
    requires RunThen(kind, p, a) && RunThen(kind, p + x, b) && x != []
    ensures KeyOrder(p + a, p + x + b) == -1
  {
    KindsDiffer();
    SplitKind(kind, p, a);
    SplitKind(kind, p + x, b);
    StrCmpPrefix(p, x);
  }

  /** Runs of digits are ordered by their values, as long as these are below 2^31. */
  lemma DigitsByValue(x: string, a: string, y: string, b: string)
    requires RunThen(IsDigit, x, a) && RunThen(IsDigit, y, b)
    requires Decimal.Value(x) < Decimal.Value(y) < 0x8000_0000
    ensures KeyOrder(x + a, y + b) == -1
  {
    SplitKind(IsDigit, x, a);
    SplitKind(IsDigit, y, b);
    ContentIsOrder(Digit, x, y);
  }

  /** Equal runs, and runs of digits of equal value, leave the decision to what follows. */
  lemma EqualRunsGoOn(kind: char -> bool, x: string, a: string, y: string, b: string)
    requires kind == IsLetter || kind == IsOther || kind == IsDigit
    requires RunThen(kind, x, a) && RunThen(kind, y, b)
    requires x == y || (kind == IsDigit && Decimal.Value(x) == Decimal.Value(y))
    ensures KeyOrder(x + a, y + b) == KeyOrder(a, b)
  {
    KindsDiffer();
    SplitKind(kind, x, a);
    SplitKind(kind, y, b);
    StrCmpZero(x, y);
  }

  /** The examples in the program's description. */
  lemma ExamplesOfNumbers()
    ensures KeyOrder("11C", "12C") == -1 && KeyOrder("9B", "10A") == -1
  {
    hide KeyOrder, Decimal.Value;
    TwoDigits('1', '1');
    TwoDigits('1', '2');
    TwoDigits('1', '0');
    OneDigit('9');
    assert "11" + "C" == "11C" && "12" + "C" == "12C" && "9" + "B" == "9B" && "10" + "A" == "10A";
    DigitsByValue("11", "C", "12", "C");
    DigitsByValue("9", "B", "10", "A");
  }

  lemma ExamplesOfLetters()
    ensures KeyOrder("8EK", "8F2") == -1 && KeyOrder("A2", "B") == -1
  {
    hide KeyOrder;
    assert "8" + "EK" == "8EK" && "8" + "F2" == "8F2";
    EqualRunsGoOn(IsDigit, "8", "EK", "8", "F2");
    assert "" + ['E'] + "K" + "" == "EK" && "" + ['F'] + "" + "2" == "F2";
    RunsByCharacter(IsLetter, "", 'E', "K", "", 'F', "", "2");
    assert "" + ['A'] + "" + "2" == "A2" && "" + ['B'] + "" + "" == "B";
    RunsByCharacter(IsLetter, "", 'A', "", "2", 'B', "", "");
  }

  lemma ExamplesOfKinds()
    ensures KeyOrder("9", "A2") == -1 && KeyOrder("0", "-") == -1
  {
    hide KeyOrder;
    KindsInOrder("9", "A2");
    KindsInOrder("0", "-");
  }

  lemma OneDigit(c: char)
    requires IsDigit(c)
    ensures Decimal.Value([c]) == c as int - 48
  {
    Decimal.PlaceValue([], c);
    assert [] + [c] == [c];
  }

  lemma TwoDigits(c: char, d: char)
    requires IsDigit(c) && IsDigit(d)
    ensures Decimal.Value([c, d]) == 10 * (c as int - 48) + (d as int - 48)
  {
    OneDigit(c);
    Decimal.PlaceValue([c], d);
    assert [c] + [d] == [c, d];
  }

  // ---------- When it does not ----------

  /** A tame opponent against which a list with a digit run of 2^31 or more is misplaced. */
  function Opponent(a: Segments): (b: Segments)
    requires Maximal(a) && !Tame(a)
    ensures b.Segment? && b.class_ == a.class_
  {
    if a.class_ != Digit || Decimal.Value(a.text) < 0x8000_0000 then
      Segment(a.class_, a.text, Opponent(a.rest))
    else
      var v := AsInt(Decimal.Value(a.text));
      if v < 0 then Segment(Digit, Decimal.Print(0), End)
      else
        var last := if a.rest.Segment? && a.rest.class_ == Other then a.rest.text + "-" else "-";
        Segment(Digit, Decimal.Print(v), Segment(Other, last, End))
  }

  lemma {:induction false} LongerIsGreater(x: string, y: string)
    requires y != []
    ensures StrCmp(x, x + y) == -1
  {
    if x != [] {
      assert (x + y)[1..] == x[1..] + y;
      LongerIsGreater(x[1..], y);
    } else {
      assert x + y == y;
    }
  }

  lemma NumberThenText(n: nat, text: string)
    requires n < 0x8000_0000 && text != [] && Uniform(text, Other)
    ensures var b := Segment(Digit, Decimal.Print(n), Segment(Other, text, End)); Maximal(b) && Tame(b)
  {
    assert Uniform(Decimal.Print(n), Digit);
  }

  lemma {:induction false} OpponentIsTame(a: Segments)
    requires Maximal(a) && !Tame(a)
    ensures Maximal(Opponent(a)) && Tame(Opponent(a))
  {
    if a.class_ != Digit || Decimal.Value(a.text) < 0x8000_0000 {
      OpponentIsTame(a.rest);
    } else {
      var v := AsInt(Decimal.Value(a.text));
      WrapSmall(if Decimal.Value(a.text) < 0x1_0000_0000_0000_0000 then Decimal.Value(a.text)
        else 0xFFFF_FFFF_FFFF_FFFF);
      if v < 0 {
        assert Uniform(Decimal.Print(0), Digit);
      } else {
        NumberThenText(v, if a.rest.Segment? && a.rest.class_ == Other then a.rest.text + "-" else "-");
      }
    }
  }

  /** The misplaced segment: its 32-bit image is not above the opponent's, its value is. */
  lemma NumberIsMisplaced(x: string)
    requires Decimal.Value(x) >= 0x8000_0000
    ensures AsInt(Decimal.Value(x)) < 0 ==>
              CompareContent(Digit, x, Decimal.Print(0)) < 0 && ContentOrder(Digit, x, Decimal.Print(0)) == 1
    ensures var v := AsInt(Decimal.Value(x)); v >= 0 ==>
              CompareContent(Digit, x, Decimal.Print(v)) == 0 && ContentOrder(Digit, x, Decimal.Print(v)) == 1
  {
    var v := AsInt(Decimal.Value(x));
    WrapSmall(if Decimal.Value(x) < 0x1_0000_0000_0000_0000 then Decimal.Value(x) else 0xFFFF_FFFF_FFFF_FFFF);
    WrapSmall(v);
    WrapSmall(0);
  }

  lemma {:induction false} OpponentIsMisplaced(a: Segments)
    requires Maximal(a) && !Tame(a)
    ensures Order(a, Opponent(a)) == 1 && Sign(CompareSegments(a, Opponent(a))) != 1
  {
    if a.class_ != Digit || Decimal.Value(a.text) < 0x8000_0000 {
      StrCmpZero(a.text, a.text);
      ContentIsOrder(a.class_, a.text, a.text);
      OpponentIsMisplaced(a.rest);
    } else {
      NumberIsMisplaced(a.text);
      if a.rest.Segment? {
        LongerIsGreater(a.rest.text, "-");
      }
    }
  }

  /** A key is placed right against every tame key exactly when it is tame itself. */
  lemma PlacedRightIffTame(s: string)
    ensures (forall t :: TameKey(t) ==> KeyOrder(s, t) == Order(Split(s), Split(t))) <==> TameKey(s)
  {
    forall t | TameKey(s) && TameKey(t)
      ensures KeyOrder(s, t) == Order(Split(s), Split(t))
    {
      CompareIsOrder(Split(s), Split(t));
    }
    if !TameKey(s) {
      SplitIsMaximal(s);
      var b := Opponent(Split(s));
      OpponentIsTame(Split(s));
      OpponentIsMisplaced(Split(s));
      SplitIsUnique(b);
      assert TameKey(Flatten(b));
    }
  }

  lemma NumberAlone(n: nat)
    ensures Split(Decimal.Print(n)) == Segment(Digit, Decimal.Print(n), End)
  {
    var text := Decimal.Print(n);
    assert Uniform(text, Digit);
    SplitIsUnique(Segment(Digit, text, End));
    assert text + [] == text;
  }

  lemma NumberOrder(n: nat, m: nat)
    ensures KeyOrder(Decimal.Print(n), Decimal.Print(m)) == Sign(Wrap(AsInt(n) - AsInt(m)))
  {
    NumberAlone(n);
    NumberAlone(m);
    var d := CompareContent(Digit, Decimal.Print(n), Decimal.Print(m));
    assert d == Wrap(AsInt(n) - AsInt(m));
    assert CompareSegments(End, End) == 0;
  }

  /** The program's order of two numbers below 2^32. */
  lemma LargeNumberOrder(n: nat, m: nat)
    requires n < 0x1_0000_0000 && m < 0x1_0000_0000
    ensures var x := if n < 0x8000_0000 then n else n - 0x1_0000_0000;
            var y := if m < 0x8000_0000 then m else m - 0x1_0000_0000;
            -0x8000_0000 <= x - y ==>
              KeyOrder(Decimal.Print(n), Decimal.Print(m)) == if x - y < 0x8000_0000 then Sign(x - y) else -1
  {
    NumberOrder(n, m);
    LargeAsInt(n);
    LargeAsInt(m);
    if -0x8000_0000 <= AsInt(n) - AsInt(m) { WrapSign(AsInt(n) - AsInt(m)); }
  }

  lemma LargeAsInt(n: int)
    requires 0 <= n < 0x1_0000_0000
    ensures AsInt(n) == if n < 0x8000_0000 then n else n - 0x1_0000_0000
  {
    Modulo(n);
  }

  lemma WrapSign(x: int)
    requires -0x8000_0000 <= x < 0x1_0000_0000
    ensures Sign(Wrap(x)) == if x < 0x8000_0000 then Sign(x) else -1
  {
    Modulo(x);
  }

  /** Beyond that the comparison is not even transitive: n < 0 < m < n, as for n == 2^31 and m == 1. */
  lemma LargeNumbersCycle(n: nat, m: nat)
    requires 0x8000_0000 <= n < 0x1_0000_0000
    requires 0 < m < 0x8000_0000 && n - 0x8000_0000 <= m
    ensures KeyOrder(Decimal.Print(n), Decimal.Print(0)) == -1
    ensures KeyOrder(Decimal.Print(0), Decimal.Print(m)) == -1
    ensures KeyOrder(Decimal.Print(m), Decimal.Print(n)) == -1
  {
    LargeNumberOrder(n, 0);
    LargeNumberOrder(0, m);
    LargeNumberOrder(m, n);
  }
}
