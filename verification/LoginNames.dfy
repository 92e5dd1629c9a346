/** Login names: the proposal from a person's name (src/libvxutil/util.c) and the search for a free
    variant of at most eight characters (src/libvxmdsync/fixup.c). */
module LoginNames {
  import opened Prelude
  import Decimal

  const MAX_LNAME := 8
  const MAX_INDEX := 10000

  function Take(s: string, n: nat): string { if |s| <= n then s else s[..n] }

  // ---------- Free variants ----------

  /** An index has at most four digits exactly when it is below 10000. */
  lemma IndexLength(i: nat)
    ensures |Decimal.Print(i)| <= 4 <==> i < MAX_INDEX
  {
    var a, b, c, d := i / 10, i / 10 / 10, i / 10 / 10 / 10, i / 10 / 10 / 10 / 10;
    assert |Decimal.Print(i)| == if i < 10 then 1 else 1 + |Decimal.Print(a)|;
    assert |Decimal.Print(a)| == if a < 10 then 1 else 1 + |Decimal.Print(b)|;
    assert |Decimal.Print(b)| == if b < 10 then 1 else 1 + |Decimal.Print(c)|;
    assert |Decimal.Print(c)| == if c < 10 then 1 else 1 + |Decimal.Print(d)|;
  }

  /** The i-th name tried for `base`: itself, then with a number in place of its end. */
  function Candidate(base: string, i: nat): (name: string)
    requires i < MAX_INDEX
    ensures |name| <= MAX_LNAME
  {
    if i == 0 then Take(base, MAX_LNAME)
    else
      IndexLength(i);
      var istr := Decimal.Print(i);
      Take(base, MAX_LNAME - |istr|) + istr
  }

  /** The base as long as it fits into eight characters, and the number in decimal behind it. */
  lemma CandidateShape(base: string, i: nat)
    requires i < 10000
    ensures var number := if i == 0 then [] else Decimal.Print(i);
            var kept := |Candidate(base, i)| - |number|;
            && 0 <= kept <= |base| && Candidate(base, i) == base[..kept] + number
            && (kept == |base| || |Candidate(base, i)| == 8) && |Candidate(base, i)| <= 8
  {
    if i > 0 { IndexLength(i); }
  }

  /** Formats a numbered name; None stands for the abort on an index that is too long. */
  method FormatName(name: string, idx: nat) returns (dest: Option<string>)
    requires idx > 0
    ensures dest == if idx < MAX_INDEX then Some(Candidate(name, idx)) else None
  {
    var istr := Decimal.Print(idx);
    var ret := |istr|;
    IndexLength(idx);
    if ret >= MAX_LNAME - 3 { return None; }
    dest := Some(Take(name, MAX_LNAME - ret) + istr);
  }

  /** Index of the first candidate from the i-th on that is not taken; MAX_INDEX when all are. */
  function FreeIndex(base: string, taken: set<string>, i: nat): (k: nat)
    requires i <= MAX_INDEX
    ensures i <= k <= MAX_INDEX
    ensures forall j :: i <= j < k ==> Candidate(base, j) in taken
    ensures k < MAX_INDEX ==> Candidate(base, k) !in taken
    decreases MAX_INDEX - i
  {
    if i == MAX_INDEX || Candidate(base, i) !in taken then i
    else FreeIndex(base, taken, i + 1)
  }

  /** The first free candidate, or None when every candidate is taken. */
  function PickName(base: string, taken: set<string>): (r: Option<string>)
    ensures r.Some? ==> r.value !in taken && |r.value| <= MAX_LNAME
  {
    var k := FreeIndex(base, taken, 0);
    if k < MAX_INDEX then Some(Candidate(base, k)) else None
  }

  /** The search loop of the fix-up. */
  method FindFree(base: string, taken: set<string>) returns (r: Option<string>)
    ensures r == PickName(base, taken)
  {
    var i, tmp := 0, Take(base, MAX_LNAME);
    while tmp in taken
      invariant i < MAX_INDEX && tmp == Candidate(base, i)
      invariant FreeIndex(base, taken, i) == FreeIndex(base, taken, 0)
      decreases MAX_INDEX - i
    {
      i := i + 1;
      var dest := FormatName(base, i);
      if dest.None? { return None; }
      tmp := dest.value;
    }
    r := Some(tmp);
  }

  /** `name` is the k-th candidate, it is free, and all earlier ones are taken. */
  predicate IsFirst(base: string, taken: set<string>, name: string, k: nat) {
    && k < MAX_INDEX && name == Candidate(base, k) && name !in taken
    && forall j :: 0 <= j < k ==> Candidate(base, j) in taken
  }

  /** The chosen name is the first free candidate, and there is none exactly when all are taken. */
  lemma PickedIsFirst(base: string, taken: set<string>, name: string)
    ensures PickName(base, taken) == Some(name) <==> exists k: nat :: IsFirst(base, taken, name, k)
    ensures PickName(base, taken) == None <==> forall j :: 0 <= j < MAX_INDEX ==> Candidate(base, j) in taken
  {
    var k := FreeIndex(base, taken, 0);
    if k < MAX_INDEX {
      assert IsFirst(base, taken, Candidate(base, k), k);
      assert Candidate(base, k) !in taken;
    }
    forall k': nat | IsFirst(base, taken, name, k')
      ensures k' == k
    {
    }
  }

  // ---------- Candidates of a proposed name are distinct ----------

  predicate IsLower(c: char) { 'a' <= c <= 'z' }

  /** What vxutil_propose_lname delivers: up to seven letters, or a padded short name. */
  predicate Proposed(base: string) {
    || (2 <= |base| <= 7 && forall c :: c in base ==> IsLower(c))
    || (|base| == 2 && IsLower(base[0]) && base[1] == '0')
    || base == "0"
  }

  /** The longest all-digit end of a string. */
  function DigitTail(s: string): string {
    if s == [] || !Decimal.IsDigit(s[|s| - 1]) then [] else DigitTail(s[..|s| - 1]) + [s[|s| - 1]]
  }

  lemma {:induction false} DigitTailAppend(s: string, digits: string)
    requires Decimal.AllDigits(digits)
    ensures DigitTail(s + digits) == DigitTail(s) + digits
  {
    if digits == [] {
      assert s + digits == s;
    } else {
      var d := digits[..|digits| - 1];
      assert (s + digits)[..|s + digits| - 1] == s + d;
      DigitTailAppend(s, d);
    }
  }

  function Padding(base: string): string { if base != [] && base[|base| - 1] == '0' then "0" else "" }

  lemma PaddingOf(base: string)
    requires Proposed(base)
    ensures DigitTail(base) == Padding(base)
  {
    if |base| == 2 && base[1] == '0' {
      assert base[1] in base;
      assert base[..1] == [base[0]];
    } else if |base| > 1 {
      assert base[|base| - 1] in base;
    } else {
      assert base[..0] == [];
    }
  }

  lemma HeadTail(base: string, n: nat)
    requires Proposed(base) && n >= 4
    ensures DigitTail(Take(base, n)) == Padding(base)
  {
    PaddingOf(base);
    if |base| > n {
      assert Take(base, n)[n - 1] in base && base[|base| - 1] in base;
    }
  }

  lemma CandidateTail(base: string, i: nat)
    requires Proposed(base) && i < MAX_INDEX
    ensures DigitTail(Candidate(base, i)) == Padding(base) + if i == 0 then [] else Decimal.Print(i)
  {
    var istr := if i == 0 then [] else Decimal.Print(i);
    if i > 0 { IndexLength(i); }
    var head := Take(base, MAX_LNAME - |istr|);
    assert Candidate(base, i) == head + istr;
    HeadTail(base, MAX_LNAME - |istr|);
    DigitTailAppend(head, istr);
  }

  /** The 10000 candidates of a proposed name are pairwise distinct. */
  lemma CandidatesDistinct(base: string, i: nat, j: nat)
    requires Proposed(base) && i < MAX_INDEX && j < MAX_INDEX
    ensures Candidate(base, i) == Candidate(base, j) <==> i == j
  {
    CandidateTail(base, i);
    CandidateTail(base, j);
    if Candidate(base, i) == Candidate(base, j) {
      var x, y := if i == 0 then [] else Decimal.Print(i), if j == 0 then [] else Decimal.Print(j);
      var z := Padding(base);
      assert (z + x)[|z|..] == x && (z + y)[|z|..] == y;
      Decimal.PrintInjective(i, j);
    }
  }

  function Candidates(base: string, n: nat): set<string>
    requires n <= MAX_INDEX
  {
    if n == 0 then {} else Candidates(base, n - 1) + {Candidate(base, n - 1)}
  }

  lemma {:induction false} IndexInCandidates(base: string, n: nat, x: string) returns (i: nat)
    requires n <= MAX_INDEX && x in Candidates(base, n)
    ensures i < n && x == Candidate(base, i)
  {
    if x == Candidate(base, n - 1) {
      i := n - 1;
    } else {
      i := IndexInCandidates(base, n - 1, x);
    }
  }

  lemma LastIsNew(base: string, n: nat)
    requires Proposed(base) && 0 < n <= MAX_INDEX
    ensures Candidate(base, n - 1) !in Candidates(base, n - 1)
  {
    if Candidate(base, n - 1) in Candidates(base, n - 1) {
      var i := IndexInCandidates(base, n - 1, Candidate(base, n - 1));
      CandidatesDistinct(base, i, n - 1);
    }
  }

  lemma {:induction false} CandidateCount(base: string, n: nat)
    requires Proposed(base) && n <= MAX_INDEX
    ensures |Candidates(base, n)| == n
  {
    if n > 0 {
      CandidateCount(base, n - 1);
      LastIsNew(base, n);
    }
  }

  lemma SubsetSize<T>(a: set<T>, b: set<T>)
    requires a <= b
    ensures |a| <= |b|
  {
    assert b == a + (b - a);
  }

  /** The search for a variant of a proposed name gives up only if 10000 names are taken. */
  lemma AbortNeedsManyNames(base: string, taken: set<string>)
    requires Proposed(base) && PickName(base, taken) == None
    ensures |taken| >= MAX_INDEX
  {
    PickedIsFirst(base, taken, base);
    CandidateCount(base, MAX_INDEX);
    forall x | x in Candidates(base, MAX_INDEX) ensures x in taken { var i := IndexInCandidates(base, MAX_INDEX, x); }
    SubsetSize(Candidates(base, MAX_INDEX), taken);
  }

  // ---------- The proposal ----------

  predicate IsLetter(c: char) { 'A' <= c <= 'Z' || 'a' <= c <= 'z' }

  /** One row of the substitution table: a multi-byte sequence and its replacement in letters. */
  datatype Substitution = Substitution(pattern: string, replacement: string)

  predicate ValidTable(table: seq<Substitution>) {
    forall r :: r in table ==> r.pattern != [] && forall c :: c in r.replacement ==> IsLetter(c)
  }

  function Find(table: seq<Substitution>, src: string): (r: Option<Substitution>)
    ensures r.Some? ==> r.value in table && r.value.pattern <= src
  {
    if table == [] then None
    else if table[0].pattern <= src then Some(table[0])
    else Find(table[1..], src)
  }

  /** Row k is the first one whose pattern the text begins with. */
  predicate FirstRow(table: seq<Substitution>, src: string, k: nat) {
    k < |table| && table[k].pattern <= src && forall j :: 0 <= j < k ==> !(table[j].pattern <= src)
  }

  lemma {:induction false} FindsFirstRow(table: seq<Substitution>, src: string, k: nat)
    requires FirstRow(table, src, k)
    ensures Find(table, src) == Some(table[k])
  {
    if k > 0 {
      var rest := table[1..];
      assert !(table[0].pattern <= src);
      forall j | 0 <= j < k - 1 ensures !(rest[j].pattern <= src) { assert rest[j] == table[j + 1]; }
      FindsFirstRow(rest, src, k - 1);
    }
  }

  lemma {:induction false} FindsNoRow(table: seq<Substitution>, src: string)
    requires forall j :: 0 <= j < |table| ==> !(table[j].pattern <= src)
    ensures Find(table, src) == None
  {
    if table != [] {
      var rest := table[1..];
      forall j | 0 <= j < |rest| ensures !(rest[j].pattern <= src) { assert rest[j] == table[j + 1]; }
      FindsNoRow(rest, src);
    }
  }

  /** Letters pass, table entries are replaced while they fit, anything else is dropped. */
  function Transform(table: seq<Substitution>, src: string, room: nat): string
    requires ValidTable(table)
    decreases |src|
  {
    if room == 0 || src == [] then []
    else if IsLetter(src[0]) then [src[0]] + Transform(table, src[1..], room - 1)
    else if src[0] as int < 0x80 || Find(table, src).None? then Transform(table, src[1..], room)
    else
      var row := Find(table, src).value;
      if |row.replacement| <= room
      then row.replacement + Transform(table, src[|row.pattern|..], room - |row.replacement|)
      else []
  }

  method Transform7(table: seq<Substitution>, source: string, dsize: nat) returns (dest: string)
    requires ValidTable(table) && dsize > 0
    ensures dest == Transform(table, source, dsize - 1)
  {
    var room: nat, src := dsize - 1, source;
    dest := [];
    while room > 0 && src != []
      invariant dest + Transform(table, src, room) == Transform(table, source, dsize - 1)
      decreases |src|
    {
      if IsLetter(src[0]) {
        dest, src, room := dest + [src[0]], src[1..], room - 1;
      } else if src[0] as int >= 0x80 {
        var row := Find(table, src);
        if row.Some? {
          if room >= |row.value.replacement| {
            dest := dest + row.value.replacement;
            room := room - |row.value.replacement|;
          } else {
            room := 0;
          }
          src := src[|row.value.pattern|..];
        } else {
          src := src[1..];
        }
      } else {
        src := src[1..];
      }
    }
  }

  /** The result is made of letters only and fits its buffer. */
  lemma {:induction false} TransformLetters(table: seq<Substitution>, src: string, room: nat)
    requires ValidTable(table)
    ensures |Transform(table, src, room)| <= room
    ensures forall c :: c in Transform(table, src, room) ==> IsLetter(c)
    decreases |src|
  {
    if room > 0 && src != [] {
      if IsLetter(src[0]) {
        TransformLetters(table, src[1..], room - 1);
      } else if src[0] as int < 0x80 || Find(table, src).None? {
        TransformLetters(table, src[1..], room);
      } else {
        var row := Find(table, src).value;
        if |row.replacement| <= room {
          TransformLetters(table, src[|row.pattern|..], room - |row.replacement|);
        }
      }
    }
  }

  /** A sequence outside ASCII becomes the replacement of its first row, and ends the text if that does not
      fit; a byte that no row begins with is dropped. */
  lemma TransformRow(table: seq<Substitution>, src: string, room: nat, k: nat)
    requires ValidTable(table) && room > 0 && src != [] && src[0] as int >= 128
    ensures FirstRow(table, src, k) ==>
              var row := table[k];
              Transform(table, src, room)
              == if |row.replacement| <= room
                 then row.replacement + Transform(table, src[|row.pattern|..], room - |row.replacement|)
                 else []
    ensures (forall j :: 0 <= j < |table| ==> !(table[j].pattern <= src)) ==>
              Transform(table, src, room) == Transform(table, src[1..], room)
  {
    if FirstRow(table, src, k) { FindsFirstRow(table, src, k); }
    if forall j :: 0 <= j < |table| ==> !(table[j].pattern <= src) { FindsNoRow(table, src); }
  }

  function LettersOf(s: string): string {
    if s == [] then [] else (if IsLetter(s[0]) then [s[0]] else []) + LettersOf(s[1..])
  }

  lemma OneLetter(c: char)
    ensures LettersOf([c]) == (if 'A' <= c <= 'Z' || 'a' <= c <= 'z' then [c] else []) && LettersOf([]) == []
  {
    assert [c][1..] == [];
  }

  /** The letters of a text, one by one: those of the English alphabet, in either case. */
  lemma {:induction false} LettersOneByOne(s: string, c: char)
    ensures LettersOf(s + [c]) == LettersOf(s) + if 'A' <= c <= 'Z' || 'a' <= c <= 'z' then [c] else []
  {
    hide IsLetter;
    if s == [] {
      assert s + [c] == [c];
      OneLetter(c);
    } else {
      assert (s + [c])[1..] == s[1..] + [c] && (s + [c])[0] == s[0];
      LettersOneByOne(s[1..], c);
    }
  }

  lemma TakeFirst(c: char, s: string, room: nat)
    ensures Take([c] + s, room) == if room == 0 then [] else [c] + Take(s, room - 1)
  {
  }

  /** Of plain ASCII text these are its first letters. */
  lemma {:induction false} PlainTransform(table: seq<Substitution>, src: string, room: nat)
    requires ValidTable(table) && forall c :: c in src ==> c as int < 0x80
    ensures Transform(table, src, room) == Take(LettersOf(src), room)
  {
    hide IsLetter;
    if src != [] {
      assert src[0] in src && forall c :: c in src[1..] ==> c in src;
      var rest := if IsLetter(src[0]) && room > 0 then room - 1 else room;
      PlainTransform(table, src[1..], rest);
      TakeFirst(src[0], LettersOf(src[1..]), room);
    }
  }

  // ---------- The word of the surname ----------

  predicate IsSpace(c: char) { c in {' ', '\t', '\n', '\r', 11 as char, 12 as char} }

  predicate IsUpper(c: char) { 'A' <= c <= 'Z' }

  function SkipSpaces(s: string, i: nat): (k: nat)
    requires i <= |s|
    ensures i <= k <= |s| && (k < |s| ==> !IsSpace(s[k])) && forall j :: i <= j < k ==> IsSpace(s[j])
    decreases |s| - i
  {
    if i < |s| && IsSpace(s[i]) then SkipSpaces(s, i + 1) else i
  }

  function SkipWord(s: string, i: nat): (k: nat)
    requires i <= |s|
    ensures i <= k <= |s| && (k < |s| ==> IsSpace(s[k])) && forall j :: i <= j < k ==> !IsSpace(s[j])
    decreases |s| - i
  {
    if i < |s| && !IsSpace(s[i]) then SkipWord(s, i + 1) else i
  }

  /** Position k begins a word. */
  predicate WordAt(s: string, k: nat) { k < |s| && !IsSpace(s[k]) && (k == 0 || IsSpace(s[k - 1])) }

  predicate UpperWordAt(s: string, k: nat) { WordAt(s, k) && IsUpper(s[k]) }

  /** The first word from i on that begins with an upper-case letter, or the end. */
  function FindUpper(s: string, i: nat): (k: nat)
    requires i <= |s| && (i < |s| ==> WordAt(s, i))
    ensures i <= k <= |s| && (k < |s| ==> UpperWordAt(s, k)) && forall j :: i <= j < k ==> !UpperWordAt(s, j)
    decreases |s| - i
  {
    if i == |s| || IsUpper(s[i]) then i else FindUpper(s, SkipSpaces(s, SkipWord(s, i)))
  }

  function FindBlank(s: string, i: nat): (k: nat)
    requires i <= |s|
    ensures i <= k <= |s| && (k < |s| ==> s[k] == ' ') && forall j :: i <= j < k ==> s[j] != ' '
    decreases |s| - i
  {
    if i < |s| && s[i] != ' ' then FindBlank(s, i + 1) else i
  }

  /** Where the surname's word begins: the upper-case word, or else the second word, or else the first.
      Words end at any white space, but the second one is looked for behind a blank. */
  function SurnameStart(s: string): (k: nat)
    ensures k <= |s|
    ensures (exists j :: UpperWordAt(s, j)) ==> UpperWordAt(s, k) && forall j :: 0 <= j < k ==> !UpperWordAt(s, j)
  {
    var start := SkipSpaces(s, 0);
    var upper, blank := FindUpper(s, start), FindBlank(s, start);
    if upper < |s| then upper else if blank < |s| then SkipSpaces(s, blank) else start
  }

  /** White space is the blank, and the five control characters from the tab on. */
  lemma WhiteSpaceIs(c: char)
    ensures IsSpace(c) <==> c as int in {32, 9, 10, 11, 12, 13}
  {
  }

  /** A word begins at the first upper-case letter behind white space or at the start, if there is no
      upper-case letter before it. */
  lemma FirstUpperWord(p: string, c: char, x: string)
    requires 'A' <= c <= 'Z' && (p == [] || p[|p| - 1] in " \t\n\r") && forall a :: a in p ==> !('A' <= a <= 'Z')
    ensures SurnameStart(p + [c] + x) == |p|
  {
    var s := p + [c] + x;
    assert s[|p|] == c;
    assert forall j :: 0 <= j < |p| ==> s[j] == p[j] && p[j] in p;
    assert UpperWordAt(s, |p|);
  }

  predicate NoUpper(s: string) { forall a :: a in s ==> !('A' <= a <= 'Z') }

  lemma NoUpperWord(s: string)
    requires NoUpper(s)
    ensures FindUpper(s, SkipSpaces(s, 0)) == |s|
  {
    var k := FindUpper(s, SkipSpaces(s, 0));
    if k < |s| { assert s[k] in s; }
  }

  /** Without one it is the second word, behind a blank, and failing that the first. */
  lemma SecondWord(w: string, y: string)
    requires NoUpper(w + [' '] + y) && w != [] && forall a :: a in w ==> !IsSpace(a)
    requires y != [] && !IsSpace(y[0])
    ensures SurnameStart(w + [' '] + y) == |w| + 1
  {
    var s := w + [' '] + y;
    assert forall j :: 0 <= j < |w| ==> s[j] == w[j] && w[j] in w;
    assert s[|w|] == ' ' && s[|w| + 1] == y[0];
    NoUpperWord(s);
    var blank := FindBlank(s, 0);
  }

  lemma OnlyWord(s: string)
    requires NoUpper(s) && ' ' !in s && (s == [] || !IsSpace(s[0]))
    ensures SurnameStart(s) == 0
  {
    NoUpperWord(s);
    var blank := FindBlank(s, 0);
    assert blank == |s|;
  }

  /** The examples in the program's documentation, by where the word begins. */
  lemma SurnameExamples()
    ensures SurnameStart("van der Waals") == 8 && SurnameStart("van der waals") == 4 && SurnameStart("waals") == 0
  {
    hide SurnameStart;
    FirstUpperExample();
    SecondExample();
    OnlyWord("waals");
  }

  lemma FirstUpperExample()
    ensures SurnameStart("van der Waals") == 8
  {
    hide SurnameStart;
    FirstUpperWord("van der ", 'W', "aals");
    assert "van der " + ['W'] + "aals" == "van der Waals";
  }

  lemma SecondExample()
    ensures SurnameStart("van der waals") == 4
  {
    hide SurnameStart;
    assert "van" + [' '] + "der waals" == "van der waals";
    SecondWord("van", "der waals");
  }

  method PassSpaces(s: string, i: nat) returns (p: nat)
    requires i <= |s|
    ensures p == SkipSpaces(s, i)
  {
    p := i;
    while p < |s| && IsSpace(s[p])
      invariant i <= p <= |s| && SkipSpaces(s, p) == SkipSpaces(s, i)
    {
      p := p + 1;
    }
  }

  method PassWord(s: string, i: nat) returns (p: nat)
    requires i <= |s|
    ensures p == SkipWord(s, i)
  {
    p := i;
    while p < |s| && !IsSpace(s[p])
      invariant i <= p <= |s| && SkipWord(s, p) == SkipWord(s, i)
    {
      p := p + 1;
    }
  }

  method SurnamePointer(s: string) returns (p: nat)
    ensures p == SurnameStart(s)
  {
    hide IsSpace;
    var start := PassSpaces(s, 0);
    p := start;
    while p < |s|
      invariant start <= p <= |s| && (p < |s| ==> WordAt(s, p)) && FindUpper(s, p) == FindUpper(s, start)
    {
      if IsUpper(s[p]) { return p; }
      p := PassWord(s, p);
      p := PassSpaces(s, p);
    }
    p := start;
    while p < |s| && s[p] != ' '
      invariant start <= p <= |s| && FindBlank(s, p) == FindBlank(s, start)
    {
      p := p + 1;
    }
    if p == |s| { return start; }
    p := PassSpaces(s, p);
  }

  function ToLower(c: char): char {
    if 'A' <= c <= 'Z' then (c as int + 32) as char else c
  }

  function Lower(s: string): (r: string)
    ensures |r| == |s| && forall i :: 0 <= i < |s| ==> r[i] == ToLower(s[i])
  {
    seq(|s|, i requires 0 <= i < |s| => ToLower(s[i]))
  }

  /** The letters of the name: those of the first name alone, or its first letter and up to six of the
      surname. With no letter in the first name the source writes a NUL in front of the surname, which
      ends the string. */
  function NameLetters(table: seq<Substitution>, surname: Option<string>, firstname: string): string
    requires ValidTable(table)
  {
    var first := Transform(table, firstname, 7);
    if surname.None? then first
    else if first == [] then []
    else [first[0]] + Transform(table, surname.value[SurnameStart(surname.value)..], 6)
  }

  /** Lower case, letter by letter: the k-th capital becomes the k-th small letter, and all else stays. */
  lemma LowerIsByAlphabet(c: char, k: nat)
    requires k < 26
    ensures ToLower(('A' as int + k) as char) == ('a' as int + k) as char
    ensures !('A' <= c <= 'Z') ==> ToLower(c) == c
  {
  }

  lemma {:induction false} OnlyLetters(s: string)
    requires forall c :: c in s ==> IsLetter(c)
    ensures LettersOf(s) == s
  {
    if s != [] {
      assert s[0] in s && forall c :: c in s[1..] ==> c in s;
      OnlyLetters(s[1..]);
    }
  }

  /** Names of letters only: the first letter of the first name and up to six of the surname, or up to seven
      of the first name where there is no surname. */
  lemma LetterNames(table: seq<Substitution>, surname: string, firstname: string)
    requires ValidTable(table) && firstname != []
    requires forall c :: c in surname + firstname ==> 'A' <= c <= 'Z' || 'a' <= c <= 'z'
    ensures NameLetters(table, Some(surname), firstname)
            == [firstname[0]] + if |surname| <= 6 then surname else surname[..6]
    ensures NameLetters(table, None, firstname) == if |firstname| <= 7 then firstname else firstname[..7]
  {
    assert forall c :: c in surname ==> c in surname + firstname;
    assert forall c :: c in firstname ==> c in surname + firstname;
    OnlyLetters(surname);
    OnlyLetters(firstname);
    PlainTransform(table, firstname, 7);
    PlainTransform(table, surname, 6);
    LettersStartAtOnce(surname);
    assert surname[0..] == surname;
  }

  lemma LettersStartAtOnce(s: string)
    requires forall c :: c in s ==> IsLetter(c)
    ensures SurnameStart(s) == 0
  {
    forall i | 0 <= i < |s| ensures !IsSpace(s[i]) { assert s[i] in s; }
    var blank := FindBlank(s, 0);
    if s != [] && IsUpper(s[0]) { assert UpperWordAt(s, 0); }
  }

  lemma PaddedName(letters: string)
    requires |letters| <= 7 && forall c :: c in letters ==> IsLetter(c)
    ensures var pad := if |letters| < 2 then "0" else "";
            Lower(letters + pad) == Lower(letters) + pad && Proposed(Lower(letters + pad))
  {
    var pad := if |letters| < 2 then "0" else "";
    var name := Lower(letters + pad);
    assert name == Lower(letters) + pad;
    assert forall i :: 0 <= i < |letters| ==> letters[i] in letters && name[i] == ToLower(letters[i]);
  }

  /** The buffer has room for the padding. */
  method ProposeLname(table: seq<Substitution>, surname: Option<string>, firstname: string) returns (name: string)
    requires ValidTable(table)
    ensures Proposed(name)
    ensures var letters := NameLetters(table, surname, firstname);
            name == Lower(letters) + if |letters| < 2 then "0" else ""
  {
    var first := Transform7(table, firstname, 8);
    TransformLetters(table, firstname, 7);
    var dest := first;
    if surname.Some? {
      var start := SurnamePointer(surname.value);
      var word := surname.value[start..];
      var last := Transform7(table, word, 7);
      TransformLetters(table, word, 6);
      dest := if first == [] then [] else [first[0]] + last;
    }
    assert forall c :: c in dest ==> IsLetter(c);
    PaddedName(dest);
    if |dest| < 2 { dest := dest + "0"; }
    name := Lower(dest);
  }
}
