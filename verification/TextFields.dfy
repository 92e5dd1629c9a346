/** Lines, colon-separated fields and numerals, as the C library and libHX read them. */
module TextFields {
  import opened Prelude
  import Decimal

  // ---------- Lines ----------

  /** Position of the first c; the length of the string if there is none. */
  function IndexOf(s: string, c: char): (i: nat)
    ensures i <= |s| && (i < |s| ==> s[i] == c) && forall j :: 0 <= j < i ==> s[j] != c
  {
    if s == [] || s[0] == c then 0 else 1 + IndexOf(s[1..], c)
  }

  lemma IndexBehind(a: string, c: char, rest: string)
    requires c !in a
    ensures IndexOf(a + [c] + rest, c) == |a|
  {
    var s := a + [c] + rest;
    assert s[|a|] == c;
    forall j | 0 <= j < |a| ensures s[j] != c { assert s[j] == a[j]; assert a[j] in a; }
  }

  lemma IndexNone(a: string, c: char)
    requires c !in a
    ensures IndexOf(a, c) == |a|
  {
  }

  /** The lines of a text, without their newlines; a last line may lack one. */
  function Lines(text: string): seq<string>
    decreases |text|
  {
    if text == [] then []
    else
      var i := IndexOf(text, '\n');
      [text[..i]] + if i == |text| then [] else Lines(text[i + 1..])
  }

  /** What follows the first line. */
  function Behind(text: string): (rest: string)
    ensures text != [] ==> |rest| < |text|
  {
    var i := IndexOf(text, '\n');
    if i == |text| then [] else text[i + 1..]
  }

  lemma FirstLine(text: string)
    requires text != []
    ensures Lines(text) == [text[..IndexOf(text, '\n')]] + Lines(Behind(text))
    ensures Lines(text)[1..] == Lines(Behind(text)) && Lines(text)[0] == text[..IndexOf(text, '\n')]
  {
  }

  lemma NoLines()
    ensures Lines([]) == []
  {
  }

  lemma LineBehind(line: string, rest: string)
    requires '\n' !in line
    ensures Lines(line + "\n" + rest) == [line] + Lines(rest)
  {
    var text := line + ['\n'] + rest;
    IndexBehind(line, '\n', rest);
    assert text[..|line|] == line && text[|line| + 1..] == rest;
  }

  /** Removes carriage returns and newlines from the end. */
  function Chomp(s: string): string {
    if s != [] && (s[|s| - 1] == '\r' || s[|s| - 1] == '\n') then Chomp(s[..|s| - 1]) else s
  }

  // ---------- Fields ----------

  /** At most `max` fields; the last one takes whatever is left. */
  function Split(s: string, max: nat): (fields: seq<string>)
    ensures |fields| >= 1
    decreases max
  {
    var i := IndexOf(s, ':');
    if max <= 1 || i == |s| then [s] else [s[..i]] + Split(s[i + 1..], max - 1)
  }

  lemma SplitFirst(field: string, rest: string, max: nat)
    requires ':' !in field && max > 1
    ensures Split(field + ":" + rest, max) == [field] + Split(rest, max - 1)
  {
    var s := field + [':'] + rest;
    IndexBehind(field, ':', rest);
    assert s[..|field|] == field && s[|field| + 1..] == rest;
  }

  lemma SplitLast(field: string, max: nat)
    requires max <= 1 || ':' !in field
    ensures Split(field, max) == [field]
  {
    if max > 1 { IndexNone(field, ':'); }
  }

  /** Fields with a colon behind each, and what follows them. */
  function Join(fields: seq<string>, last: string): string {
    if fields == [] then last else fields[0] + ":" + Join(fields[1..], last)
  }

  predicate PlainTail(s: string) { '\n' !in s && '\r' !in s }

  /** Text that can stand in a field. */
  predicate Plain(s: string) { ':' !in s && PlainTail(s) }

  predicate AllPlain(fields: seq<string>) { forall i :: 0 <= i < |fields| ==> Plain(fields[i]) }

  lemma {:induction false} SplitJoin(fields: seq<string>, last: string, max: nat)
    requires AllPlain(fields) && |fields| < max
    ensures Split(Join(fields, last), max) == fields + Split(last, max - |fields|)
  {
    hide Split;
    var rest := Split(last, max - |fields|);
    if fields != [] {
      SplitFirst(fields[0], Join(fields[1..], last), max);
      SplitJoin(fields[1..], last, max - 1);
      assert fields + rest == [fields[0]] + (fields[1..] + rest);
    } else {
      assert fields + rest == rest;
    }
  }

  lemma {:induction false} JoinIsPlain(fields: seq<string>, last: string)
    requires AllPlain(fields) && PlainTail(last)
    ensures PlainTail(Join(fields, last))
  {
    if fields != [] {
      JoinIsPlain(fields[1..], last);
    }
  }

  lemma ChompPlain(s: string)
    requires PlainTail(s)
    ensures Chomp(s) == s
  {
  }

  // ---------- Numerals ----------

  function DigitIn(c: char): Option<nat> {
    if '0' <= c <= '9' then Some(c as int - '0' as int)
    else if 'a' <= c <= 'z' then Some(c as int - 'a' as int + 10)
    else if 'A' <= c <= 'Z' then Some(c as int - 'A' as int + 10)
    else None
  }

  predicate IsDigitIn(c: char, base: nat) { DigitIn(c).Some? && DigitIn(c).value < base }

  /** The value of the digits at the front, continuing from acc. */
  function Magnitude(s: string, base: nat, acc: nat): nat {
    if s == [] || !IsDigitIn(s[0], base) then acc else Magnitude(s[1..], base, acc * base + DigitIn(s[0]).value)
  }

  predicate IsSpace(c: char) { c == ' ' || '\t' <= c <= '\r' }

  function SkipSpace(s: string): string { if s != [] && IsSpace(s[0]) then SkipSpace(s[1..]) else s }

  /** Base 0: "0x" begins a hexadecimal number, another "0" an octal one. */
  function AnyBase(s: string): nat {
    if |s| >= 3 && s[0] == '0' && (s[1] == 'x' || s[1] == 'X') && IsDigitIn(s[2], 16) then Magnitude(s[2..], 16, 0)
    else if s != [] && s[0] == '0' then Magnitude(s, 8, 0)
    else Magnitude(s, 10, 0)
  }

  /** The number at the front of a string, with its sign; 0 if there is none. */
  function Number(s: string): int {
    var t := SkipSpace(s);
    if t != [] && t[0] == '-' then 0 - AnyBase(t[1..])
    else if t != [] && t[0] == '+' then AnyBase(t[1..])
    else AnyBase(t)
  }

  const LONG_MAX := 0x7FFF_FFFF_FFFF_FFFF
  const ULONG := 0x1_0000_0000_0000_0000

  /** strtol with base 0, on 64-bit longs. */
  function Strtol(s: string): int {
    var n := Number(s);
    if n > LONG_MAX then LONG_MAX else if n < -LONG_MAX - 1 then -LONG_MAX - 1 else n
  }

  /** strtoul with base 0, stored in an unsigned int. A minus sign negates within the type. */
  function StrtoulAsUint(s: string): u32 {
    var n := Number(s);
    if n >= ULONG || n <= -ULONG then 0xFFFF_FFFF else n % 0x1_0000_0000
  }

  /** strtol with base 0, stored in an unsigned int. */
  function StrtolAsUint(s: string): u32 { Strtol(s) % 0x1_0000_0000 }

  function PrintSigned(n: int): (s: string)
    ensures s != [] && forall c :: c in s ==> c == '-' || Decimal.IsDigit(c)
  {
    if n < 0 then "-" + Decimal.Print(-n) else Decimal.Print(n)
  }

  /** Digits read from the front give the value that is defined from the back. */
  lemma {:induction false} MagnitudeAppend(s: string, d: char, acc: nat)
    requires Decimal.AllDigits(s) && Decimal.IsDigit(d)
    ensures Magnitude(s + [d], 10, acc) == Magnitude(s, 10, acc) * 10 + Decimal.DigitOf(d)
  {
    if s == [] {
      assert s + [d] == [d] && [d][1..] == [];
      assert Magnitude([d][1..], 10, acc * 10 + DigitIn(d).value) == acc * 10 + DigitIn(d).value;
    } else {
      assert s[0] in s && (s + [d])[1..] == s[1..] + [d];
      MagnitudeAppend(s[1..], d, acc * 10 + DigitIn(s[0]).value);
    }
  }

  lemma {:induction false} MagnitudeIsValue(s: string)
    requires Decimal.AllDigits(s)
    ensures Magnitude(s, 10, 0) == Decimal.Value(s)
  {
    if s != [] {
      var front, d := s[..|s| - 1], s[|s| - 1];
      assert s == front + [d] && d in s;
      MagnitudeIsValue(front);
      MagnitudeAppend(front, d, 0);
    }
  }

  lemma AnyBaseOfPrint(n: nat)
    ensures AnyBase(Decimal.Print(n)) == n
  {
    var s := Decimal.Print(n);
    MagnitudeIsValue(s);
    if n == 0 {
      assert s == [Decimal.DigitChar(0)];
      assert Magnitude(s, 8, 0) == Magnitude(s[1..], 8, 0);
    }
  }

  lemma NotSpace(s: string)
    requires s != [] && !IsSpace(s[0])
    ensures SkipSpace(s) == s
  {
  }

  /** What "%ld" and "%u" print is read back as the same number. */
  lemma NumberOfPrint(n: int)
    ensures Number(PrintSigned(n)) == n
  {
    var m := if n < 0 then -n else n;
    var s := Decimal.Print(m);
    assert Decimal.IsDigit(s[0]) by { assert s[0] in s; }
    AnyBaseOfPrint(m);
    NotSpace(PrintSigned(n));
    if n < 0 { assert ("-" + s)[1..] == s; }
  }

  lemma StrtolOfPrint(n: int)
    requires -LONG_MAX - 1 <= n <= LONG_MAX
    ensures Strtol(PrintSigned(n)) == n
  {
    NumberOfPrint(n);
  }

  lemma UintOfPrint(n: u32)
    ensures StrtoulAsUint(Decimal.Print(n)) == n && StrtolAsUint(Decimal.Print(n)) == n
  {
    NumberOfPrint(n);
    assert PrintSigned(n) == Decimal.Print(n);
  }

  // ---------- Numerals by base and range ----------

  lemma DigitAlone(c: char, base: nat, d: nat, acc: nat)
    requires d < base <= 36
    requires c as int == (if d < 10 then 48 + d else 65 + (d - 10)) || (d >= 10 && c as int == 97 + (d - 10))
    ensures Magnitude([c], base, acc) == acc * base + d
  {
    assert DigitIn(c) == Some(d) && [c][1..] == [];
    assert Magnitude([c], base, acc) == Magnitude([], base, acc * base + d);
  }

  /** One more digit: digits are 0 to 9 and then the letters in either case, below the base. */
  lemma {:induction false} DigitBehind(s: string, c: char, base: nat, d: nat, acc: nat)
    requires (forall x :: x in s ==> IsDigitIn(x, base)) && d < base <= 36
    requires c as int == (if d < 10 then 48 + d else 65 + (d - 10)) || (d >= 10 && c as int == 97 + (d - 10))
    ensures Magnitude(s + [c], base, acc) == Magnitude(s, base, acc) * base + d
    decreases |s|
  {
    hide DigitIn;
    if s == [] {
      assert s + [c] == [c];
      DigitAlone(c, base, d, acc);
    } else {
      assert s[0] in s && (s + [c])[1..] == s[1..] + [c] && (s + [c])[0] == s[0];
      DigitBehind(s[1..], c, base, d, acc * base + DigitIn(s[0]).value);
    }
  }

  /** "0x" announces hexadecimal digits, and another "0" octal ones. */
  lemma NumeralExamples()
    ensures Number("0x1F") == 31 && Number("0X1f") == 31 && Number("017") == 15 && Number("19") == 19
  {
    assert "0x1F"[2..] == "1F" && "1F"[1..] == "F" && "F"[1..] == "";
    assert "0X1f"[2..] == "1f" && "1f"[1..] == "f" && "f"[1..] == "";
    assert "017"[1..] == "17" && "17"[1..] == "7" && "7"[1..] == "";
    assert "19"[1..] == "9" && "9"[1..] == "";
  }

  /** A sign may stand in front, and white space before it. */
  lemma SignExamples()
    ensures Number(" \t-12") == -12 && Number("+12") == 12
  {
    assert " \t-12"[1..] == "\t-12" && "\t-12"[1..] == "-12" && SkipSpace("\t-12") == "-12";
    assert "-12"[1..] == "12" && "+12"[1..] == "12" && "12"[1..] == "2" && "2"[1..] == "";
    assert Magnitude("12", 10, 0) == Magnitude("2", 10, 1) == Magnitude("", 10, 12);
  }

  /** What is no digit of the base ends the number. */
  lemma EndExamples()
    ensures Number("12:3") == 12 && Number("08") == 0 && Number("x") == 0 && Number("") == 0
  {
    assert "12:3"[1..] == "2:3" && "2:3"[1..] == ":3";
    assert Magnitude("12:3", 10, 0) == Magnitude("2:3", 10, 1) == Magnitude(":3", 10, 12);
    assert "08"[1..] == "8";
  }

  /** Numbers out of range: a long is clamped; an unsigned int takes the number modulo 2^32, or its largest
      value if the number does not fit 64 bits. */
  lemma OutOfRange(n: int)
    ensures n >= 0x8000_0000_0000_0000 ==> Strtol(PrintSigned(n)) == 0x7FFF_FFFF_FFFF_FFFF
    ensures n < -0x8000_0000_0000_0000 ==> Strtol(PrintSigned(n)) == -0x8000_0000_0000_0000
    ensures var u := StrtoulAsUint(PrintSigned(n));
            if -0x1_0000_0000_0000_0000 < n < 0x1_0000_0000_0000_0000 then n - u == n / 0x1_0000_0000 * 0x1_0000_0000
            else u == 0xFFFF_FFFF
    ensures var l, u := Strtol(PrintSigned(n)), StrtolAsUint(PrintSigned(n));
            l - u == l / 0x1_0000_0000 * 0x1_0000_0000
  {
    hide PrintSigned, Number;
    NumberOfPrint(n);
  }

  /** A minus sign, and then the digits. */
  lemma SignInFront(n: nat)
    ensures PrintSigned(n) == Decimal.Print(n) && (n > 0 ==> PrintSigned(0 - n) == "-" + Decimal.Print(n))
  {
  }

  /** Carriage returns and newlines go from the end of a line, and nothing else does. */
  lemma {:induction false} LineEnds(s: string, c: char)
    ensures c == '\r' || c == '\n' ==> Chomp(s + [c]) == Chomp(s)
    ensures c != '\r' && c != '\n' ==> Chomp(s + [c]) == s + [c]
    ensures Chomp([]) == []
  {
    assert (s + [c])[..|s|] == s;
  }

  /** A last line without a newline is a line as well. */
  lemma LastLine(line: string)
    requires '\n' !in line && line != []
    ensures Lines(line) == [line]
  {
    IndexNone(line, '\n');
    FirstLine(line);
    NoLines();
    assert line[..|line|] == line;
  }
}
