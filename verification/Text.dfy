/** Text handling as the agent uses it from Go's strings, strconv and fmt packages,
    and the few laws the codecs and the name order are built on. */
module Text {

  datatype Option<+T> = None | Some(value: T)

  // ----- byte order -----

  /** Go's `<` on strings: the first differing character decides, a proper prefix is smaller. */
  predicate Less(a: string, b: string) {
    b != "" && (a == "" || a[0] < b[0] || (a[0] == b[0] && Less(a[1..], b[1..])))
  }

  lemma {:induction false} LessIrreflexive(a: string)
    ensures !Less(a, a)
  {
    if a != "" { LessIrreflexive(a[1..]); }
  }

  lemma {:induction false} LessTotal(a: string, b: string)
    ensures Less(a, b) || Less(b, a) || a == b
  {
    if a != "" && b != "" && a[0] == b[0] {
      LessTotal(a[1..], b[1..]);
      if a[1..] == b[1..] {
        assert a == [a[0]] + a[1..] && b == [b[0]] + b[1..];
      }
    }
  }

  lemma {:induction false} LessTransitive(a: string, b: string, c: string)
    requires Less(a, b) && Less(b, c)
    ensures Less(a, c)
  {
    if a != "" && a[0] == b[0] && b[0] == c[0] {
      LessTransitive(a[1..], b[1..], c[1..]);
    }
  }

  lemma LessAsymmetric(a: string, b: string)
    requires Less(a, b)
    ensures !Less(b, a)
  {
    if Less(b, a) {
      LessTransitive(a, b, a);
      LessIrreflexive(a);
    }
  }

  /** Strictly increasing: sorted and free of duplicates, as the Flux client delivers addresses. */
  ghost predicate Increasing(s: seq<string>) {
    forall i, j | 0 <= i < j < |s| :: Less(s[i], s[j])
  }

  /** sort.Strings. */
  function Insert(x: string, s: seq<string>): (r: seq<string>)
    ensures multiset(r) == multiset(s) + multiset{x}
  {
    if s == [] || !Less(s[0], x) then [x] + s
    else
      assert s == [s[0]] + s[1..];
      [s[0]] + Insert(x, s[1..])
  }

  function SortStrings(s: seq<string>): (r: seq<string>)
    ensures multiset(r) == multiset(s)
  {
    if s == [] then []
    else
      assert s == [s[0]] + s[1..];
      Insert(s[0], SortStrings(s[1..]))
  }

  lemma {:induction false} SortIncreasing(s: seq<string>)
    requires Increasing(s)
    ensures SortStrings(s) == s
  {
    if s != [] {
      SortIncreasing(s[1..]);
      if |s| > 1 {
        LessAsymmetric(s[0], s[1]);
      }
      assert s == [s[0]] + s[1..];
    }
  }

  // ----- splitting, joining, trimming -----

  function Split(s: string, sep: char): (parts: seq<string>)
    ensures |parts| >= 1
  {
    if s == "" then [""]
    else if s[0] == sep then [""] + Split(s[1..], sep)
    else
      var rest := Split(s[1..], sep);
      [[s[0]] + rest[0]] + rest[1..]
  }

  function Join(parts: seq<string>, sep: string): string {
    if parts == [] then ""
    else if |parts| == 1 then parts[0]
    else parts[0] + sep + Join(parts[1..], sep)
  }

  lemma {:induction false} SplitPrefix(a: string, b: string, sep: char)
    requires sep !in a
    ensures Split(a, sep) == [a]
    ensures Split(a + [sep] + b, sep) == [a] + Split(b, sep)
  {
    if a == "" {
      assert a + [sep] + b == [sep] + b;
    } else {
      SplitPrefix(a[1..], b, sep);
      assert (a + [sep] + b)[1..] == a[1..] + [sep] + b;
      assert a == [a[0]] + a[1..];
    }
  }

  lemma SplitStep(a: string, b: string, sep: char)
    requires a != ""
    ensures Split(a + [sep] + b, sep) ==
      var rest := Split(a[1..] + [sep] + b, sep);
      if a[0] == sep then [""] + rest else [[a[0]] + rest[0]] + rest[1..]
  {
    assert (a + [sep] + b)[1..] == a[1..] + [sep] + b;
  }

  lemma Regroup(c: char, x: seq<string>, y: seq<string>)
    requires x != []
    ensures [[c] + (x + y)[0]] + (x + y)[1..] == [[c] + x[0]] + x[1..] + y
    ensures [""] + (x + y) == [""] + x + y
  {
  }

  /** A separator between two texts separates their parts. */
  lemma {:induction false} SplitAppend(a: string, b: string, sep: char)
    ensures Split(a + [sep] + b, sep) == Split(a, sep) + Split(b, sep)
  {
    if a == "" {
      assert a + [sep] + b == [sep] + b;
    } else {
      SplitAppend(a[1..], b, sep);
      SplitStep(a, b, sep);
      Regroup(a[0], Split(a[1..], sep), Split(b, sep));
    }
  }

  lemma {:induction false} SplitFree(s: string, sep: char, i: nat)
    requires i < |Split(s, sep)|
    ensures sep !in Split(s, sep)[i]
  {
    if s == "" {
    } else if s[0] == sep {
      if i > 0 { SplitFree(s[1..], sep, i - 1); }
    } else {
      SplitFree(s[1..], sep, i);
    }
  }

  /** Splitting what Join put together gives back the parts, as long as none holds the separator. */
  lemma {:induction false} SplitJoin(parts: seq<string>, sep: char)
    requires parts != [] && forall p | p in parts :: sep !in p
    ensures Split(Join(parts, [sep]), sep) == parts
  {
    if |parts| == 1 {
      SplitPrefix(parts[0], "", sep);
      assert parts == [parts[0]];
    } else {
      SplitPrefix(parts[0], Join(parts[1..], [sep]), sep);
      SplitJoin(parts[1..], sep);
      assert parts == [parts[0]] + parts[1..];
    }
  }

  /** Split loses nothing: its parts, free of the separator, join to the text again. */
  lemma {:induction false} JoinSplit(s: string, sep: char)
    ensures Join(Split(s, sep), [sep]) == s
  {
    if s != "" {
      JoinSplit(s[1..], sep);
      var rest := Split(s[1..], sep);
      assert s == [s[0]] + s[1..];
      if s[0] == sep {
        assert ([""] + rest)[1..] == rest;
      } else {
        assert ([[s[0]] + rest[0]] + rest[1..])[1..] == rest[1..];
      }
    }
  }

  /** strings.Cut: the text before and after the first separator, if there is one. */
  function Cut(s: string, sep: char): Option<(string, string)> {
    if s == "" then None
    else if s[0] == sep then Some(("", s[1..]))
    else match Cut(s[1..], sep)
      case None => None
      case Some(halves) => Some(([s[0]] + halves.0, halves.1))
  }

  lemma {:induction false} CutAt(a: string, b: string, sep: char)
    requires sep !in a
    ensures Cut(a + [sep] + b, sep) == Some((a, b))
  {
    if a == "" {
      assert a + [sep] + b == [sep] + b;
    } else {
      CutAt(a[1..], b, sep);
      assert (a + [sep] + b)[1..] == a[1..] + [sep] + b;
      assert a == [a[0]] + a[1..];
    }
  }

  lemma {:induction false} CutExactly(s: string, sep: char)
    ensures Cut(s, sep).None? <==> sep !in s
    ensures Cut(s, sep).Some? ==>
              var halves := Cut(s, sep).value; s == halves.0 + [sep] + halves.1 && sep !in halves.0
  {
    if s != "" { CutExactly(s[1..], sep); }
  }

  /** Position of the first occurrence of c, or -1. */
  function IndexOf(s: string, c: char): (i: int)
    ensures -1 <= i < |s|
    ensures 0 <= i ==> s[i] == c
    ensures forall k | 0 <= k < if i < 0 then |s| else i :: s[k] != c
  {
    if s == "" then -1
    else if s[0] == c then 0
    else
      var i := IndexOf(s[1..], c);
      assert forall k | 1 <= k < |s| :: s[k] == s[1..][k - 1];
      if i < 0 then -1 else i + 1
  }

  /** Position of the last occurrence of c, or -1. */
  function LastIndexOf(s: string, c: char): (i: int)
    ensures -1 <= i < |s|
    ensures 0 <= i ==> s[i] == c
    ensures forall k | i < k < |s| :: s[k] != c
  {
    if s == "" then -1
    else if s[|s| - 1] == c then |s| - 1
    else LastIndexOf(s[..|s| - 1], c)
  }

  /** unicode.IsSpace. */
  predicate IsSpace(c: char) {
    '\t' <= c <= '\r' || c == ' ' || c == '\U{85}' || c == '\U{A0}' || c == '\U{1680}' ||
    '\U{2000}' <= c <= '\U{200A}' || c == '\U{2028}' || c == '\U{2029}' || c == '\U{202F}' ||
    c == '\U{205F}' || c == '\U{3000}'
  }

  lemma Spaces()
    ensures IsSpace('\t') && IsSpace('\n') && IsSpace('\U{0B}') && IsSpace('\U{0C}') && IsSpace('\r') && IsSpace(' ')
    ensures IsSpace('\U{85}') && IsSpace('\U{A0}') && IsSpace('\U{1680}') && IsSpace('\U{2028}') && IsSpace('\U{2029}')
    ensures IsSpace('\U{202F}') && IsSpace('\U{205F}') && IsSpace('\U{3000}')
    ensures forall c | '\U{2000}' <= c <= '\U{200A}' :: IsSpace(c)
    ensures !IsSpace('\U{08}') && !IsSpace('\U{0E}') && !IsSpace('\U{1FFF}') && !IsSpace('\U{200B}')
    ensures forall c | '!' <= c <= '~' :: !IsSpace(c)
  {
  }

  function TrimLeft(s: string): string {
    if s != "" && IsSpace(s[0]) then TrimLeft(s[1..]) else s
  }

  function TrimRight(s: string): (r: string)
    ensures r <= s
    ensures r != "" ==> !IsSpace(r[|r| - 1])
  {
    if s != "" && IsSpace(s[|s| - 1]) then TrimRight(s[..|s| - 1]) else s
  }

  /** strings.TrimSpace. */
  function Trim(s: string): string {
    TrimRight(TrimLeft(s))
  }

  /** Trimming takes exactly the spaces at both ends: nothing else is lost, and none is left. */
  lemma {:induction false} TrimExactly(s: string) returns (before: string, after: string)
    ensures s == before + Trim(s) + after
    ensures forall c | c in before + after :: IsSpace(c)
    ensures Trim(s) != "" ==> !IsSpace(Trim(s)[0]) && !IsSpace(Trim(s)[|Trim(s)| - 1])
  {
    hide IsSpace;
    before := TrimLeftExactly(s);
    after := TrimRightExactly(TrimLeft(s));
  }

  lemma {:induction false} TrimLeftExactly(s: string) returns (before: string)
    ensures s == before + TrimLeft(s) && forall c | c in before :: IsSpace(c)
    ensures TrimLeft(s) != "" ==> !IsSpace(TrimLeft(s)[0])
  {
    hide IsSpace;
    before := "";
    if s != "" && IsSpace(s[0]) {
      before := TrimLeftExactly(s[1..]);
      before := [s[0]] + before;
    }
  }

  lemma {:induction false} TrimRightExactly(s: string) returns (after: string)
    ensures s == TrimRight(s) + after && forall c | c in after :: IsSpace(c)
  {
    hide IsSpace;
    after := "";
    if s != "" && IsSpace(s[|s| - 1]) {
      after := TrimRightExactly(s[..|s| - 1]);
      after := after + [s[|s| - 1]];
    }
  }

  /** strings.ReplaceAll for a non-empty pattern: left to right, never looking back. */
  function ReplaceAll(s: string, pattern: string, replacement: string): string
    requires pattern != ""
  {
    if s == "" then ""
    else if pattern <= s then replacement + ReplaceAll(s[|pattern|..], pattern, replacement)
    else [s[0]] + ReplaceAll(s[1..], pattern, replacement)
  }

  /** Replacing one character by another works position by position. */
  lemma {:induction false} ReplaceChar(s: string, a: char, b: char)
    ensures var r := ReplaceAll(s, [a], [b]);
            |r| == |s| && forall i | 0 <= i < |s| :: r[i] == if s[i] == a then b else s[i]
  {
    if s != "" {
      ReplaceChar(s[1..], a, b);
    }
  }

  predicate OccursAt<T(==)>(hay: seq<T>, needle: seq<T>, i: int) {
    0 <= i <= |hay| - |needle| && hay[i..i + |needle|] == needle
  }

  /** strings.Contains and bytes.Contains. */
  predicate Contains<T(==)>(hay: seq<T>, needle: seq<T>) {
    exists i | 0 <= i <= |hay| - |needle| :: OccursAt(hay, needle, i)
  }

  function LowerChar(c: char): char {
    if 'A' <= c <= 'Z' then 'a' + (c - 'A') else c
  }

  /** strings.EqualFold against an ASCII word in lower case that holds neither k nor s. */
  predicate EqualsFolded(s: string, word: string) {
    |s| == |word| && forall i | 0 <= i < |s| :: LowerChar(s[i]) == word[i]
  }

  // ----- numbers -----

  function DigitChar(d: nat): char
    requires d < 16
  {
    if d < 10 then '0' + d as char else 'A' + (d - 10) as char
  }

  /** The value of a digit, 36 for a character that is none in any base up to 16. */
  function DigitValue(c: char): nat {
    if '0' <= c <= '9' then (c - '0') as int
    else if 'a' <= c <= 'f' then (c - 'a') as int + 10
    else if 'A' <= c <= 'F' then (c - 'A') as int + 10
    else 36
  }

  /** The two bases in use. */
  predicate IsBase(base: nat) {
    base == 10 || base == 16
  }

  function Times(high: nat, base: nat): nat
    requires IsBase(base)
  {
    if base == 10 then high * 10 else high * 16
  }

  /** %d and %X of a non-negative number. */
  function NatText(n: nat, base: nat): (s: string)
    requires IsBase(base)
    ensures s != "" && forall c | c in s :: '0' <= c <= '9' || 'A' <= c <= 'F'
    ensures base == 10 ==> forall c | c in s :: '0' <= c <= '9'
    decreases n
  {
    if n < base then [DigitChar(n)]
    else if base == 10 then NatText(n / 10, 10) + [DigitChar(n % 10)]
    else NatText(n / 16, 16) + [DigitChar(n % 16)]
  }

  /** strconv.ParseUint before its range check. */
  function ParseNat(s: string, base: nat): Option<nat>
    requires IsBase(base)
    decreases |s|
  {
    if s == "" || DigitValue(s[|s| - 1]) >= base then None
    else
      var d := DigitValue(s[|s| - 1]);
      if |s| == 1 then Some(d)
      else match ParseNat(s[..|s| - 1], base)
        case None => None
        case Some(high) => Some(Times(high, base) + d)
  }

  lemma {:induction false} ParseNatText(n: nat, base: nat)
    requires IsBase(base)
    ensures ParseNat(NatText(n, base), base) == Some(n)
    decreases n
  {
    var s := NatText(n, base);
    if n >= base {
      var high := if base == 10 then n / 10 else n / 16;
      ParseNatText(high, base);
      assert s[..|s| - 1] == NatText(high, base);
    }
  }

  /** strconv.Itoa and %d. */
  function IntText(n: int): (s: string)
    ensures s != "" && forall c | c in s :: c == '-' || '0' <= c <= '9'
  {
    if n < 0 then "-" + NatText(-n, 10) else NatText(n, 10)
  }

  const MAX_INT: int := 0x7FFF_FFFF_FFFF_FFFF
  const MIN_INT: int := -0x8000_0000_0000_0000

  function Clamp(n: int): int {
    if n > MAX_INT then MAX_INT else if n < MIN_INT then MIN_INT else n
  }

  /** The value Go keeps from `n, _ = strconv.Atoi(s)`: 0 on malformed text, the nearest bound on overflow. */
  function AtoiOrZero(s: string): int {
    if s != "" && s[0] == '-' then
      match ParseNat(s[1..], 10) case None => 0 case Some(n) => Clamp(-(n as int))
    else
      match ParseNat(if s != "" && s[0] == '+' then s[1..] else s, 10) case None => 0 case Some(n) => Clamp(n)
  }

  /** strconv.ParseInt(s, 10, 64): nothing on malformed text or overflow. */
  function ParseInt(s: string): Option<int> {
    var negative := s != "" && s[0] == '-';
    match ParseNat(if s != "" && (s[0] == '-' || s[0] == '+') then s[1..] else s, 10)
    case None => None
    case Some(n) =>
      var v := if negative then -(n as int) else n;
      if MIN_INT <= v <= MAX_INT then Some(v) else None
  }

  /** Numbers the agent writes are read back, even after trimming. */
  lemma IntTextRoundTrip(n: int)
    requires MIN_INT <= n <= MAX_INT
    ensures AtoiOrZero(IntText(n)) == n && ParseInt(IntText(n)) == Some(n)
    ensures Trim(IntText(n)) == IntText(n) && '\n' !in IntText(n)
  {
    hide NatText, ParseNat;
    var s := IntText(n);
    assert s[0] in s && s[|s| - 1] in s;
    if n < 0 {
      ParseNatText(-n, 10);
      assert s[1..] == NatText(-n, 10);
    } else {
      ParseNatText(n, 10);
      assert s == NatText(n, 10);
    }
  }

  /** Decimal and hexadecimal digits, signs and bounds. */
  lemma PrintedNumbers()
    ensures IntText(2380) == "2380" && IntText(-15) == "-15" && NatText(0x1A0, 16) == "1A0"
    ensures MAX_INT == 9223372036854775807 && MIN_INT == -9223372036854775808
  {
    assert NatText(23, 10) == "23" && NatText(15, 10) == "15";
    assert NatText(238, 10) == NatText(23, 10) + "8";
    assert NatText(2380, 10) == NatText(238, 10) + "0";
    assert NatText(0x1A, 16) == NatText(1, 16) + "A";
    assert NatText(0x1A0, 16) == NatText(0x1A, 16) + "0";
  }

  lemma ParsedDigits()
    ensures ParseNat("1a0", 16) == Some(416) && ParseNat("1a0", 10) == None
    ensures ParseNat("0", 16) == Some(0) && ParseNat("9", 16) == Some(9) && ParseNat("a", 16) == Some(10)
    ensures ParseNat("A", 16) == Some(10) && ParseNat("f", 16) == Some(15) && ParseNat("F", 16) == Some(15)
    ensures ParseNat("g", 16) == None && ParseNat("G", 16) == None && ParseNat("/", 16) == None
  {
    assert ParseNat("1", 16) == Some(1);
    assert "1a"[..1] == "1";
    assert ParseNat("1a", 16) == Some(26) && ParseNat("1a", 10) == None;
    assert "1a0"[..2] == "1a";
  }

  lemma ParsedSigns()
    ensures AtoiOrZero("+7") == 7 && AtoiOrZero("-7") == -7 && AtoiOrZero("") == 0 && AtoiOrZero("7 ") == 0
    ensures AtoiOrZero("-") == 0 && AtoiOrZero("+") == 0
    ensures ParseInt("+7") == Some(7) && ParseInt("-7") == Some(-7) && ParseInt("") == None && ParseInt("7s") == None
  {
    assert ParseNat("7", 10) == Some(7) && ParseNat("", 10) == ParseNat("7 ", 10) == ParseNat("7s", 10) == None;
    assert "+7"[1..] == "7" && "-7"[1..] == "7" && "-"[1..] == "" && "+"[1..] == "";
  }

  /** Overflow: one reader keeps the nearest bound, the other nothing. */
  lemma Overflows(n: int)
    requires n > MAX_INT || n < MIN_INT
    ensures AtoiOrZero(IntText(n)) == (if n > MAX_INT then MAX_INT else MIN_INT) && ParseInt(IntText(n)) == None
  {
    hide NatText, ParseNat;
    var digits := NatText(if n < 0 then -n else n, 10);
    assert digits[0] in digits;
    ParseNatText(if n < 0 then -n else n, 10);
    if n < 0 { assert IntText(n)[1..] == digits; }
  }
}
