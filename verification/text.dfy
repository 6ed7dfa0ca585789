/** The string operations the parsers use: split, trim, and unsigned decimals. */
module Text {
  import opened Wrappers

  /** The parts between separators; a string without any is its own single part. */
  function Split(s: string, sep: char): (parts: seq<string>)
    ensures |parts| > 0
  {
    if |s| == 0 then [""]
    else
      var rest := Split(s[1..], sep);
      if s[0] == sep then [""] + rest else [[s[0]] + rest[0]] + rest[1..]
  }

  lemma {:induction false} SplitNone(s: string, sep: char)
    requires sep !in s
    ensures Split(s, sep) == [s]
  {
    if |s| > 0 {
      assert s == [s[0]] + s[1..];
      SplitNone(s[1..], sep);
    }
  }

  lemma SplitHead(s: string, sep: char)
    requires |s| > 0
    ensures var rest := Split(s[1..], sep);
            Split(s, sep) == if s[0] == sep then [""] + rest else [[s[0]] + rest[0]] + rest[1..]
  {
  }

  /** Splitting takes a joined string apart again. */
  lemma {:induction false} SplitJoin(s: string, t: string, sep: char)
    ensures Split(s + [sep] + t, sep) == Split(s, sep) + Split(t, sep)
  {
    if |s| == 0 {
      assert s + [sep] + t == [sep] + t;
      assert ([sep] + t)[1..] == t;
    } else {
      SplitJoin(s[1..], t, sep);
      var whole := s + [sep] + t;
      assert whole[0] == s[0] && whole[1..] == s[1..] + [sep] + t;
      SplitHead(whole, sep);
      SplitHead(s, sep);
      JoinedHead(s[0], Split(s[1..], sep), Split(t, sep), sep, Split(s, sep), Split(whole, sep));
    }
  }

  lemma JoinedHead(c: char, r: seq<string>, u: seq<string>, sep: char, left: seq<string>, whole: seq<string>)
    requires |r| > 0
    requires left == if c == sep then [""] + r else [[c] + r[0]] + r[1..]
    requires whole == if c == sep then [""] + (r + u) else [[c] + (r + u)[0]] + (r + u)[1..]
    ensures whole == left + u
  {
    if c == sep {
      Reassociate([""], r, u);
    } else {
      assert (r + u)[0] == r[0] && (r + u)[1..] == r[1..] + u;
      Reassociate([[c] + r[0]], r[1..], u);
    }
  }

  lemma Reassociate(a: seq<string>, b: seq<string>, c: seq<string>)
    ensures a + (b + c) == (a + b) + c
  {
  }

  lemma {:induction false} SplitParts(s: string, sep: char)
    ensures forall p :: p in Split(s, sep) ==> sep !in p
    ensures |Split(s, sep)| == 1 ==> s == Split(s, sep)[0]
    ensures |Split(s, sep)| == 2 ==> s == Split(s, sep)[0] + [sep] + Split(s, sep)[1]
    ensures sep in s <==> |Split(s, sep)| > 1
  {
    if |s| > 0 {
      SplitParts(s[1..], sep);
      SplitHead(s, sep);
      assert s == [s[0]] + s[1..];
      SplitPartsStep(s[0], sep, s[1..], Split(s[1..], sep), Split(s, sep));
    }
  }

  lemma SplitPartsStep(c: char, sep: char, t: string, rest: seq<string>, parts: seq<string>)
    requires |rest| > 0 && forall p :: p in rest ==> sep !in p
    requires parts == if c == sep then [""] + rest else [[c] + rest[0]] + rest[1..]
    requires |rest| == 1 ==> t == rest[0]
    requires |rest| == 2 ==> t == rest[0] + [sep] + rest[1]
    ensures forall p :: p in parts ==> sep !in p
    ensures |parts| == 1 ==> [c] + t == parts[0]
    ensures |parts| == 2 ==> [c] + t == parts[0] + [sep] + parts[1]
  {
    if c != sep {
      assert rest[0] in rest;
      assert forall p :: p in rest[1..] ==> p in rest;
    }
  }

  /** Exactly one separator: the two halves around it. */
  lemma SplitInTwo(s: string, sep: char, a: string, b: string)
    ensures Split(s, sep) == [a, b] <==> s == a + [sep] + b && sep !in a && sep !in b
  {
    SplitParts(s, sep);
    if s == a + [sep] + b && sep !in a && sep !in b {
      SplitJoin(a, b, sep);
      SplitNone(a, sep);
      SplitNone(b, sep);
    }
    if Split(s, sep) == [a, b] {
      assert a in Split(s, sep) && b in Split(s, sep);
    }
  }

  /** Unicode White_Space. */
  predicate IsSpace(c: char) {
    var n := c as int;
    || 0x9 <= n <= 0xD || n == 0x20 || n == 0x85 || n == 0xA0 || n == 0x1680
    || 0x2000 <= n <= 0x200A || n == 0x2028 || n == 0x2029 || n == 0x202F || n == 0x205F || n == 0x3000
  }

  /** The twenty-five code points. */
  lemma SpaceCodes(c: char)
    ensures IsSpace(c) <==>
            c as int in {0x9, 0xA, 0xB, 0xC, 0xD, 0x20, 0x85, 0xA0, 0x1680, 0x2000, 0x2001, 0x2002, 0x2003, 0x2004,
                         0x2005, 0x2006, 0x2007, 0x2008, 0x2009, 0x200A, 0x2028, 0x2029, 0x202F, 0x205F, 0x3000}
  {
  }

  function TrimStart(s: string): string {
    if |s| > 0 && IsSpace(s[0]) then TrimStart(s[1..]) else s
  }

  function TrimEnd(s: string): string {
    if |s| > 0 && IsSpace(s[|s| - 1]) then TrimEnd(s[..|s| - 1]) else s
  }

  function Trim(s: string): string {
    TrimEnd(TrimStart(s))
  }

  ghost predicate AllSpace(s: string) {
    forall c :: c in s ==> IsSpace(c)
  }

  ghost predicate Bare(s: string) {
    |s| > 0 ==> !IsSpace(s[0]) && !IsSpace(s[|s| - 1])
  }

  /** `t` with nothing but whitespace around it. */
  ghost predicate Padded(s: string, t: string) {
    exists a, b :: AllSpace(a) && AllSpace(b) && s == a + t + b
  }

  lemma PaddedBy(whole: string, front: string, z: string, back: string)
    requires AllSpace(front) && AllSpace(back) && whole == front + z + back
    ensures Padded(whole, z)
  {
  }

  lemma {:induction false} TrimStartSplits(s: string) returns (a: string)
    ensures s == a + TrimStart(s) && AllSpace(a)
    ensures |TrimStart(s)| > 0 ==> !IsSpace(TrimStart(s)[0])
  {
    if |s| > 0 && IsSpace(s[0]) {
      a := TrimStartSplits(s[1..]);
      a := [s[0]] + a;
      assert s == [s[0]] + s[1..];
    } else {
      a := "";
    }
  }

  lemma {:induction false} TrimEndSplits(s: string) returns (b: string)
    ensures s == TrimEnd(s) + b && AllSpace(b)
    ensures |TrimEnd(s)| > 0 ==> !IsSpace(TrimEnd(s)[|TrimEnd(s)| - 1]) && TrimEnd(s)[0] == s[0]
  {
    if |s| > 0 && IsSpace(s[|s| - 1]) {
      b := TrimEndSplits(s[..|s| - 1]);
      b := b + [s[|s| - 1]];
      assert s == s[..|s| - 1] + [s[|s| - 1]];
    } else {
      b := "";
    }
  }

  lemma {:induction false} TrimStartPads(a: string, t: string)
    requires AllSpace(a) && (|t| > 0 ==> !IsSpace(t[0]))
    ensures TrimStart(a + t) == t
  {
    if |a| > 0 {
      assert (a + t)[1..] == a[1..] + t;
      assert forall c :: c in a[1..] ==> c in a;
      TrimStartPads(a[1..], t);
    } else {
      assert a + t == t;
    }
  }

  lemma {:induction false} TrimEndPads(t: string, b: string)
    requires AllSpace(b) && (|t| > 0 ==> !IsSpace(t[|t| - 1]))
    ensures TrimEnd(t + b) == t
    decreases |b|
  {
    if |b| > 0 {
      assert (t + b)[..|t + b| - 1] == t + b[..|b| - 1];
      assert forall c :: c in b[..|b| - 1] ==> c in b;
      TrimEndPads(t, b[..|b| - 1]);
    } else {
      assert t + b == t;
    }
  }

  lemma {:induction false} TrimStartAll(s: string)
    requires AllSpace(s)
    ensures TrimStart(s) == ""
  {
    if |s| > 0 {
      assert s[0] in s;
      assert forall c :: c in s[1..] ==> c in s;
      TrimStartAll(s[1..]);
    }
  }

  /** Trimming leaves a bare string that pads out to the input. */
  lemma TrimIsPadded(s: string)
    ensures Bare(Trim(s)) && Padded(s, Trim(s))
  {
    hide IsSpace;
    hide TrimStart;
    hide TrimEnd;
    var a := TrimStartSplits(s);
    var b := TrimEndSplits(TrimStart(s));
    assert s == a + Trim(s) + b;
  }

  /** Padding of white space around a bare string is trimmed off. */
  lemma PaddingIsTrimmed(a: string, t: string, b: string)
    requires Bare(t) && AllSpace(a) && AllSpace(b)
    ensures Trim(a + t + b) == t
  {
    hide IsSpace;
    if t == "" {
      assert a + t + b == a + b;
      TrimStartAll(a + b);
    } else {
      hide TrimStart;
      assert a + t + b == a + (t + b);
      TrimStartPads(a, t + b);
      TrimEndPads(t, b);
    }
  }

  /** Trimming yields the one string that bears no outer whitespace and pads out to the input. */
  lemma TrimMeaning(s: string, t: string)
    ensures Trim(s) == t <==> Bare(t) && Padded(s, t)
  {
    hide Trim;
    hide Bare;
    TrimIsPadded(s);
    if Bare(t) && Padded(s, t) {
      var a, b :| AllSpace(a) && AllSpace(b) && s == a + t + b;
      PaddingIsTrimmed(a, t, b);
    }
  }

  // ---------------------------------------------------------------------------------------------
  // Unsigned decimals
  // ---------------------------------------------------------------------------------------------

  predicate IsDigit(c: char) {
    '0' <= c <= '9'
  }

  predicate AllDigits(s: string) {
    forall i :: 0 <= i < |s| ==> IsDigit(s[i])
  }

  function DigitsValue(s: string): nat
    requires AllDigits(s)
  {
    if |s| == 0 then 0 else 10 * DigitsValue(s[..|s| - 1]) + (s[|s| - 1] as int - '0' as int)
  }

  /** The standard library's parse: an optional plus sign, at least one digit, no overflow. */
  function ParseUnsigned(s: string, max: nat): Option<nat> {
    var digits := if |s| > 1 && s[0] == '+' then s[1..] else s;
    if |digits| == 0 || !AllDigits(digits) || DigitsValue(digits) > max then None else Some(DigitsValue(digits))
  }

  /** A decimal with an optional plus sign, of any width. */
  ghost predicate Decimal(s: string, value: nat) {
    exists digits :: && (s == digits || s == "+" + digits) && |digits| > 0 && AllDigits(digits)
                     && DigitsValue(digits) == value
  }

  lemma ParseUnsignedIff(s: string, max: nat, value: nat)
    ensures ParseUnsigned(s, max) == Some(value) <==> Decimal(s, value) && value <= max
  {
    if ParseUnsigned(s, max) == Some(value) {
      var digits := if |s| > 1 && s[0] == '+' then s[1..] else s;
      assert s == digits || s == "+" + digits;
    }
    if Decimal(s, value) {
      var digits :| && (s == digits || s == "+" + digits) && |digits| > 0 && AllDigits(digits)
                    && DigitsValue(digits) == value;
      if s == digits {
        assert IsDigit(s[0]);
      } else {
        assert s[1..] == digits;
      }
    }
  }

  /** Decimal printing without leading zeros. */
  function Print(n: nat): (s: string)
    ensures |s| > 0 && AllDigits(s)
  {
    var last := ['0' + (n % 10) as char];
    if n < 10 then last else Print(n / 10) + last
  }

  lemma {:induction false} PrintValue(n: nat)
    ensures DigitsValue(Print(n)) == n
  {
    if n >= 10 {
      PrintValue(n / 10);
      assert Print(n)[..|Print(n)| - 1] == Print(n / 10);
    }
  }

  /** Parsing inverts printing up to the largest value of the type. */
  lemma ParseInvertsPrint(n: nat, max: nat)
    ensures ParseUnsigned(Print(n), max) == if n <= max then Some(n) else None
  {
    PrintValue(n);
    assert IsDigit(Print(n)[0]);
  }
}
