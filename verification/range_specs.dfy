/** The day and hour range syntax of the schedules: `mon-fri`, `22-6`, comma-separated lists of them. */
module RangeSpecs {
  import opened Wrappers
  import opened Text

  datatype Field = Days | Hours

  datatype RangeError =
    | InvalidRange(part: string) | InvalidNumber(text: string)
    | RangeOutOfRange(part: string) | HourOutOfRange(hour: nat)

  const MAX_HOUR: nat := 23
  const U8_MAX: nat := 255

  function Modulus(f: Field): nat {
    match f case Days => 7 case Hours => 24
  }

  const DAY_NAMES: seq<string> := ["mon", "tue", "wed", "thu", "fri", "sat", "sun"]

  /** The first place of a name in a table. */
  function Position(names: seq<string>, name: string): (place: Option<nat>)
    ensures place.Some? ==> place.value < |names| && names[place.value] == name
    ensures place.None? ==> name !in names
  {
    if |names| == 0 then None
    else if names[0] == name then Some(0)
    else
      match Position(names[1..], name)
      case Some(k) => Some(k + 1)
      case None => None
  }

  function DayNumber(name: string): (day: Option<nat>)
    ensures day.Some? ==> day.value < 7
  {
    Position(DAY_NAMES, name)
  }

  function HourNumber(text: string): Option<nat> {
    match ParseUnsigned(text, U8_MAX)
    case Some(h) => if h <= MAX_HOUR then Some(h) else None
    case None => None
  }

  function Number(f: Field, text: string): Option<nat> {
    match f case Days => DayNumber(text) case Hours => HourNumber(text)
  }

  function Ends(f: Field, start: string, end: string): Option<(nat, nat)> {
    match (Number(f, Trim(start)), Number(f, Trim(end)))
    case (Some(a), Some(b)) => Some((a, b))
    case _ => None
  }

  /** The two ends of one comma-separated part; a single value is a range from itself to itself. */
  function PartInterval(f: Field, part: string): Option<(nat, nat)> {
    var t := Trim(part);
    if '-' in t then
      var ends := Split(t, '-');
      if |ends| != 2 then None else Ends(f, ends[0], ends[1])
    else
      match Number(f, t)
      case Some(a) => Some((a, a))
      case None => None
  }

  function DayPartError(part: string): RangeError {
    var t := Trim(part);
    if '-' in t then
      var ends := Split(t, '-');
      if |ends| != 2 then InvalidRange(t)
      else if DayNumber(Trim(ends[0])).None? then InvalidNumber(Trim(ends[0]))
      else InvalidNumber(Trim(ends[1]))
    else InvalidNumber(t)
  }

  function HourPartError(part: string): RangeError {
    var t := Trim(part);
    if '-' in t && t[0] != '-' then
      var ends := Split(t, '-');
      if |ends| != 2 then InvalidRange(t)
      else if ParseUnsigned(Trim(ends[0]), U8_MAX).None? then InvalidNumber(ends[0])
      else if ParseUnsigned(Trim(ends[1]), U8_MAX).None? then InvalidNumber(ends[1])
      else RangeOutOfRange(t)
    else
      match ParseUnsigned(t, U8_MAX)
      case None => InvalidNumber(t)
      case Some(hour) => HourOutOfRange(hour)
  }

  /** What is wrong with a part that is no interval. */
  function PartError(f: Field, part: string): RangeError {
    match f case Days => DayPartError(part) case Hours => HourPartError(part)
  }

  /** The first part of a list that is no interval decides the error. */
  function FirstError(f: Field, parts: seq<string>): (error: Option<RangeError>)
    ensures error.None? <==> WellFormed(f, parts)
  {
    if |parts| == 0 then None
    else
      assert parts == [parts[0]] + parts[1..];
      if PartInterval(f, parts[0]).None? then Some(PartError(f, parts[0]))
      else FirstError(f, parts[1..])
  }

  /** The values from `lo` up to but not including `hi`. */
  function Interval(lo: nat, hi: nat): (s: set<int>)
    ensures forall d :: d in s <==> lo <= d < hi
    decreases hi
  {
    if lo >= hi then {} else Interval(lo, hi - 1) + {hi - 1}
  }

  lemma {:induction false} IntervalSize(lo: nat, hi: nat)
    requires lo <= hi
    ensures |Interval(lo, hi)| == hi - lo
    decreases hi
  {
    if lo < hi {
      var init := Interval(lo, hi - 1);
      IntervalSize(lo, hi - 1);
      assert hi - 1 !in init && Interval(lo, hi) == init + {hi - 1};
    }
  }

  /** The cycle from `a` forward to `b`: whatever lies no further ahead of `a` than `b` does. */
  function Cyclic(n: nat, a: nat, b: nat): set<int>
    requires n > 0
  {
    set d | d in Interval(0, n) && (d - a) % n <= (b - a) % n
  }

  function Parts(specs: seq<string>): seq<string> {
    if |specs| == 0 then [] else Split(specs[0], ',') + Parts(specs[1..])
  }

  function PartSet(f: Field, part: string): set<int> {
    match PartInterval(f, part)
    case Some((a, b)) => Cyclic(Modulus(f), a, b)
    case None => {}
  }

  function Union(f: Field, parts: seq<string>): set<int> {
    if |parts| == 0 then {} else PartSet(f, parts[0]) + Union(f, parts[1..])
  }

  ghost predicate WellFormed(f: Field, parts: seq<string>) {
    forall p :: p in parts ==> PartInterval(f, p).Some?
  }

  // ---------------------------------------------------------------------------------------------
  // The parsers
  // ---------------------------------------------------------------------------------------------

  /** Insert a range into the result, going around the end of the cycle when it wraps. */
  method InsertRange(f: Field, result: set<int>, start: nat, end: nat) returns (more: set<int>)
    requires start < Modulus(f) && end < Modulus(f)
    ensures more == result + Cyclic(Modulus(f), start, end)
  {
    CyclicIs(Modulus(f), start, end);
    if start <= end {
      more := InsertAll(result, start, end + 1);
    } else {
      more := InsertAll(result, start, Modulus(f));
      more := InsertAll(more, 0, end + 1);
    }
  }

  method InsertAll(result: set<int>, lo: nat, hi: nat) returns (more: set<int>)
    requires lo <= hi
    ensures more == result + Interval(lo, hi)
  {
    more := result;
    for n := lo to hi
      invariant more == result + Interval(lo, n)
    {
      IntervalGrows(lo, n);
      assert result + (Interval(lo, n) + {n}) == (result + Interval(lo, n)) + {n};
      more := more + {n};
    }
  }

  lemma IntervalGrows(lo: nat, hi: nat)
    requires lo <= hi
    ensures Interval(lo, hi + 1) == Interval(lo, hi) + {hi}
  {
  }

  lemma MulAtLeast(k: int, n: nat)
    requires k >= 1
    ensures k * n >= n
  {
    assert k * n == (k - 1) * n + n;
  }

  lemma MulDifference(p: int, q: int, n: int)
    ensures (p - q) * n == p * n - q * n
  {
  }

  /** A quotient and remainder are determined by their sum. */
  lemma RemainderUnique(n: nat, p: int, r: int, q: int, s: int, pn: int, qn: int)
    requires pn == p * n && qn == q * n && pn + r == qn + s
    requires 0 <= r < n && 0 <= s < n
    ensures r == s
  {
    MulDifference(p, q, n);
    MulDifference(q, p, n);
    if p > q {
      MulAtLeast(p - q, n);
    } else if p < q {
      MulAtLeast(q - p, n);
    }
  }

  lemma RemainderIs(x: int, n: nat, q: int, qn: int)
    requires n > 0 && qn == q * n && 0 <= x - qn < n
    ensures x % n == x - qn
  {
    RemainderUnique(n, x / n, x % n, q, x - qn, x / n * n, qn);
  }

  lemma ModWithin(x: int, n: nat)
    requires n > 0
    ensures 0 <= x < n ==> x % n == x
    ensures n <= x < 2 * n ==> x % n == x - n
    ensures x < 0 <= x + n ==> x % n == x + n
  {
    if 0 <= x < n {
      RemainderIs(x, n, 0, 0);
    } else if n <= x < 2 * n {
      RemainderIs(x, n, 1, n);
    } else if x < 0 <= x + n {
      RemainderIs(x, n, -1, 0 - n);
    }
  }

  lemma CyclicIs(n: nat, a: nat, b: nat)
    requires a < n && b < n
    ensures Cyclic(n, a, b) == if a <= b then Interval(a, b + 1) else Interval(a, n) + Interval(0, b + 1)
  {
    ModWithin(b - a, n);
    forall d: int
      ensures d in Cyclic(n, a, b) <==> 0 <= d < n && (if a <= b then a <= d <= b else a <= d || d <= b)
    {
      if 0 <= d < n {
        ModWithin(d - a, n);
      }
    }
  }

  lemma CyclicOne(n: nat, a: nat)
    requires a < n
    ensures Cyclic(n, a, a) == {a}
  {
    CyclicIs(n, a, a);
  }

  /** One comma-separated part of a day specification. */
  method ParseDayPart(text: string, result: set<int>) returns (r: Result<set<int>, RangeError>)
    ensures r.Ok? <==> PartInterval(Days, text).Some?
    ensures r.Err? ==> r.error == PartError(Days, text)
    ensures r.Ok? ==> r.value == result + PartSet(Days, text)
  {
    var part := Trim(text);
    if '-' in part {
      var ends := Split(part, '-');
      if |ends| != 2 {
        return Err(InvalidRange(part));
      }
      var start, end := DayNumber(Trim(ends[0])), DayNumber(Trim(ends[1]));
      if start.None? {
        return Err(InvalidNumber(Trim(ends[0])));
      }
      if end.None? {
        return Err(InvalidNumber(Trim(ends[1])));
      }
      var more := InsertRange(Days, result, start.value, end.value);
      return Ok(more);
    }
    var day := DayNumber(part);
    if day.None? {
      return Err(InvalidNumber(part));
    }
    CyclicOne(7, day.value);
    return Ok(result + {day.value});
  }

  method ParseHourPart(text: string, result: set<int>) returns (r: Result<set<int>, RangeError>)
    ensures r.Ok? <==> PartInterval(Hours, text).Some?
    ensures r.Err? ==> r.error == PartError(Hours, text)
    ensures r.Ok? ==> r.value == result + PartSet(Hours, text)
  {
    var part := Trim(text);
    if '-' in part && part[0] != '-' {
      var ends := Split(part, '-');
      if |ends| != 2 {
        return Err(InvalidRange(part));
      }
      var start, end := ParseUnsigned(Trim(ends[0]), U8_MAX), ParseUnsigned(Trim(ends[1]), U8_MAX);
      if start.None? {
        return Err(InvalidNumber(ends[0]));
      }
      if end.None? {
        return Err(InvalidNumber(ends[1]));
      }
      if start.value > MAX_HOUR || end.value > MAX_HOUR {
        return Err(RangeOutOfRange(part));
      }
      var more := InsertRange(Hours, result, start.value, end.value);
      return Ok(more);
    }
    var hour := ParseUnsigned(part, U8_MAX);
    NoHyphenInNumber(part);
    HourPartCases(text, part);
    if hour.None? {
      return Err(InvalidNumber(part));
    }
    if hour.value > MAX_HOUR {
      return Err(HourOutOfRange(hour.value));
    }
    CyclicOne(24, hour.value);
    return Ok(result + {hour.value});
  }

  method ParseDayRanges(specs: seq<string>) returns (r: Result<set<int>, RangeError>)
    ensures r.Ok? <==> WellFormed(Days, Parts(specs))
    ensures r.Err? ==> FirstError(Days, Parts(specs)) == Some(r.error)
    ensures r.Ok? ==> r.value == Union(Days, Parts(specs))
  {
    var result: set<int> := {};
    ghost var ahead := Parts(specs);
    for i := 0 to |specs|
      invariant ahead == Parts(specs[i..]) && Progress(Days, Parts(specs), ahead, result)
    {
      var parts := Split(specs[i], ',');
      ghost var rest := Parts(specs[i + 1..]);
      NextSpec(specs, i);
      for j := 0 to |parts|
        invariant ahead == parts[j..] + rest && Progress(Days, Parts(specs), ahead, result)
      {
        NextPart(parts, j, rest, ahead);
        var step := ParseDayPart(parts[j], result);
        ProgressStep(Days, Parts(specs), ahead, result);
        if step.Err? {
          return step;
        }
        result := step.value;
        ahead := ahead[1..];
      }
    }
    ProgressEnd(Days, Parts(specs), result);
    return Ok(result);
  }

  method ParseHourRanges(specs: seq<string>) returns (r: Result<set<int>, RangeError>)
    ensures r.Ok? <==> WellFormed(Hours, Parts(specs))
    ensures r.Err? ==> FirstError(Hours, Parts(specs)) == Some(r.error)
    ensures r.Ok? ==> r.value == Union(Hours, Parts(specs))
  {
    var result: set<int> := {};
    ghost var ahead := Parts(specs);
    for i := 0 to |specs|
      invariant ahead == Parts(specs[i..]) && Progress(Hours, Parts(specs), ahead, result)
    {
      var parts := Split(specs[i], ',');
      ghost var rest := Parts(specs[i + 1..]);
      NextSpec(specs, i);
      for j := 0 to |parts|
        invariant ahead == parts[j..] + rest && Progress(Hours, Parts(specs), ahead, result)
      {
        NextPart(parts, j, rest, ahead);
        var step := ParseHourPart(parts[j], result);
        ProgressStep(Hours, Parts(specs), ahead, result);
        if step.Err? {
          return step;
        }
        result := step.value;
        ahead := ahead[1..];
      }
    }
    ProgressEnd(Hours, Parts(specs), result);
    return Ok(result);
  }

  lemma NextSpec(specs: seq<string>, i: nat)
    requires i < |specs|
    ensures Parts(specs[i..]) == Split(specs[i], ',') + Parts(specs[i + 1..])
  {
    assert specs[i..][0] == specs[i] && specs[i..][1..] == specs[i + 1..];
  }

  lemma NextPart(parts: seq<string>, j: nat, rest: seq<string>, ahead: seq<string>)
    requires j < |parts| && ahead == parts[j..] + rest
    ensures ahead[0] == parts[j] && ahead[1..] == parts[j + 1..] + rest
  {
  }

  /** What a loop over the parts has done when `ahead` of them are still to come. */
  ghost predicate Progress(f: Field, all: seq<string>, ahead: seq<string>, result: set<int>) {
    && FirstError(f, all) == FirstError(f, ahead)
    && Union(f, all) == result + Union(f, ahead)
  }

  lemma WellFormedStep(f: Field, ahead: seq<string>)
    requires |ahead| > 0
    ensures WellFormed(f, ahead) <==> PartInterval(f, ahead[0]).Some? && WellFormed(f, ahead[1..])
  {
    var first, rest := ahead[0], ahead[1..];
    assert forall p :: p in ahead <==> p == first || p in rest;
  }

  lemma ProgressStep(f: Field, all: seq<string>, ahead: seq<string>, result: set<int>)
    requires |ahead| > 0 && Progress(f, all, ahead, result)
    ensures PartInterval(f, ahead[0]).None? ==> FirstError(f, all) == Some(PartError(f, ahead[0]))
    ensures PartInterval(f, ahead[0]).Some? ==> Progress(f, all, ahead[1..], result + PartSet(f, ahead[0]))
  {
    var first, rest := PartSet(f, ahead[0]), ahead[1..];
    WellFormedStep(f, ahead);
    assert Union(f, ahead) == first + Union(f, rest);
    assert result + (first + Union(f, rest)) == (result + first) + Union(f, rest);
  }

  lemma ProgressEnd(f: Field, all: seq<string>, result: set<int>)
    requires Progress(f, all, [], result)
    ensures WellFormed(f, all) && result == Union(f, all)
  {
  }

  lemma NoHyphenInNumber(t: string)
    ensures '-' in t ==> ParseUnsigned(t, U8_MAX).None?
  {
    if '-' in t {
      var i :| 0 <= i < |t| && t[i] == '-';
      var signed := |t| > 1 && t[0] == '+';
      var digits := if signed then t[1..] else t;
      assert !IsDigit(digits[if signed then i - 1 else i]);
    }
  }

  /** A part that starts with a hyphen is neither a range nor a number, so either reading refuses it. */
  lemma HourPartCases(text: string, part: string)
    requires part == Trim(text)
    ensures '-' in part && part[0] == '-' ==> PartInterval(Hours, text) == None
    ensures !('-' in part && part[0] != '-') ==>
              (PartInterval(Hours, text).Some? <==> HourNumber(part).Some?)
    ensures '-' !in part && HourNumber(part).Some? ==>
              PartInterval(Hours, text) == Some((HourNumber(part).value, HourNumber(part).value))
  {
    NoHyphenInNumber(part);
    if '-' in part && part[0] == '-' {
      assert Split(part, '-')[0] == "";
      assert HourNumber("") == None;
    }
  }

  // ---------------------------------------------------------------------------------------------
  // What the parsers accept and return
  // ---------------------------------------------------------------------------------------------

  /**
   What a part means, without reference to the parser: one number, or two joined by one hyphen, with
   any whitespace around each.
   */
  ghost predicate Denotes(f: Field, part: string, a: nat, b: nat) {
    || (a == b && '-' !in part && Number(f, Trim(part)) == Some(a))
    || (exists x, y :: DenotesRange(f, part, a, b, x, y))
  }

  ghost predicate DenotesRange(f: Field, part: string, a: nat, b: nat, x: string, y: string) {
    && part == x + "-" + y && '-' !in x && '-' !in y
    && Number(f, Trim(x)) == Some(a) && Number(f, Trim(y)) == Some(b)
  }

  lemma PaddedMore(p: string, x: string, q: string, z: string)
    requires AllSpace(p) && AllSpace(q) && Padded(x, z)
    ensures Padded(p + x + q, z)
  {
    var a, b :| AllSpace(a) && AllSpace(b) && x == a + z + b;
    PaddedBy(p + x + q, p + a, z, b + q);
  }

  lemma TrimIgnoresPadding(p: string, x: string, q: string)
    requires AllSpace(p) && AllSpace(q)
    ensures Trim(p + x + q) == Trim(x)
  {
    TrimMeaning(x, Trim(x));
    PaddedMore(p, x, q, Trim(x));
    TrimMeaning(p + x + q, Trim(x));
  }

  lemma TrimIgnoresPaddingBefore(p: string, x: string)
    requires AllSpace(p)
    ensures Trim(p + x) == Trim(x)
  {
    assert p + x + "" == p + x;
    TrimIgnoresPadding(p, x, "");
  }

  lemma TrimIgnoresPaddingAfter(x: string, q: string)
    requires AllSpace(q)
    ensures Trim(x + q) == Trim(x)
  {
    assert "" + x + q == x + q;
    TrimIgnoresPadding("", x, q);
  }

  /** The whitespace around a range, moved into the outer ends of its two halves. */
  lemma PaddedRange(p: string, x: string, y: string, q: string, whole: string)
    requires AllSpace(p) && AllSpace(q) && whole == p + (x + "-" + y) + q
    ensures whole == (p + x) + "-" + (y + q)
    ensures Trim(p + x) == Trim(x) && Trim(y + q) == Trim(y)
    ensures ('-' in p + x <==> '-' in x) && ('-' in y + q <==> '-' in y)
  {
    TrimIgnoresPaddingBefore(p, x);
    TrimIgnoresPaddingAfter(y, q);
    assert !IsSpace('-');
  }

  lemma TrimUnpads(part: string) returns (p: string, q: string)
    ensures AllSpace(p) && AllSpace(q) && part == p + Trim(part) + q && ('-' in part <==> '-' in Trim(part))
  {
    TrimMeaning(part, Trim(part));
    p, q :| AllSpace(p) && AllSpace(q) && part == p + Trim(part) + q;
    assert !IsSpace('-');
  }

  lemma IntervalDenotes(f: Field, part: string, a: nat, b: nat)
    requires PartInterval(f, part) == Some((a, b))
    ensures Denotes(f, part, a, b)
  {
    hide Trim;
    hide Number;
    var p, q := TrimUnpads(part);
    var t := Trim(part);
    if '-' in t {
      var ends := Split(t, '-');
      assert ends == [ends[0], ends[1]];
      SplitInTwo(t, '-', ends[0], ends[1]);
      PaddedRange(p, ends[0], ends[1], q, part);
      assert DenotesRange(f, part, a, b, p + ends[0], ends[1] + q);
    }
  }

  lemma RangeParses(f: Field, part: string, a: nat, b: nat, x: string, y: string)
    requires DenotesRange(f, part, a, b, x, y)
    ensures PartInterval(f, part) == Some((a, b))
  {
    hide Trim;
    hide TrimStart;
    hide TrimEnd;
    hide Split;
    hide Number;
    var p := TrimStartSplits(x);
    var q := TrimEndSplits(y);
    var t := TrimRange(p, TrimStart(x), TrimEnd(y), q, part);
    SplitInTwo(t, '-', TrimStart(x), TrimEnd(y));
  }

  lemma TrimRange(p: string, x: string, y: string, q: string, whole: string) returns (t: string)
    requires AllSpace(p) && AllSpace(q) && whole == (p + x) + "-" + (y + q)
    requires (|x| > 0 ==> !IsSpace(x[0])) && (|y| > 0 ==> !IsSpace(y[|y| - 1]))
    ensures t == x + "-" + y && Trim(whole) == t
    ensures Trim(p + x) == Trim(x) && Trim(y + q) == Trim(y)
    ensures ('-' in p + x <==> '-' in x) && ('-' in y + q <==> '-' in y)
  {
    t := x + "-" + y;
    assert whole == p + t + q;
    PaddedRange(p, x, y, q, whole);
    assert Padded(whole, t);
    assert t[0] == if |x| > 0 then x[0] else '-';
    assert t[|t| - 1] == if |y| > 0 then y[|y| - 1] else '-';
    assert Bare(t);
    TrimMeaning(whole, t);
  }

  /** A part parses to an interval exactly when it denotes it. */
  lemma PartIntervalIff(f: Field, part: string, a: nat, b: nat)
    ensures PartInterval(f, part) == Some((a, b)) <==> Denotes(f, part, a, b)
  {
    if PartInterval(f, part) == Some((a, b)) {
      IntervalDenotes(f, part, a, b);
    }
    if x, y :| DenotesRange(f, part, a, b, x, y) {
      RangeParses(f, part, a, b, x, y);
    } else if Denotes(f, part, a, b) {
      var p, q := TrimUnpads(part);
    }
  }

  /** A cyclic interval has `((b - a) mod n) + 1` members, all within the cycle. */
  lemma CyclicSize(n: nat, a: nat, b: nat)
    requires a < n && b < n
    ensures |Cyclic(n, a, b)| == (b - a) % n + 1
    ensures forall d :: d in Cyclic(n, a, b) ==> 0 <= d < n
  {
    hide Interval;
    ModWithin(b - a, n);
    CyclicIs(n, a, b);
    if a <= b {
      IntervalSize(a, b + 1);
    } else {
      var upper, lower := Interval(a, n), Interval(0, b + 1);
      IntervalSize(a, n);
      IntervalSize(0, b + 1);
      assert upper !! lower;
      assert |upper + lower| == |upper| + |lower|;
    }
  }

  lemma {:induction false} UnionMembers(f: Field, parts: seq<string>)
    ensures forall d :: d in Union(f, parts) <==> exists p :: p in parts && d in PartSet(f, p)
  {
    if |parts| > 0 {
      UnionMembers(f, parts[1..]);
      assert parts == [parts[0]] + parts[1..];
    }
  }

  /** The result is the union of what the parts denote, and lies within the cycle. */
  lemma ParsedSet(f: Field, specs: seq<string>, d: int)
    ensures d in Union(f, Parts(specs)) <==>
            exists p, a, b :: p in Parts(specs) && Denotes(f, p, a, b) && d in Cyclic(Modulus(f), a, b)
    ensures d in Union(f, Parts(specs)) ==> 0 <= d <= match f case Days => 6 case Hours => 23
  {
    UnionMembers(f, Parts(specs));
    if p :| p in Parts(specs) && d in PartSet(f, p) {
      var (a, b) := PartInterval(f, p).value;
      PartIntervalIff(f, p, a, b);
      assert Denotes(f, p, a, b) && d in Cyclic(Modulus(f), a, b);
    }
    if p, a, b :| p in Parts(specs) && Denotes(f, p, a, b) && d in Cyclic(Modulus(f), a, b) {
      PartIntervalIff(f, p, a, b);
      assert d in PartSet(f, p);
    }
  }

  /** Only which parts occur matters, so the list may be reordered and its strings split or joined. */
  lemma OrderIrrelevant(f: Field, specs: seq<string>, others: seq<string>)
    requires forall p :: p in Parts(specs) <==> p in Parts(others)
    ensures WellFormed(f, Parts(specs)) <==> WellFormed(f, Parts(others))
    ensures Union(f, Parts(specs)) == Union(f, Parts(others))
  {
    hide PartInterval;
    hide PartSet;
    UnionMembers(f, Parts(specs));
    UnionMembers(f, Parts(others));
    forall d ensures d in Union(f, Parts(specs)) <==> d in Union(f, Parts(others)) {
      if p :| p in Parts(specs) && d in PartSet(f, p) {
        assert p in Parts(others);
      }
      if p :| p in Parts(others) && d in PartSet(f, p) {
        assert p in Parts(specs);
      }
    }
  }

  lemma {:induction false} PartsConcat(specs: seq<string>, more: seq<string>, all: seq<string>)
    requires all == specs + more
    ensures Parts(all) == Parts(specs) + Parts(more)
  {
    if |specs| == 0 {
      assert all == more;
    } else {
      PartsConcat(specs[1..], more, all[1..]);
      assert all[0] == specs[0];
    }
  }

  lemma PartsOfOne(x: string)
    ensures Parts([x]) == Split(x, ',')
  {
    assert [x][1..] == [];
  }

  lemma SplittingIrrelevant(before: seq<string>, x: string, y: string, after: seq<string>)
    ensures Parts(before + [x + "," + y] + after) == Parts(before + [x] + [y] + after)
  {
    hide Parts;
    hide Split;
    var joined := x + "," + y;
    SplitJoin(x, y, ',');
    PartsOfOne(joined);
    PartsOfOne(x);
    PartsOfOne(y);
    PartsConcat(before, [joined], before + [joined]);
    PartsConcat(before + [joined], after, before + [joined] + after);
    PartsConcat(before, [x], before + [x]);
    PartsConcat(before + [x], [y], before + [x] + [y]);
    PartsConcat(before + [x] + [y], after, before + [x] + [y] + after);
  }

  // ---------------------------------------------------------------------------------------------
  // Numbers, lists and errors, on the text
  // ---------------------------------------------------------------------------------------------

  /** The seven names and no others, Monday first. */
  lemma DayNumberIff(text: string, day: nat)
    ensures DayNumber(text) == Some(day) <==>
            match day
            case 0 => text == "mon"
            case 1 => text == "tue"
            case 2 => text == "wed"
            case 3 => text == "thu"
            case 4 => text == "fri"
            case 5 => text == "sat"
            case 6 => text == "sun"
            case _ => false
  {
    DayNamesDiffer();
    PositionIff(DAY_NAMES, text, day);
  }

  lemma DayNamesDiffer()
    ensures forall i, j :: 0 <= i < j < |DAY_NAMES| ==> DAY_NAMES[i] != DAY_NAMES[j]
  {
    var n := DAY_NAMES;
    assert n[0][0] == 'm' && n[1][..2] == "tu" && n[2][0] == 'w' && n[3][..2] == "th" && n[4][0] == 'f';
    assert n[5][..2] == "sa" && n[6][..2] == "su" && "tu"[1] != "th"[1] && "sa"[1] != "su"[1];
  }

  lemma {:induction false} PositionIff(names: seq<string>, name: string, k: nat)
    requires forall i, j :: 0 <= i < j < |names| ==> names[i] != names[j]
    ensures Position(names, name) == Some(k) <==> k < |names| && names[k] == name
  {
    if |names| > 0 && names[0] != name && k > 0 {
      PositionIff(names[1..], name, k - 1);
    }
  }

  /** A decimal from 0 to 23, leading zeros and a plus sign allowed. */
  lemma HourNumberIff(text: string, hour: nat)
    ensures HourNumber(text) == Some(hour) <==> Decimal(text, hour) && hour <= 23
  {
    ParseUnsignedIff(text, U8_MAX, hour);
  }

  /** From `a` the cycle goes forward one by one and ends at `b`. */
  lemma CyclicWalk(n: nat, a: nat, b: nat, d: int)
    requires a < n && b < n
    ensures d in Cyclic(n, a, b) <==> exists k :: 0 <= k <= (b - a) % n && d == Ahead(n, a, k)
    ensures Ahead(n, a, (b - a) % n) == b
  {
    ModWithin(b - a, n);
    ModWithin(d - a, n);
    if d in Cyclic(n, a, b) {
      AheadIs(n, a, (d - a) % n);
      assert d == Ahead(n, a, (d - a) % n);
    }
    if k :| 0 <= k <= (b - a) % n && d == Ahead(n, a, k) {
      AheadIs(n, a, k);
    }
    AheadIs(n, a, (b - a) % n);
  }

  /** `k` steps forward from `a`. */
  function Ahead(n: nat, a: nat, k: int): int
    requires n > 0
  {
    (a + k) % n
  }

  lemma AheadIs(n: nat, a: nat, k: int)
    requires a < n && 0 <= k < n
    ensures Ahead(n, a, k) == if a + k < n then a + k else a + k - n
    ensures (Ahead(n, a, k) - a) % n == k
  {
    ModWithin(a + k, n);
    ModWithin(Ahead(n, a, k) - a, n);
  }

  /** The parts of a list are the parts between the commas of its strings. */
  lemma {:induction false} PartOfIff(specs: seq<string>, part: string)
    ensures part in Parts(specs) <==> exists s :: s in specs && part in Split(s, ',')
  {
    if |specs| > 0 {
      var first, rest := specs[0], specs[1..];
      PartOfIff(rest, part);
      assert specs == [first] + rest;
      hide Split;
      if part in Split(first, ',') {
        assert first in specs;
      }
      if s :| s in rest && part in Split(s, ',') {
        assert s in specs;
      }
      if s :| s in specs && part in Split(s, ',') {
        assert s == first || s in rest;
      }
    }
  }

  ghost predicate FirstFault(f: Field, parts: seq<string>, k: int) {
    && 0 <= k < |parts| && PartInterval(f, parts[k]).None?
    && forall j :: 0 <= j < k ==> PartInterval(f, parts[j]).Some?
  }

  lemma FirstFaultTail(f: Field, parts: seq<string>, k: int)
    requires |parts| > 0 && k >= 0
    ensures FirstFault(f, parts, k + 1) <==> PartInterval(f, parts[0]).Some? && FirstFault(f, parts[1..], k)
  {
    hide PartInterval;
    var rest := parts[1..];
    assert forall j :: 0 < j < |parts| ==> parts[j] == rest[j - 1];
    assert forall j :: 0 <= j < |rest| ==> rest[j] == parts[j + 1];
  }

  /** The error of a list is that of its first part that is no interval. */
  lemma {:induction false} FirstErrorIff(f: Field, parts: seq<string>, error: RangeError)
    ensures FirstError(f, parts) == Some(error) <==>
            exists k :: FirstFault(f, parts, k) && PartError(f, parts[k]) == error
  {
    hide PartInterval;
    hide PartError;
    if |parts| > 0 {
      var rest := parts[1..];
      FirstErrorIff(f, rest, error);
      assert FirstFault(f, parts, 0) <==> PartInterval(f, parts[0]).None?;
      if k :| FirstFault(f, parts, k) && PartError(f, parts[k]) == error {
        if k > 0 {
          FirstFaultTail(f, parts, k - 1);
          assert rest[k - 1] == parts[k];
        }
      }
      if k :| FirstFault(f, rest, k) && PartError(f, rest[k]) == error {
        FirstFaultTail(f, parts, k);
        assert PartInterval(f, parts[0]).Some? ==> parts[k + 1] == rest[k];
      }
    }
  }

  /** What is wrong with a day part: a name, an end of a range, or more than one hyphen. */
  lemma DayFaults(part: string, x: string, y: string)
    requires PartInterval(Days, part).None?
    ensures '-' !in Trim(part) ==> PartError(Days, part) == InvalidNumber(Trim(part))
    ensures Trim(part) == x + "-" + y && '-' !in x ==>
              PartError(Days, part) ==
              if '-' in y then InvalidRange(Trim(part))
              else if DayNumber(Trim(x)).None? then InvalidNumber(Trim(x)) else InvalidNumber(Trim(y))
  {
    hide Trim;
    Hyphens(Trim(part), x, y);
  }

  /**
   What is wrong with an hour part. A leading hyphen makes it a bad number, ends are reported as written, and
   a number that fits a byte is reported as out of range.
   */
  lemma HourFaults(part: string, x: string, y: string, n: nat)
    requires PartInterval(Hours, part).None?
    ensures Decimal(Trim(part), n) && n <= 255 ==> PartError(Hours, part) == HourOutOfRange(n)
    ensures '-' !in Trim(part) && !SmallNumber(Trim(part)) ==> PartError(Hours, part) == InvalidNumber(Trim(part))
    ensures Trim(part) == "-" + y ==> PartError(Hours, part) == InvalidNumber(Trim(part))
    ensures Trim(part) == x + "-" + y && '-' !in x && x != "" ==>
              PartError(Hours, part) ==
              if '-' in y then InvalidRange(Trim(part))
              else if !SmallNumber(Trim(x)) then InvalidNumber(x)
              else if !SmallNumber(Trim(y)) then InvalidNumber(y)
              else RangeOutOfRange(Trim(part))
  {
    var t := Trim(part);
    Hyphens(t, x, y);
    NoHyphenInNumber(t);
    SmallNumberIff(t);
    SmallNumberIff(Trim(x));
    SmallNumberIff(Trim(y));
    ParseUnsignedIff(t, U8_MAX, n);
    hide Trim;
    hide Split;
    hide ParseUnsigned;
    hide Decimal;
    if t == "-" + y {
      assert t[0] == '-' && '-' in t;
    }
    if t == x + "-" + y && x != "" && '-' !in x {
      assert t[0] == x[0] && t[|x|] == '-';
    }
  }

  /** A decimal that fits a byte. */
  ghost predicate SmallNumber(text: string) {
    exists n: nat :: n <= 255 && Decimal(text, n)
  }

  lemma SmallNumberIff(text: string)
    ensures SmallNumber(text) <==> ParseUnsigned(text, U8_MAX).Some?
  {
    if ParseUnsigned(text, U8_MAX).Some? {
      ParseUnsignedIff(text, U8_MAX, ParseUnsigned(text, U8_MAX).value);
    }
    if n: nat :| n <= 255 && Decimal(text, n) {
      ParseUnsignedIff(text, U8_MAX, n);
    }
  }

  /** A range has two ends exactly when it has one hyphen. */
  lemma Hyphens(t: string, x: string, y: string)
    ensures t == x + "-" + y && '-' !in x ==>
              '-' in t && (if '-' in y then |Split(t, '-')| > 2 else Split(t, '-') == [x, y])
  {
    if t == x + "-" + y && '-' !in x {
      assert t[|x|] == '-';
      SplitJoin(x, y, '-');
      SplitNone(x, '-');
      SplitParts(y, '-');
      SplitInTwo(t, '-', x, y);
    }
  }
}
