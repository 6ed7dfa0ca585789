/** The rules a spec's taint list has to meet before it may be merged. */
module TaintValidation {
  import opened Wrappers
  import opened Text
  import opened NodeTaints

  const TAINT_NAME_MAX_LEN: nat := 63
  const TAINT_PREFIX_MAX_LEN: nat := 253
  const RESERVED_TAINT_PREFIXES: seq<string> :=
    ["5spot.finos.org/", "node.kubernetes.io/", "node-role.kubernetes.io/", "kubernetes.io/"]

  datatype KeyFault =
    | EmptyKey | ReservedPrefix(prefix: string) | PrefixLength | PrefixNotSubdomain | NameLength | NameNotQualified

  datatype ValueFault = ValueLength | ValueNotQualified

  datatype TaintError =
    | BadKey(key: string, keyFault: KeyFault)
    | BadValue(value: string, valueFault: ValueFault)
    | Duplicate(taint: NodeTaint)

  predicate IsAlphanumeric(c: char) {
    '0' <= c <= '9' || 'a' <= c <= 'z' || 'A' <= c <= 'Z'
  }

  predicate IsQualifiedName(s: string) {
    && |s| > 0 && IsAlphanumeric(s[0]) && IsAlphanumeric(s[|s| - 1])
    && forall i :: 0 < i < |s| - 1 ==> IsAlphanumeric(s[i]) || s[i] == '-' || s[i] == '.'
  }

  predicate IsDnsLabel(s: string) {
    && 0 < |s| <= TAINT_NAME_MAX_LEN && IsAlphanumeric(s[0]) && IsAlphanumeric(s[|s| - 1])
    && forall i :: 0 <= i < |s| ==> IsAlphanumeric(s[i]) || s[i] == '-'
  }

  predicate IsDnsSubdomain(s: string) {
    0 < |s| <= TAINT_PREFIX_MAX_LEN && forall l :: l in Split(s, '.') ==> IsDnsLabel(l)
  }

  predicate Reserved(key: string) {
    exists p :: p in RESERVED_TAINT_PREFIXES && StartsWith(key, p)
  }

  predicate NameAllowed(name: string) {
    |name| <= TAINT_NAME_MAX_LEN && IsQualifiedName(name)
  }

  /** Everything before the first separator and everything after it. */
  function SplitOnce(s: string, sep: char): Option<(string, string)> {
    if |s| == 0 then None
    else if s[0] == sep then Some(("", s[1..]))
    else
      match SplitOnce(s[1..], sep)
      case Some((before, after)) => Some(([s[0]] + before, after))
      case None => None
  }

  /** The first of the prefixes that the key starts with. */
  function ReservedBy(key: string, prefixes: seq<string>): Option<string> {
    if |prefixes| == 0 then None
    else if prefixes[0] <= key then Some(prefixes[0])
    else ReservedBy(key, prefixes[1..])
  }

  predicate StartsWith(key: string, prefix: string) {
    prefix <= key
  }

  lemma {:induction false} ReservedByIff(key: string, prefixes: seq<string>)
    ensures ReservedBy(key, prefixes).Some? <==> exists p :: p in prefixes && StartsWith(key, p)
  {
    if |prefixes| > 0 {
      ReservedByIff(key, prefixes[1..]);
      assert prefixes[0] in prefixes;
      if p :| p in prefixes && StartsWith(key, p) && p != prefixes[0] {
        assert p in prefixes[1..];
      }
      if p :| p in prefixes[1..] && StartsWith(key, p) {
        assert p in prefixes;
      }
    }
  }

  function CheckName(name: string): (fault: Option<KeyFault>)
    ensures fault.None? <==> NameAllowed(name)
  {
    if |name| == 0 || |name| > TAINT_NAME_MAX_LEN then Some(NameLength)
    else if !IsQualifiedName(name) then Some(NameNotQualified)
    else None
  }

  function CheckPrefix(prefix: string): (fault: Option<KeyFault>)
    ensures fault.None? <==> IsDnsSubdomain(prefix)
  {
    if |prefix| == 0 || |prefix| > TAINT_PREFIX_MAX_LEN then Some(PrefixLength)
    else if !IsDnsSubdomain(prefix) then Some(PrefixNotSubdomain)
    else None
  }

  /** The first fault of a key, in the order the checks come. */
  function CheckKey(key: string): Option<KeyFault> {
    if key == "" then Some(EmptyKey)
    else
      match ReservedBy(key, RESERVED_TAINT_PREFIXES)
      case Some(prefix) => Some(ReservedPrefix(prefix))
      case None =>
        match SplitOnce(key, '/')
        case None => CheckName(key)
        case Some((prefix, name)) => if CheckPrefix(prefix).Some? then CheckPrefix(prefix) else CheckName(name)
  }

  predicate KeyAllowed(key: string) {
    CheckKey(key).None?
  }

  function CheckValue(value: string): Option<ValueFault> {
    if value == "" then None
    else if |value| > TAINT_NAME_MAX_LEN then Some(ValueLength)
    else if !IsQualifiedName(value) then Some(ValueNotQualified)
    else None
  }

  predicate ValueAllowed(value: string) {
    CheckValue(value).None?
  }

  ghost predicate EachAllowed(taints: seq<NodeTaint>) {
    forall t :: t in taints ==> KeyAllowed(t.key) && (t.value.Some? ==> ValueAllowed(t.value.value))
  }

  /** The taint at `n` is the first that offends, and this is why. */
  ghost predicate OffendsAt(taints: seq<NodeTaint>, n: int, error: TaintError) {
    && 0 <= n < |taints| && EachAllowed(taints[..n]) && UniqueWanted(taints[..n])
    && var t := taints[n];
       match error
       case BadKey(key, fault) => key == t.key && CheckKey(key) == Some(fault)
       case BadValue(value, fault) => KeyAllowed(t.key) && t.value == Some(value) && CheckValue(value) == Some(fault)
       case Duplicate(d) => d == t && EachAllowed([t]) && exists i :: Clash(taints, i, n)
  }

  /**
   A list passes exactly when every taint passes and no (key, effect) pair occurs twice. The first
   offending taint is the one reported.
   */
  method ValidateNodeTaints(taints: seq<NodeTaint>) returns (r: Option<TaintError>)
    ensures r.None? <==> EachAllowed(taints) && UniqueWanted(taints)
    ensures r.Some? ==> exists n :: OffendsAt(taints, n, r.value)
  {
    var seen: set<(string, TaintEffect)> := {};
    for n := 0 to |taints|
      invariant EachAllowed(taints[..n]) && UniqueWanted(taints[..n])
      invariant forall i :: 0 <= i < n ==> (taints[i].key, taints[i].effect) in seen
      invariant forall p :: p in seen ==> exists i :: 0 <= i < n && p == (taints[i].key, taints[i].effect)
    {
      var t := taints[n];
      var keyFault := CheckKey(t.key);
      if keyFault.Some? {
        assert OffendsAt(taints, n, BadKey(t.key, keyFault.value));
        return Some(BadKey(t.key, keyFault.value));
      }
      if t.value.Some? && CheckValue(t.value.value).Some? {
        var fault := CheckValue(t.value.value).value;
        assert OffendsAt(taints, n, BadValue(t.value.value, fault));
        return Some(BadValue(t.value.value, fault));
      }
      if (t.key, t.effect) in seen {
        var i :| 0 <= i < n && (t.key, t.effect) == (taints[i].key, taints[i].effect);
        assert Clash(taints, i, n);
        assert OffendsAt(taints, n, Duplicate(t));
        return Some(Duplicate(t));
      }
      NoClashYet(taints, n);
      seen := seen + {(t.key, t.effect)};
    }
    assert taints[..|taints|] == taints;
    return None;
  }

  ghost predicate Clash(taints: seq<NodeTaint>, i: int, j: int) {
    0 <= i < j < |taints| && WantedId(taints[i]) == WantedId(taints[j])
  }

  lemma NoClashYet(taints: seq<NodeTaint>, n: nat)
    requires n < |taints| && EachAllowed(taints[..n]) && UniqueWanted(taints[..n])
    requires EachAllowed([taints[n]])
    requires forall i :: 0 <= i < n ==> (taints[i].key, taints[i].effect) != (taints[n].key, taints[n].effect)
    ensures EachAllowed(taints[..n + 1]) && UniqueWanted(taints[..n + 1])
  {
    assert taints[..n + 1] == taints[..n] + [taints[n]];
    assert [taints[n]][0] == taints[n];
    forall i | 0 <= i < n ensures WantedId(taints[i]) != WantedId(taints[n]) {
      EffectTranslation(EffectStr(taints[i].effect), taints[n].effect);
      EffectTranslation(EffectStr(taints[i].effect), taints[i].effect);
    }
  }

  // ---------------------------------------------------------------------------------------------
  // The key grammar
  // ---------------------------------------------------------------------------------------------

  lemma {:induction false} SplitOnceIff(s: string, sep: char, before: string, after: string)
    ensures SplitOnce(s, sep) == Some((before, after)) <==> s == before + [sep] + after && sep !in before
    ensures SplitOnce(s, sep) == None <==> sep !in s
  {
    if |s| > 0 {
      assert s == [s[0]] + s[1..];
      if s[0] == sep {
        assert before == "" ==> before + [sep] + after == [sep] + after;
        assert before != "" ==> (before + [sep] + after)[0] == before[0];
      } else if before == "" {
        SplitOnceIff(s[1..], sep, "", after);
        assert (before + [sep] + after)[0] == sep;
      } else {
        SplitOnceIff(s[1..], sep, before[1..], after);
        assert before == [before[0]] + before[1..];
        assert (before + [sep] + after)[1..] == before[1..] + [sep] + after;
      }
    }
  }

  /** An allowed key is a name, or a subdomain, one slash, and a name; and it is under no reserved prefix. */
  lemma KeyAllowedIff(key: string)
    ensures KeyAllowed(key) <==>
            && !Reserved(key)
            && (NameAllowed(key)
                || exists prefix, name :: key == prefix + "/" + name && IsDnsSubdomain(prefix) && NameAllowed(name))
    ensures KeyAllowed(key) ==> |key| <= TAINT_PREFIX_MAX_LEN + 1 + TAINT_NAME_MAX_LEN
  {
    SplitOnceIff(key, '/', "", "");
    ReservedByIff(key, RESERVED_TAINT_PREFIXES);
    assert Reserved(key) <==> ReservedBy(key, RESERVED_TAINT_PREFIXES).Some?;
    hide ReservedBy;
    hide Reserved;
    if NameAllowed(key) {
      NameHasNoSlash(key);
    }
    if SplitOnce(key, '/').Some? {
      var (prefix, name) := SplitOnce(key, '/').value;
      SplitOnceIff(key, '/', prefix, name);
    }
    if prefix, name :| key == prefix + "/" + name && IsDnsSubdomain(prefix) && NameAllowed(name) {
      SubdomainHasNoSlash(prefix);
      SplitOnceIff(key, '/', prefix, name);
    }
  }

  lemma NameHasNoSlash(name: string)
    requires NameAllowed(name)
    ensures '/' !in name
  {
  }

  lemma {:induction false} SplitCovers(s: string, sep: char, i: nat)
    requires i < |s| && s[i] != sep
    ensures exists p :: p in Split(s, sep) && s[i] in p
  {
    var rest := Split(s[1..], sep);
    SplitHead(s, sep);
    if i == 0 {
      assert s[0] in Split(s, sep)[0];
    } else {
      SplitCovers(s[1..], sep, i - 1);
      var p :| p in rest && s[i] in p;
      if p == rest[0] && s[0] != sep {
        assert s[i] in Split(s, sep)[0];
      } else {
        assert rest == [rest[0]] + rest[1..];
        assert p in Split(s, sep);
      }
    }
  }

  lemma SubdomainHasNoSlash(prefix: string)
    requires IsDnsSubdomain(prefix)
    ensures '/' !in prefix
  {
    forall i | 0 <= i < |prefix| ensures prefix[i] != '/' {
      if prefix[i] != '.' {
        SplitCovers(prefix, '.', i);
        var p :| p in Split(prefix, '.') && prefix[i] in p;
        assert IsDnsLabel(p);
      }
    }
  }

  // ---------------------------------------------------------------------------------------------
  // The same, character by character
  // ---------------------------------------------------------------------------------------------

  /** An ASCII digit or letter, by code. */
  predicate Alnum(c: char) {
    var n := c as int;
    48 <= n <= 57 || 65 <= n <= 90 || 97 <= n <= 122
  }

  /** Both ends are digits or letters. */
  predicate AlnumEnds(s: string) {
    |s| > 0 && Alnum(s[0]) && Alnum(s[|s| - 1])
  }

  lemma NameAllowedIff(name: string)
    ensures NameAllowed(name) <==>
            && |name| <= 63 && AlnumEnds(name)
            && forall i :: 0 <= i < |name| ==> Alnum(name[i]) || name[i] == '-' || name[i] == '.'
  {
    assert forall c :: IsAlphanumeric(c) <==> Alnum(c);
  }

  /** A digit or letter, or inside the text a hyphen, or a dot between two digits or letters. */
  ghost predicate Fits(s: string, i: int)
    requires 0 <= i < |s|
  {
    || Alnum(s[i])
    || (0 < i < |s| - 1 && (s[i] == '-' || (s[i] == '.' && Alnum(s[i - 1]) && Alnum(s[i + 1]))))
  }

  ghost predicate DotWithin(s: string, i: int) {
    exists j :: 0 <= i <= j < i + 64 <= |s| && s[j] == '.'
  }

  /** No 64 characters in a row without a dot. */
  ghost predicate ShortLabels(s: string) {
    forall i :: 0 <= i && i + 64 <= |s| ==> DotWithin(s, i)
  }

  ghost predicate Dotted(s: string) {
    |s| > 0 && (forall i :: 0 <= i < |s| ==> Fits(s, i)) && ShortLabels(s)
  }

  ghost predicate AllLabels(s: string) {
    forall l :: l in Split(s, '.') ==> IsDnsLabel(l)
  }

  lemma LabelIsDotted(s: string)
    requires '.' !in s
    ensures IsDnsLabel(s) <==> Dotted(s)
  {
    assert forall c :: IsAlphanumeric(c) <==> Alnum(c);
    if Dotted(s) {
      assert Fits(s, 0) && Fits(s, |s| - 1);
      forall i | 0 <= i < |s| ensures Alnum(s[i]) || s[i] == '-' {
        assert Fits(s, i) && s[i] != '.';
      }
      assert |s| < 64 || DotWithin(s, 0);
    }
  }

  lemma FitsJoins(l: string, rest: string, s: string)
    requires s == l + "." + rest && '.' !in l
    ensures (|l| > 0 && (forall i :: 0 <= i < |l| ==> Fits(l, i)))
            && (|rest| > 0 && (forall i :: 0 <= i < |rest| ==> Fits(rest, i))) <==>
            forall i :: 0 <= i < |s| ==> Fits(s, i)
  {
    var n := |l|;
    assert s[n] == '.';
    if forall i :: 0 <= i < |s| ==> Fits(s, i) {
      assert Fits(s, n);
      forall i | 0 <= i < |l| ensures Fits(l, i) {
        assert Fits(s, i) && s[i] == l[i];
      }
      forall i | 0 <= i < |rest| ensures Fits(rest, i) {
        assert Fits(s, n + 1 + i) && s[n + 1 + i] == rest[i];
      }
    }
    if (|l| > 0 && (forall i :: 0 <= i < |l| ==> Fits(l, i)))
       && (|rest| > 0 && (forall i :: 0 <= i < |rest| ==> Fits(rest, i))) {
      assert Fits(l, n - 1) && Fits(rest, 0);
      forall i | 0 <= i < |s| ensures Fits(s, i) {
        if i < n {
          assert Fits(l, i);
        } else if i > n {
          assert Fits(rest, i - n - 1);
        }
      }
    }
  }

  lemma ShortLabelsJoin(l: string, rest: string, s: string)
    requires s == l + "." + rest && '.' !in l
    ensures ShortLabels(s) <==> |l| < 64 && ShortLabels(rest)
  {
    var n := |l|;
    assert s[n] == '.';
    if ShortLabels(s) {
      assert n < 64 || DotWithin(s, 0);
      forall i | 0 <= i && i + 64 <= |rest| ensures DotWithin(rest, i) {
        assert DotWithin(s, n + 1 + i);
        var j :| n + 1 + i <= j < n + 1 + i + 64 && s[j] == '.';
        assert rest[j - n - 1] == '.';
      }
    }
    if n < 64 && ShortLabels(rest) {
      forall i | 0 <= i && i + 64 <= |s| ensures DotWithin(s, i) {
        if i > n {
          assert DotWithin(rest, i - n - 1);
          var j :| i - n - 1 <= j < i - n - 1 + 64 && rest[j] == '.';
          assert s[j + n + 1] == '.';
        }
      }
    }
  }

  lemma ShortIff(l: string)
    requires '.' !in l
    ensures ShortLabels(l) <==> |l| < 64
  {
    assert |l| < 64 || DotWithin(l, 0) || !ShortLabels(l);
  }

  /** Joining a label and a rest by a dot gives a dotted text exactly when both are. */
  lemma DottedJoins(l: string, rest: string)
    requires '.' !in l
    ensures Dotted(l + "." + rest) <==> Dotted(l) && Dotted(rest)
  {
    FitsJoins(l, rest, l + "." + rest);
    ShortLabelsJoin(l, rest, l + "." + rest);
    ShortIff(l);
    hide Fits;
    hide ShortLabels;
  }

  lemma {:induction false} LabelsAreDotted(s: string)
    ensures AllLabels(s) <==> Dotted(s)
    decreases |s|
  {
    SplitOnceIff(s, '.', "", "");
    match SplitOnce(s, '.')
    case None =>
      SplitNone(s, '.');
      LabelIsDotted(s);
    case Some((l, rest)) =>
      SplitOnceIff(s, '.', l, rest);
      SplitJoin(l, rest, '.');
      SplitNone(l, '.');
      LabelsAreDotted(rest);
      LabelIsDotted(l);
      DottedJoins(l, rest);
      hide Dotted;
      hide IsDnsLabel;
      assert Split(s, '.') == [l] + Split(rest, '.');
  }

  /** A prefix is a DNS subdomain exactly when it is dotted and at most 253 characters long. */
  lemma SubdomainIff(prefix: string)
    ensures IsDnsSubdomain(prefix) <==> |prefix| <= 253 && Dotted(prefix)
  {
    LabelsAreDotted(prefix);
  }

  ghost predicate UnderReserved(key: string, prefix: string) {
    && prefix in {"5spot.finos.org/", "node.kubernetes.io/", "node-role.kubernetes.io/", "kubernetes.io/"}
    && prefix <= key
  }

  lemma ReservedFault(key: string, prefix: string)
    ensures CheckKey(key) == Some(ReservedPrefix(prefix)) <==> UnderReserved(key, prefix)
  {
    var ps := RESERVED_TAINT_PREFIXES;
    assert ps[0][0] == '5' && ps[1][4] == '.' && ps[2][4] == '-' && ps[3][0] == 'k' && ps[1][0] == ps[2][0] == 'n';
    assert ps[1..] == [ps[1], ps[2], ps[3]] && ps[1..][1..] == [ps[2], ps[3]];
    assert ps[1..][1..][1..] == [ps[3]] && ps[1..][1..][1..][1..] == [];
    assert ReservedBy(key, [ps[3]]) == if ps[3] <= key then Some(ps[3]) else None;
    assert ReservedBy(key, [ps[2], ps[3]]) == if ps[2] <= key then Some(ps[2]) else ReservedBy(key, [ps[3]]);
    assert ReservedBy(key, [ps[1], ps[2], ps[3]]) ==
           if ps[1] <= key then Some(ps[1]) else ReservedBy(key, [ps[2], ps[3]]);
    assert forall a, b :: 0 <= a < 4 && 0 <= b < 4 && ps[a] <= key && ps[b] <= key ==> a == b;
  }

  /** Which fault a key is reported with, whatever else is wrong with it. */
  lemma KeyFaults(key: string, prefix: string, name: string)
    requires !exists p :: UnderReserved(key, p)
    ensures CheckKey(key) == Some(EmptyKey) <==> key == ""
    ensures key != "" && '/' !in key ==>
              CheckKey(key) == if |key| > 63 then Some(NameLength)
                               else if NameAllowed(key) then None else Some(NameNotQualified)
    ensures key == prefix + "/" + name && '/' !in prefix ==>
              CheckKey(key) == if prefix == "" || |prefix| > 253 then Some(PrefixLength)
                               else if !IsDnsSubdomain(prefix) then Some(PrefixNotSubdomain)
                               else if name == "" || |name| > 63 then Some(NameLength)
                               else if NameAllowed(name) then None else Some(NameNotQualified)
  {
    SplitOnceIff(key, '/', prefix, name);
    match ReservedBy(key, RESERVED_TAINT_PREFIXES)
    case Some(p) =>
      ReservedFault(key, p);
      assert key == "";
    case None =>
  }

  /** A value is empty or a name, and what is wrong with any other. */
  lemma ValueFaults(value: string)
    ensures CheckValue(value) == None <==> value == "" || NameAllowed(value)
    ensures CheckValue(value) == Some(ValueLength) <==> |value| > 63
    ensures CheckValue(value) == Some(ValueNotQualified) <==> 0 < |value| <= 63 && !NameAllowed(value)
  {
  }
}
