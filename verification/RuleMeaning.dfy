/**
  What compiling a rule list and testing a rule mean: which lists are refused, which rules are inert, and
  what each kind of rule compares with a certificate's signals.
*/
module RuleMeaning {
  import opened Wrappers
  import opened Sorting
  import opened Engine
  import opened EngineTheorems
  import Glob

  // --- compilation ----------------------------------------------------------------------

  /** A rule no reading of the ladder or of the match kinds covers. */
  predicate Drifts(r: Rule) {
    r.tier != ServiceMember && (r.tier.UnknownTier? || r.kind.UnknownKind?)
  }

  /** The pattern of a regex rule that cannot be used: longer than 1024 bytes, or not a regex. */
  predicate BadPattern(lib: TextLibrary, r: Rule) {
    r.kind == BySanRegex && (lib.byteLength(r.value) > 1024 || !lib.regexValid(r.value))
  }

  /** The error names the first drifting rule, and its tier before its kind. */
  ghost predicate NamesFirstDrift(rules: seq<Rule>, e: CompileError, i: nat) {
    && i < |rules| && Drifts(rules[i]) && (forall j | 0 <= j < i :: !Drifts(rules[j]))
    && e == if rules[i].tier.UnknownTier? then UnknownPrecedenceTier(rules[i].id, rules[i].tier)
            else UnknownMatchKind(rules[i].id, rules[i].kind)
  }

  lemma {:induction false} FirstDriftNamed(rules: seq<Rule>)
    ensures FirstDrift(rules).Some? ==> exists i: nat :: NamesFirstDrift(rules, FirstDrift(rules).value, i)
    ensures FirstDrift(rules).None? ==> forall r | r in rules :: !Drifts(r)
  {
    if rules != [] {
      FirstDriftNamed(rules[1..]);
      if DriftOf(rules[0]).Some? {
        assert NamesFirstDrift(rules, DriftOf(rules[0]).value, 0);
      } else if FirstDrift(rules[1..]).Some? {
        var i: nat :| NamesFirstDrift(rules[1..], FirstDrift(rules[1..]).value, i);
        assert NamesFirstDrift(rules, FirstDrift(rules).value, i + 1);
      }
    }
  }

  ghost predicate FailsToCompile(lib: TextLibrary, r: Rule, f: CompileFailure) {
    && r.tier != ServiceMember && BadPattern(lib, r) && f.ruleId == r.id
    && f.reason == if lib.byteLength(r.value) > 1024 then PatternTooLong else InvalidRegex
  }

  lemma {:induction false} FailuresMeaning(lib: TextLibrary, rules: seq<Rule>, f: CompileFailure)
    ensures f in Failures(lib, rules) <==> exists r :: r in rules && FailsToCompile(lib, r, f)
  {
    if rules != [] {
      FailuresMeaning(lib, rules[1..], f);
      assert rules == [rules[0]] + rules[1..];
      assert f in FailureOf(lib, rules[0]) && !Reserved(rules[0]) <==> FailsToCompile(lib, rules[0], f);
    }
  }

  /**
    A compilation is refused iff a rule outside the reserved tier has an unknown tier or match kind, with
    the first such rule in the error. Otherwise it holds every unreserved rule, in ladder order, and
    reports exactly the unreserved regex rules whose pattern is too long or invalid.
  */
  lemma {:induction false} CompilationMeaning(lib: TextLibrary, rules: seq<Rule>)
    requires DistinctIds(rules)
    ensures match Compiled(lib, rules)
      case Err(e) => exists i: nat :: NamesFirstDrift(rules, e, i)
      case Ok(rs) =>
        && (forall r | r in rules :: !Drifts(r)) && InLadderOrder(rs.rules)
        && (forall r :: (exists cr :: cr in rs.rules && cr.rule == r) <==> r in rules && r.tier != ServiceMember)
        && (forall f :: f in rs.failures <==> exists r :: r in rules && FailsToCompile(lib, r, f))
  {
    FirstDriftNamed(rules);
    if FirstDrift(rules).None? {
      CompiledMembers(lib, rules);
      forall f ensures f in Failures(lib, rules) <==> exists r :: r in rules && FailsToCompile(lib, r, f) {
        FailuresMeaning(lib, rules, f);
      }
    }
  }

  lemma {:induction false} CompiledInOrder(lib: TextLibrary, rules: seq<Rule>, out: seq<CompiledRule>)
    requires DistinctIds(rules) && FirstDrift(rules).None? && out == Sort(CompileAll(lib, rules), WalkBefore)
    ensures InLadderOrder(out)
    ensures forall cr :: cr in out <==> cr.rule in rules && Usable(cr.rule) && cr == CompileOne(lib, cr.rule)
  {
    WalkOrderStrict();
    CompileAllComparable(lib, rules);
    SortSorted(CompileAll(lib, rules), WalkBefore);
    SameElements(out, CompileAll(lib, rules));
    forall cr ensures cr in out <==> cr.rule in rules && Usable(cr.rule) && cr == CompileOne(lib, cr.rule) {
      CompileAllMembers(lib, rules, cr);
    }
    SortedIsLadder(lib, out);
  }

  lemma {:induction false} CompiledMembers(lib: TextLibrary, rules: seq<Rule>)
    requires DistinctIds(rules) && FirstDrift(rules).None? && forall r | r in rules :: !Drifts(r)
    ensures var out := Sort(CompileAll(lib, rules), WalkBefore);
      && InLadderOrder(out)
      && forall r :: (exists cr :: cr in out && cr.rule == r) <==> r in rules && r.tier != ServiceMember
  {
    var out := Sort(CompileAll(lib, rules), WalkBefore);
    CompiledInOrder(lib, rules, out);
    forall r ensures (exists cr :: cr in out && cr.rule == r) <==> r in rules && r.tier != ServiceMember {
      CompiledMember(lib, rules, out, r);
    }
  }

  lemma {:induction false} CompiledMember(lib: TextLibrary, rules: seq<Rule>, out: seq<CompiledRule>, r: Rule)
    requires forall q | q in rules :: !Drifts(q)
    requires forall cr :: cr in out <==> cr.rule in rules && Usable(cr.rule) && cr == CompileOne(lib, cr.rule)
    ensures (exists cr :: cr in out && cr.rule == r) <==> r in rules && r.tier != ServiceMember
  {
    if r in rules && r.tier != ServiceMember {
      assert Usable(r) && CompileOne(lib, r) in out;
    }
  }

  // --- what each kind compares -------------------------------------------------------------

  /** "key" asks for the key with any value, "key:value" for that pair; only the first colon splits. */
  ghost predicate TagAsked(asked: string, t: TagPair) {
    if ':' in asked then ':' !in t.key && t.key + ":" + t.value == asked else t.key == asked
  }

  lemma {:induction false} SplitOnce(a: string, b: string, x: string, y: string)
    requires ':' !in a && ':' !in x && a + ":" + b == x + ":" + y
    ensures a == x && b == y
  {
    var s := a + ":" + b;
    assert s[|a|] == ':' && (x + ":" + y)[|x|] == ':';
    assert a == s[..|a|] && x == s[..|x|] && b == s[|a| + 1..] && y == s[|x| + 1..];
  }

  lemma {:induction false} TagMatchMeaning(tags: seq<TagPair>, asked: string)
    ensures MatchesTag(tags, ParseTagMatch(asked)) <==> exists t :: t in tags && TagAsked(asked, t)
  {
    var m := ParseTagMatch(asked);
    forall t: TagPair ensures (t.key == m.key && (!m.hasValue || t.value == m.value)) <==> TagAsked(asked, t) {
      if TagAsked(asked, t) && m.hasValue { SplitOnce(t.key, t.value, m.key, m.value); }
    }
  }

  /** What a usable rule of each kind but the globs asks of the signals. */
  ghost predicate Asks(lib: TextLibrary, sig: Signals, r: Rule) {
    match r.kind
    case ByFallback => true
    case ByAgentGroup => r.value in sig.agentGroupIds
    case ByIssuerDn => r.value == sig.issuer
    case ByStoreLocation => r.value in sig.storeLocations
    case BySanRegex => !BadPattern(lib, r) && exists san :: san in sig.sans && lib.regexMatches(r.value, san)
    case ByTag => exists t :: (t in sig.certTags || t in sig.agentTags) && TagAsked(r.value, t)
    case BySanGlob => exists san :: san in sig.sans && Glob.GlobMeaning(lib.fold, r.value, san)
    case BySubjectCnGlob =>
      var cn := ParseCn(lib, sig.subject);
      cn != "" && Glob.GlobMeaning(lib.fold, r.value, cn)
    case UnknownKind(_) => false
  }

  /** No name a glob is tested on holds a newline. */
  ghost predicate PlainNames(lib: TextLibrary, sig: Signals) {
    '\n' !in ParseCn(lib, sig.subject) && forall san | san in sig.sans :: '\n' !in san
  }

  lemma {:induction false} GlobTest(lib: TextLibrary, r: Rule, name: string)
    requires r.kind == BySanGlob || r.kind == BySubjectCnGlob
    requires '\n' !in name
    ensures NameMatches(lib, MatcherFor(lib, r), name) <==> Glob.GlobMeaning(lib.fold, r.value, name)
  {
    Glob.GlobRegexExact(lib.fold, r.value, name);
  }

  /** A rule is relevant iff its tier is not reserved and its kind's question is answered yes. */
  lemma {:induction false} RelevanceByKind(lib: TextLibrary, sig: Signals, r: Rule)
    requires !Drifts(r) && (r.kind == BySanGlob || r.kind == BySubjectCnGlob ==> PlainNames(lib, sig))
    ensures Relevant(lib, sig, r) <==> r.tier != ServiceMember && Asks(lib, sig, r)
  {
    match r.kind {
      case BySanGlob =>
        forall san | san in sig.sans
          ensures NameMatches(lib, MatcherFor(lib, r), san) <==> Glob.GlobMeaning(lib.fold, r.value, san)
        {
          GlobTest(lib, r, san);
        }
      case BySubjectCnGlob => GlobTest(lib, r, ParseCn(lib, sig.subject));
      case ByTag =>
        TagMatchMeaning(sig.certTags, r.value);
        TagMatchMeaning(sig.agentTags, r.value);
      case _ =>
    }
  }

  // --- the common name -------------------------------------------------------------------------

  function JoinComma(parts: seq<string>): string
    requires parts != []
  {
    if |parts| == 1 then parts[0] else parts[0] + "," + JoinComma(parts[1..])
  }

  lemma {:induction false} SplitJoins(s: string)
    ensures JoinComma(SplitComma(s)) == s
    ensures forall part | part in SplitComma(s) :: ',' !in part
  {
    if s != "" {
      SplitJoins(s[1..]);
      var rest := SplitComma(s[1..]);
      assert s == [s[0]] + s[1..];
      if s[0] == ',' {
        assert SplitComma(s)[1..] == rest;
      } else {
        assert SplitComma(s)[1..] == rest[1..];
      }
    }
  }

  function Stripped(lib: TextLibrary, part: string): string {
    TrimRight(lib, TrimLeft(lib, part))
  }

  /** What is left is inside the part, what is cut off is white space, and its ends are not. */
  lemma {:induction false} StrippedMeaning(lib: TextLibrary, part: string) returns (i: nat, j: nat)
    ensures i <= j <= |part| && Stripped(lib, part) == part[i..j]
    ensures forall k | 0 <= k < i || j <= k < |part| :: lib.isSpace(part[k])
    ensures i < j ==> !lib.isSpace(part[i]) && !lib.isSpace(part[j - 1])
  {
    i := LeftTrimmed(lib, part);
    var n := RightTrimmed(lib, part[i..]);
    j := i + n;
    assert part[i..][..n] == part[i..j];
    forall k | j <= k < |part| ensures lib.isSpace(part[k]) {
      assert part[k] == part[i..][k - i];
    }
  }

  lemma {:induction false} LeftTrimmed(lib: TextLibrary, s: string) returns (i: nat)
    ensures i <= |s| && TrimLeft(lib, s) == s[i..] && forall k | 0 <= k < i :: lib.isSpace(s[k])
    ensures i < |s| ==> !lib.isSpace(s[i])
  {
    i := 0;
    if s != "" && lib.isSpace(s[0]) {
      var n := LeftTrimmed(lib, s[1..]);
      i := n + 1;
      assert s[1..][n..] == s[i..];
      forall k | 0 <= k < i ensures lib.isSpace(s[k]) {
        if k > 0 { assert s[k] == s[1..][k - 1]; }
      }
    }
  }

  lemma {:induction false} RightTrimmed(lib: TextLibrary, s: string) returns (n: nat)
    ensures n <= |s| && TrimRight(lib, s) == s[..n] && forall k | n <= k < |s| :: lib.isSpace(s[k])
    ensures n > 0 ==> !lib.isSpace(s[n - 1])
  {
    n := |s|;
    if s != "" && lib.isSpace(s[|s| - 1]) {
      n := RightTrimmed(lib, s[..|s| - 1]);
      assert s[..|s| - 1][..n] == s[..n];
      forall k | n <= k < |s| ensures lib.isSpace(s[k]) {
        if k < |s| - 1 { assert s[k] == s[..|s| - 1][k]; }
      }
    }
  }

  predicate IsCn(part: string) {
    |part| >= 3 && (part[..3] == "CN=" || part[..3] == "Cn=" || part[..3] == "cN=" || part[..3] == "cn=")
  }

  ghost predicate FirstCnAt(lib: TextLibrary, parts: seq<string>, i: nat) {
    i < |parts| && IsCn(Stripped(lib, parts[i])) && forall j | 0 <= j < i :: !IsCn(Stripped(lib, parts[j]))
  }

  /**
    The common name is what follows "CN=", in any case, in the first of the comma-separated components of
    the subject that starts with it, white space around the component aside; without one it is empty.
  */
  lemma {:induction false} CommonNameMeaning(lib: TextLibrary, subject: string) returns (parts: seq<string>)
    ensures parts != [] && JoinComma(parts) == subject && forall part | part in parts :: ',' !in part
    ensures forall i: nat | FirstCnAt(lib, parts, i) :: ParseCn(lib, subject) == Stripped(lib, parts[i])[3..]
    ensures (forall i | 0 <= i < |parts| :: !IsCn(Stripped(lib, parts[i]))) ==> ParseCn(lib, subject) == ""
  {
    parts := SplitComma(subject);
    SplitJoins(subject);
    FirstCnMeaning(lib, parts);
  }

  lemma {:induction false} FirstCnMeaning(lib: TextLibrary, parts: seq<string>)
    ensures forall i: nat | FirstCnAt(lib, parts, i) :: FirstCn(lib, parts) == Stripped(lib, parts[i])[3..]
    ensures (forall i | 0 <= i < |parts| :: !IsCn(Stripped(lib, parts[i]))) ==> FirstCn(lib, parts) == ""
  {
    if parts != [] {
      FirstCnMeaning(lib, parts[1..]);
      CnPrefix(Stripped(lib, parts[0]));
      forall i: nat | FirstCnAt(lib, parts, i) ensures FirstCn(lib, parts) == Stripped(lib, parts[i])[3..] {
        if i > 0 {
          assert !IsCn(Stripped(lib, parts[0]));
          assert FirstCnAt(lib, parts[1..], i - 1);
        }
      }
    }
  }

  lemma {:induction false} CnPrefix(part: string)
    ensures IsCn(part) <==> |part| >= 3 && part[0] in "cC" && part[1] in "nN" && part[2] == '='
  {
    if |part| >= 3 { assert part[..3] == [part[0], part[1], part[2]]; }
  }
}
