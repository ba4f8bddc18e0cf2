/**
  The ownership engine: rule compilation into a walk order, rule matching, and the
  pure decision for one certificate.
*/
module Engine {
  import opened Wrappers
  import opened Ids
  import opened Sorting
  import Glob

  // --- the precedence ladder ------------------------------------------------

  datatype Tier =
    | Explicit | ServiceMember | AgentGroup | SanPattern
    | SubjectPattern | TagTier | IssuerStore | Fallback
    | UnknownTier(name: string)

  function OrdinalOf(t: Tier): Option<nat> {
    match t
    case Explicit => Some(1)
    case ServiceMember => Some(2)
    case AgentGroup => Some(3)
    case SanPattern => Some(4)
    case SubjectPattern => Some(5)
    case TagTier => Some(6)
    case IssuerStore => Some(7)
    case Fallback => Some(8)
    case UnknownTier(_) => None
  }

  datatype Confidence = High | Medium | Low

  function ConfidenceForTier(t: Tier): Confidence {
    match t
    case Explicit => High
    case ServiceMember => High
    case AgentGroup => Medium
    case SanPattern => Medium
    case SubjectPattern => Medium
    case TagTier => Medium
    case _ => Low
  }

  // --- rules, signals, library functions --------------------------------------

  datatype MatchKind =
    | ByFallback | ByAgentGroup | ByIssuerDn | ByStoreLocation
    | BySanGlob | BySubjectCnGlob | BySanRegex | ByTag
    | UnknownKind(name: string)

  datatype Rule = Rule(
    id: Id, name: string, serviceId: Id, tier: Tier, priority: int,
    kind: MatchKind, value: string, createdAt: int)

  datatype TagPair = TagPair(key: string, value: string)

  datatype Signals = Signals(
    subject: string, issuer: string, sans: seq<string>, storeLocations: seq<string>,
    agentIds: seq<string>, agentGroupIds: seq<string>,
    certTags: seq<TagPair>, agentTags: seq<TagPair>)

  /** Text functions of the platform, kept uninterpreted. */
  datatype TextLibrary = TextLibrary(
    fold: Glob.Folding,
    isSpace: char -> bool,
    byteLength: string -> nat,
    regexValid: string -> bool,
    regexMatches: (string, string) -> bool)

  const MAX_REGEX_PATTERN_LEN: nat := 1024

  // --- compilation --------------------------------------------------------------

  datatype Matcher =
    | Direct
    | GlobMatcher(expression: string)
    | RegexMatcher(pattern: string)
    | TagMatcher(key: string, value: string, hasValue: bool)
    | Inert

  datatype CompiledRule = CompiledRule(rule: Rule, ordinal: nat, matcher: Matcher)

  datatype FailureReason = PatternTooLong | InvalidRegex

  datatype CompileFailure = CompileFailure(ruleId: Id, reason: FailureReason)

  datatype CompileError =
    | UnknownPrecedenceTier(ruleId: Id, tier: Tier)
    | UnknownMatchKind(ruleId: Id, kind: MatchKind)

  datatype RuleSet = RuleSet(rules: seq<CompiledRule>, failures: seq<CompileFailure>)

  /** The service_member tier is reserved: such a rule is skipped before any other check. */
  predicate Reserved(r: Rule) {
    r.tier == ServiceMember
  }

  function RegexFailure(lib: TextLibrary, pattern: string): Option<FailureReason> {
    if lib.byteLength(pattern) > MAX_REGEX_PATTERN_LEN then Some(PatternTooLong)
    else if !lib.regexValid(pattern) then Some(InvalidRegex)
    else None
  }

  /** Splits "key:value" at the first colon. */
  function ParseTagMatch(value: string): (m: Matcher)
    ensures m.TagMatcher?
    ensures m.hasValue <==> ':' in value
    ensures ':' !in m.key && value == if m.hasValue then m.key + ":" + m.value else m.key
  {
    if value == "" then TagMatcher("", "", false)
    else if value[0] == ':' then TagMatcher("", value[1..], true)
    else
      var m := ParseTagMatch(value[1..]);
      assert value == [value[0]] + value[1..];
      m.(key := [value[0]] + m.key)
  }

  function MatcherFor(lib: TextLibrary, r: Rule): Matcher {
    match r.kind
    case BySanGlob => GlobMatcher(Glob.Expression(r.value))
    case BySubjectCnGlob => GlobMatcher(Glob.Expression(r.value))
    case BySanRegex => if RegexFailure(lib, r.value).Some? then Inert else RegexMatcher(r.value)
    case ByTag => ParseTagMatch(r.value)
    case _ => Direct
  }

  /** The structural drift, if any, that makes the whole compilation fail at this rule. */
  function DriftOf(r: Rule): Option<CompileError> {
    if Reserved(r) then None
    else if OrdinalOf(r.tier).None? then Some(UnknownPrecedenceTier(r.id, r.tier))
    else if r.kind.UnknownKind? then Some(UnknownMatchKind(r.id, r.kind))
    else None
  }

  predicate Usable(r: Rule) {
    !Reserved(r) && DriftOf(r).None?
  }

  function CompileOne(lib: TextLibrary, r: Rule): CompiledRule
    requires Usable(r)
  {
    CompiledRule(r, OrdinalOf(r.tier).value, MatcherFor(lib, r))
  }

  function FailureOf(lib: TextLibrary, r: Rule): seq<CompileFailure> {
    if r.kind == BySanRegex && RegexFailure(lib, r.value).Some?
    then [CompileFailure(r.id, RegexFailure(lib, r.value).value)]
    else []
  }

  function FirstDrift(rules: seq<Rule>): Option<CompileError> {
    if rules == [] then None
    else if DriftOf(rules[0]).Some? then DriftOf(rules[0])
    else FirstDrift(rules[1..])
  }

  function CompileAll(lib: TextLibrary, rules: seq<Rule>): seq<CompiledRule>
    requires FirstDrift(rules).None?
  {
    if rules == [] then []
    else (if Reserved(rules[0]) then [] else [CompileOne(lib, rules[0])]) + CompileAll(lib, rules[1..])
  }

  function Failures(lib: TextLibrary, rules: seq<Rule>): seq<CompileFailure> {
    if rules == [] then []
    else (if Reserved(rules[0]) then [] else FailureOf(lib, rules[0])) + Failures(lib, rules[1..])
  }

  /** The engine walk order: tier ordinal, priority, creation time, id. */
  predicate WalkBefore(a: CompiledRule, b: CompiledRule) {
    if a.ordinal != b.ordinal then a.ordinal < b.ordinal
    else if a.rule.priority != b.rule.priority then a.rule.priority < b.rule.priority
    else if a.rule.createdAt != b.rule.createdAt then a.rule.createdAt < b.rule.createdAt
    else Less(a.rule.id, b.rule.id)
  }

  /** What one compilation of a rule list yields. */
  function Compiled(lib: TextLibrary, rules: seq<Rule>): Result<RuleSet, CompileError> {
    match FirstDrift(rules)
    case Some(e) => Err(e)
    case None => Ok(RuleSet(Sort(CompileAll(lib, rules), WalkBefore), Failures(lib, rules)))
  }

  lemma {:induction false} PrefixStep(lib: TextLibrary, rules: seq<Rule>, r: Rule)
    ensures FirstDrift(rules + [r]) == if FirstDrift(rules).Some? then FirstDrift(rules) else DriftOf(r)
    ensures Failures(lib, rules + [r]) == Failures(lib, rules) + if Reserved(r) then [] else FailureOf(lib, r)
    ensures FirstDrift(rules + [r]).None? ==>
      CompileAll(lib, rules + [r]) == CompileAll(lib, rules) + if Reserved(r) then [] else [CompileOne(lib, r)]
  {
    if rules == [] {
      assert [r][1..] == [];
    } else {
      assert (rules + [r])[1..] == rules[1..] + [r];
      PrefixStep(lib, rules[1..], r);
    }
  }

  lemma {:induction false} DriftSticks(rules: seq<Rule>, i: nat)
    requires i <= |rules| && FirstDrift(rules[..i]).Some?
    ensures FirstDrift(rules) == FirstDrift(rules[..i])
  {
    if i > 0 && DriftOf(rules[0]).None? {
      assert rules[..i][1..] == rules[1..][..i - 1];
      DriftSticks(rules[1..], i - 1);
    }
  }

  method CompileRules(lib: TextLibrary, rules: seq<Rule>) returns (out: Result<RuleSet, CompileError>)
    ensures out == Compiled(lib, rules)
  {
    var compiled: seq<CompiledRule> := [];
    var failures: seq<CompileFailure> := [];
    for i := 0 to |rules|
      invariant FirstDrift(rules[..i]).None?
      invariant compiled == CompileAll(lib, rules[..i])
      invariant failures == Failures(lib, rules[..i])
    {
      var r := rules[i];
      assert rules[..i + 1] == rules[..i] + [r];
      PrefixStep(lib, rules[..i], r);
      if r.tier == ServiceMember {
        continue;
      }
      var ord := OrdinalOf(r.tier);
      if ord.None? {
        DriftSticks(rules, i + 1);
        return Err(UnknownPrecedenceTier(r.id, r.tier));
      }
      var cr := CompiledRule(r, ord.value, Direct);
      match r.kind {
        case BySanGlob =>
          var re := Glob.CompileGlob(r.value);
          cr := cr.(matcher := GlobMatcher(re));
        case BySubjectCnGlob =>
          var re := Glob.CompileGlob(r.value);
          cr := cr.(matcher := GlobMatcher(re));
        case BySanRegex =>
          var reason := RegexFailure(lib, r.value);
          if reason.Some? {
            cr := cr.(matcher := Inert);
            failures := failures + [CompileFailure(r.id, reason.value)];
          } else {
            cr := cr.(matcher := RegexMatcher(r.value));
          }
        case ByTag => cr := cr.(matcher := ParseTagMatch(r.value));
        case UnknownKind(_) =>
          DriftSticks(rules, i + 1);
          return Err(UnknownMatchKind(r.id, r.kind));
        case _ =>
      }
      compiled := compiled + [cr];
    }
    assert rules[..|rules|] == rules;
    out := Ok(RuleSet(Sort(compiled, WalkBefore), failures));
  }

  // --- matching --------------------------------------------------------------------

  function TrimLeft(lib: TextLibrary, s: string): string {
    if s != "" && lib.isSpace(s[0]) then TrimLeft(lib, s[1..]) else s
  }

  function TrimRight(lib: TextLibrary, s: string): string {
    if s != "" && lib.isSpace(s[|s| - 1]) then TrimRight(lib, s[..|s| - 1]) else s
  }

  function SplitComma(s: string): (parts: seq<string>)
    ensures parts != []
  {
    if s == "" then [""]
    else
      var rest := SplitComma(s[1..]);
      if s[0] == ',' then [""] + rest else [[s[0]] + rest[0]] + rest[1..]
  }

  function FirstCn(lib: TextLibrary, parts: seq<string>): string {
    if parts == [] then ""
    else
      var part := TrimRight(lib, TrimLeft(lib, parts[0]));
      if |part| >= 3 && part[0] in "cC" && part[1] in "nN" && part[2] == '=' then part[3..]
      else FirstCn(lib, parts[1..])
  }

  /** The first CN component of a subject DN, or the empty string. */
  function ParseCn(lib: TextLibrary, subject: string): string {
    FirstCn(lib, SplitComma(subject))
  }

  predicate MatchesTag(tags: seq<TagPair>, m: Matcher)
    requires m.TagMatcher?
  {
    exists t :: t in tags && t.key == m.key && (!m.hasValue || t.value == m.value)
  }

  predicate NameMatches(lib: TextLibrary, m: Matcher, name: string) {
    match m
    case GlobMatcher(expression) => Glob.ExpressionAccepts(lib.fold, expression, name)
    case RegexMatcher(pattern) => lib.regexMatches(pattern, name)
    case _ => false
  }

  /** Whether the rule's predicate holds of the certificate's signals. An inert rule never matches. */
  predicate Matches(lib: TextLibrary, cr: CompiledRule, sig: Signals) {
    if cr.matcher.Inert? then false
    else
      match cr.rule.kind
      case ByFallback => true
      case BySanGlob => exists san :: san in sig.sans && NameMatches(lib, cr.matcher, san)
      case BySanRegex => exists san :: san in sig.sans && NameMatches(lib, cr.matcher, san)
      case BySubjectCnGlob =>
        var cn := ParseCn(lib, sig.subject);
        cn != "" && NameMatches(lib, cr.matcher, cn)
      case ByAgentGroup => cr.rule.value in sig.agentGroupIds
      case ByIssuerDn => sig.issuer == cr.rule.value
      case ByStoreLocation => cr.rule.value in sig.storeLocations
      case ByTag =>
        cr.matcher.TagMatcher? && (MatchesTag(sig.certTags, cr.matcher) || MatchesTag(sig.agentTags, cr.matcher))
      case UnknownKind(_) => false
  }

  // --- the decision ------------------------------------------------------------------

  datatype DecisionKind = Matched | Overridden | Unowned | Ambiguous

  datatype Reason = TiedOnId | LaterCreatedAt | LowerPriority | LowerPrecedenceThan(tier: Tier)

  datatype LosingRule = LosingRule(ruleId: Id, name: string, tier: Tier, priority: int, reason: Reason)

  datatype Decision = Decision(
    kind: DecisionKind, service: Option<Id>, winningRule: Option<Id>, overrideId: Option<Id>,
    confidence: Confidence, losing: seq<LosingRule>)

  datatype Pin = Pin(overrideId: Id, service: Id, expiresAt: Option<int>)

  const MAX_LOSING_RULES: nat := 8

  predicate OverrideActive(o: Option<Pin>, now: int) {
    o.Some? && (o.value.expiresAt.None? || o.value.expiresAt.value > now)
  }

  predicate Ties(a: Rule, b: Rule) {
    a.tier == b.tier && a.priority == b.priority && a.createdAt == b.createdAt
  }

  function ReasonNotChosen(l: Rule, w: Rule): Reason {
    if l.tier != w.tier then LowerPrecedenceThan(w.tier)
    else if l.priority != w.priority then LowerPriority
    else if l.createdAt != w.createdAt then LaterCreatedAt
    else TiedOnId
  }

  function MatchTest(lib: TextLibrary, sig: Signals): CompiledRule -> bool {
    (cr: CompiledRule) => Matches(lib, cr, sig)
  }

  function TieTest(w: CompiledRule): CompiledRule -> bool {
    (cr: CompiledRule) => Ties(cr.rule, w.rule)
  }

  function LosingEntry(m: CompiledRule, w: CompiledRule): LosingRule {
    LosingRule(m.rule.id, m.rule.name, m.rule.tier, m.rule.priority, ReasonNotChosen(m.rule, w.rule))
  }

  /** The bounded list of rules that matched but lost, in walk order. */
  function LosingOf(matched: seq<CompiledRule>): seq<LosingRule> {
    if matched == [] then []
    else seq(Min(|matched| - 1, MAX_LOSING_RULES),
             i requires 0 <= i < Min(|matched| - 1, MAX_LOSING_RULES) => LosingEntry(matched[i + 1], matched[0]))
  }

  function DecideFromMatched(matched: seq<CompiledRule>): Decision {
    if matched == [] then Decision(Unowned, None, None, None, Low, [])
    else
      var w := matched[0];
      Decision(if |Filter(matched, TieTest(w))| > 1 then Ambiguous else Matched,
               Some(w.rule.serviceId), Some(w.rule.id), None,
               ConfidenceForTier(w.rule.tier), LosingOf(matched))
  }

  /** The decision for one certificate, given its override and the rules in walk order. */
  function Decide(lib: TextLibrary, sig: Signals, o: Option<Pin>, rules: seq<CompiledRule>, now: int): Decision {
    if OverrideActive(o, now)
    then Decision(Overridden, Some(o.value.service), None, Some(o.value.overrideId), High, [])
    else DecideFromMatched(Filter(rules, MatchTest(lib, sig)))
  }

  lemma FilterPrefix(s: seq<CompiledRule>, i: nat, keep: CompiledRule -> bool)
    requires i < |s|
    ensures Filter(s[..i + 1], keep) == Filter(s[..i], keep) + if keep(s[i]) then [s[i]] else []
  {
    assert s[..i + 1] == s[..i] + [s[i]];
    FilterAppend(s[..i], [s[i]], keep);
    assert [s[i]][1..] == [];
  }

  method BuildLosing(matched: seq<CompiledRule>, winner: CompiledRule) returns (out: seq<LosingRule>)
    requires matched != [] && winner == matched[0]
    ensures out == LosingOf(matched)
  {
    if |matched| <= 1 {
      return [];
    }
    out := [];
    for i := 1 to |matched|
      invariant |out| == i - 1 < MAX_LOSING_RULES
      invariant forall k | 0 <= k < |out| :: out[k] == LosingEntry(matched[k + 1], winner)
    {
      var m := matched[i];
      out := out + [LosingRule(m.rule.id, m.rule.name, m.rule.tier, m.rule.priority,
                               ReasonNotChosen(m.rule, winner.rule))];
      if |out| == MAX_LOSING_RULES {
        break;
      }
    }
  }

  method DecideOwnership(lib: TextLibrary, sig: Signals, o: Option<Pin>, rules: seq<CompiledRule>, now: int)
    returns (d: Decision)
    ensures d == Decide(lib, sig, o, rules, now)
  {
    if OverrideActive(o, now) {
      return Decision(Overridden, Some(o.value.service), None, Some(o.value.overrideId), High, []);
    }
    var matched: seq<CompiledRule> := [];
    for i := 0 to |rules|
      invariant matched == Filter(rules[..i], MatchTest(lib, sig))
    {
      FilterPrefix(rules, i, MatchTest(lib, sig));
      if Matches(lib, rules[i], sig) {
        matched := matched + [rules[i]];
      }
    }
    assert rules[..|rules|] == rules;
    if matched == [] {
      return Decision(Unowned, None, None, None, Low, []);
    }
    var winner := matched[0];
    var tied := 0;
    for i := 0 to |matched|
      invariant tied == |Filter(matched[..i], TieTest(winner))|
    {
      FilterPrefix(matched, i, TieTest(winner));
      var m := matched[i];
      if m.rule.tier == winner.rule.tier && m.rule.priority == winner.rule.priority
         && m.rule.createdAt == winner.rule.createdAt {
        tied := tied + 1;
      }
    }
    assert matched[..|matched|] == matched;
    var kind := Matched;
    if tied > 1 {
      kind := Ambiguous;
    }
    var losing := BuildLosing(matched, winner);
    d := Decision(kind, Some(winner.rule.serviceId), Some(winner.rule.id), None,
                  ConfidenceForTier(winner.rule.tier), losing);
  }
}
