/**
 * The rule builder of the evaluator. A rule has a name, a list of violations that `hint`, `warning` and
 * `error` append to, and a list of matchers that `require` blocks append to; a matcher is added as it is
 * (`+m`) or negated (`-m`).
 */
module Evaluator {
  import opened Model

  /** The severity of a violation. */
  datatype Severity = HINT | WARNING | ERROR

  /** A violation of a rule, for one package and license. */
  datatype RuleViolation = RuleViolation(
    rule: string,
    pkg: Identifier,
    license: string,
    licenseSource: LicenseSource,
    severity: Severity,
    message: string)

  /** A matcher: a described condition with its value, or the negation of another matcher. */
  datatype RuleMatcher = Condition(text: string, holds: bool) | Not(negated: RuleMatcher)

  /** The number of negations wrapped around a matcher's condition. */
  function Negations(m: RuleMatcher): nat {
    match m
    case Condition(_, _) => 0
    case Not(inner) => Negations(inner) + 1
  }

  /** The condition at the heart of a matcher, under all its negations. */
  function Innermost(m: RuleMatcher): (r: RuleMatcher)
    ensures r.Condition?
  {
    match m
    case Condition(_, _) => m
    case Not(inner) => Innermost(inner)
  }

  /** `s` written `n` times. */
  function Repeat(s: string, n: nat): string {
    if n == 0 then "" else s + Repeat(s, n - 1)
  }

  /** One more copy of `s` may as well go at the end. */
  lemma {:induction false} RepeatAppend(s: string, n: nat)
    ensures Repeat(s, n) + s == Repeat(s, n + 1)
  {
    if n > 0 {
      RepeatAppend(s, n - 1);
      calc {
        Repeat(s, n) + s;
        (s + Repeat(s, n - 1)) + s;
        s + (Repeat(s, n - 1) + s);
        s + Repeat(s, n);
      }
    }
  }

  /**
   * The human-readable description of a matcher: its condition's text, with `!(` before it and `)` after
   * it once for every negation.
   */
  function Description(m: RuleMatcher): (r: string)
    ensures r == Repeat("!(", Negations(m)) + Innermost(m).text + Repeat(")", Negations(m))
  {
    match m
    case Condition(text, _) => text
    case Not(inner) =>
      var n := Negations(inner);
      RepeatAppend(")", n);
      assert "!(" + (Repeat("!(", n) + Innermost(inner).text + Repeat(")", n)) + ")"
          == Repeat("!(", n + 1) + Innermost(inner).text + (Repeat(")", n) + ")");
      "!(" + Description(inner) + ")"
  }

  /** Whether a matcher matches: its condition holds under an even number of negations, and fails under an odd one. */
  predicate Matches(m: RuleMatcher): (r: bool)
    ensures r <==> (Innermost(m).holds <==> Negations(m) % 2 == 0)
  {
    match m
    case Condition(_, holds) => holds
    case Not(inner) => !Matches(inner)
  }

  /** An entry of a `require` block: a matcher added as it is (`+m`) or negated (`-m`). */
  datatype Requirement = Plus(matcher: RuleMatcher) | Minus(matcher: RuleMatcher)

  /**
   * The matcher an entry of a `require` block adds: `+m` adds `m` itself, `-m` a matcher described as `!(`
   * the description of `m` `)` that matches exactly when `m` does not.
   */
  function Declared(e: Requirement): (r: RuleMatcher)
    ensures e.Plus? ==> r == e.matcher
    ensures e.Minus? ==> Description(r) == "!(" + Description(e.matcher) + ")" && (Matches(r) <==> !Matches(e.matcher))
  {
    match e
    case Plus(m) => m
    case Minus(m) => Not(m)
  }

  /**
   * The matchers a `require` block adds, in declaration order: a positive entry keeps the description and
   * the value of its matcher, a negative one wraps the description in `!(` and `)` and flips the value.
   */
  function DeclaredAll(block: seq<Requirement>): (r: seq<RuleMatcher>)
    ensures |r| == |block|
    ensures forall i | 0 <= i < |block| ::
      && (block[i].Plus? ==> Description(r[i]) == Description(block[i].matcher))
      && (block[i].Minus? ==> Description(r[i]) == "!(" + Description(block[i].matcher) + ")")
      && (Matches(r[i]) <==> (block[i].Plus? == Matches(block[i].matcher)))
  {
    seq(|block|, i requires 0 <= i < |block| => Declared(block[i]))
  }

  /** True if every matcher matches, that is, the rule's requirements hold. */
  predicate AllMatch(matchers: seq<RuleMatcher>) {
    forall i | 0 <= i < |matchers| :: Matches(matchers[i])
  }

  /** The block `{ +a; -b }` declares `a` and the negation of `b`, in that order. */
  lemma DeclaredPlusMinus(a: RuleMatcher, b: RuleMatcher)
    ensures DeclaredAll([Plus(a), Minus(b)]) == [a, Not(b)]
  {
    var ms := DeclaredAll([Plus(a), Minus(b)]);
    assert |ms| == 2 && ms[0] == a && ms[1] == Not(b);
  }

  /**
   * `require { +a; -b }` declares two matchers: `a` itself and the negation of `b`, described as `!(` the
   * description of `b` `)`.
   */
  lemma RequirePlusMinusDescriptions(a: RuleMatcher, b: RuleMatcher)
    ensures var ms := DeclaredAll([Plus(a), Minus(b)]);
      && |ms| == 2
      && Description(ms[0]) == Description(a)
      && Description(ms[1]) == "!(" + Description(b) + ")"
  {
    DeclaredPlusMinus(a, b);
  }

  /** The requirements of `require { +a; -b }` hold exactly when `a` matches and `b` does not. */
  lemma RequirePlusMinusMatches(a: RuleMatcher, b: RuleMatcher)
    ensures AllMatch(DeclaredAll([Plus(a), Minus(b)])) <==> Matches(a) && !Matches(b)
  {
    DeclaredPlusMinus(a, b);
    AllMatchPair(a, Not(b));
  }

  /** Two matchers all match exactly when each does. */
  lemma AllMatchPair(x: RuleMatcher, y: RuleMatcher)
    ensures AllMatch([x, y]) <==> Matches(x) && Matches(y)
  {
    var ms := [x, y];
    assert ms[0] == x && ms[1] == y;
  }

  /** A rule whose body is being run: the violations and the matchers it has collected so far. */
  class Rule {
    const name: string
    var violations: seq<RuleViolation>
    var matchers: seq<RuleMatcher>

    constructor (name: string)
      ensures this.name == name && violations == [] && matchers == []
    {
      this.name := name;
      violations := [];
      matchers := [];
    }

    /** Appends one violation of the given severity, naming this rule. */
    method Issue(severity: Severity, pkg: Identifier, license: string, licenseSource: LicenseSource, message: string)
      modifies this
      ensures violations == old(violations) + [RuleViolation(name, pkg, license, licenseSource, severity, message)]
      ensures matchers == old(matchers)
    {
      violations := violations + [RuleViolation(name, pkg, license, licenseSource, severity, message)];
    }

    method Hint(pkg: Identifier, license: string, licenseSource: LicenseSource, message: string)
      modifies this
      ensures violations == old(violations) + [RuleViolation(name, pkg, license, licenseSource, HINT, message)]
      ensures matchers == old(matchers)
    {
      Issue(HINT, pkg, license, licenseSource, message);
    }

    method Warning(pkg: Identifier, license: string, licenseSource: LicenseSource, message: string)
      modifies this
      ensures violations == old(violations) + [RuleViolation(name, pkg, license, licenseSource, WARNING, message)]
      ensures matchers == old(matchers)
    {
      Issue(WARNING, pkg, license, licenseSource, message);
    }

    method Error(pkg: Identifier, license: string, licenseSource: LicenseSource, message: string)
      modifies this
      ensures violations == old(violations) + [RuleViolation(name, pkg, license, licenseSource, ERROR, message)]
      ensures matchers == old(matchers)
    {
      Issue(ERROR, pkg, license, licenseSource, message);
    }

    /** Runs one entry of a `require` block: `+m` adds `m`, `-m` adds its negation. */
    method Add(e: Requirement)
      modifies this
      ensures matchers == old(matchers) + [Declared(e)]
      ensures violations == old(violations)
    {
      match e
      case Plus(m) => matchers := matchers + [m];
      case Minus(m) => matchers := matchers + [Not(m)];
    }

    /** Runs a `require` block, whose entries add their matchers one after the other. */
    method Require(block: seq<Requirement>)
      modifies this
      ensures matchers == old(matchers) + DeclaredAll(block)
      ensures violations == old(violations)
    {
      var i := 0;
      while i < |block|
        invariant 0 <= i <= |block|
        invariant matchers == old(matchers) + DeclaredAll(block[..i])
        invariant violations == old(violations)
      {
        Add(block[i]);
        assert DeclaredAll(block[..i + 1]) == DeclaredAll(block[..i]) + [Declared(block[i])];
        i := i + 1;
      }
      assert block[..i] == block;
    }
  }

  /** `hint` on a fresh rule records exactly one violation, of severity HINT, echoing the rule and the call. */
  method HintOnFreshRule(ruleName: string, pkg: Identifier, license: string, licenseSource: LicenseSource, message: string)
    returns (violations: seq<RuleViolation>)
    ensures |violations| == 1
    ensures violations[0] == RuleViolation(ruleName, pkg, license, licenseSource, HINT, message)
  {
    var rule := new Rule(ruleName);
    rule.Hint(pkg, license, licenseSource, message);
    violations := rule.violations;
  }

  /** `warning` on a fresh rule records exactly one violation, of severity WARNING, echoing the rule and the call. */
  method WarningOnFreshRule(ruleName: string, pkg: Identifier, license: string, licenseSource: LicenseSource, message: string)
    returns (violations: seq<RuleViolation>)
    ensures |violations| == 1
    ensures violations[0] == RuleViolation(ruleName, pkg, license, licenseSource, WARNING, message)
  {
    var rule := new Rule(ruleName);
    rule.Warning(pkg, license, licenseSource, message);
    violations := rule.violations;
  }

  /** `error` on a fresh rule records exactly one violation, of severity ERROR, echoing the rule and the call. */
  method ErrorOnFreshRule(ruleName: string, pkg: Identifier, license: string, licenseSource: LicenseSource, message: string)
    returns (violations: seq<RuleViolation>)
    ensures |violations| == 1
    ensures violations[0] == RuleViolation(ruleName, pkg, license, licenseSource, ERROR, message)
  {
    var rule := new Rule(ruleName);
    rule.Error(pkg, license, licenseSource, message);
    violations := rule.violations;
  }

  /**
   * `hint`, `warning` and `error` once each on a fresh rule record three violations, in call order, that
   * differ only in their severity.
   */
  method AllSeveritiesOnFreshRule(ruleName: string, pkg: Identifier, license: string, licenseSource: LicenseSource, message: string)
    returns (violations: seq<RuleViolation>)
    ensures |violations| == 3
    ensures violations[0].severity == HINT && violations[1].severity == WARNING && violations[2].severity == ERROR
    ensures forall i | 0 <= i < 3 ::
      violations[i] == RuleViolation(ruleName, pkg, license, licenseSource, violations[i].severity, message)
  {
    var rule := new Rule(ruleName);
    rule.Hint(pkg, license, licenseSource, message);
    rule.Warning(pkg, license, licenseSource, message);
    rule.Error(pkg, license, licenseSource, message);
    violations := rule.violations;
  }

  /**
   * `require { +m; -n }` on a fresh rule declares exactly two matchers, in order: `m` with its own
   * description, and the negation of `n`, described as `!(` the description of `n` `)`. Neither adds a
   * violation.
   */
  method RequireOnFreshRule(ruleName: string, m: RuleMatcher, n: RuleMatcher)
    returns (matchers: seq<RuleMatcher>, violations: seq<RuleViolation>)
    ensures |matchers| == 2
    ensures matchers[0] == m && Description(matchers[0]) == Description(m)
    ensures Description(matchers[1]) == "!(" + Description(n) + ")"
    ensures Matches(matchers[1]) <==> !Matches(n)
    ensures violations == []
  {
    var rule := new Rule(ruleName);
    rule.Require([Plus(m), Minus(n)]);
    matchers, violations := rule.matchers, rule.violations;
  }
}
