/** The exclusion test inside `getFiles`: `exclude.some(pattern => ...)`. Glob matching
    (`minimatch`) and regular-expression testing (`RegExp.prototype.test`) belong to other
    libraries; they enter the model as the two functions of a `Matchers` value. */
module Exclusion {
  import opened Text
  import opened Options

  /** `glob(path, pattern)` stands for `minimatch(path, pattern)`;
      `test(literal, path)` stands for the regular expression written as `literal`, pattern
      and flags together (as in `/c\.js$/i`), tested on `path`. */
  datatype Matchers = Matchers(glob: (string, string) -> bool, test: (string, string) -> bool)

  /** The callback given to `some`: a string rule matches on containment or, failing
      that, as a glob; a regular-expression rule matches when its test succeeds. */
  predicate RuleMatches(path: string, rule: Rule, m: Matchers)
  {
    match rule
    case Literal(text) => Includes(path, text) || m.glob(path, text)
    case Regex(literal) => m.test(literal, path)
  }

  /** `exclude.some(...)`: tries the rules left to right and stops at the first match. */
  function IsExcluded(path: string, rules: seq<Rule>, m: Matchers): (r: bool)
    ensures r <==> exists i :: 0 <= i < |rules| && RuleMatches(path, rules[i], m)
  {
    if rules == [] then
      false
    else if RuleMatches(path, rules[0], m) then
      true
    else
      var r := IsExcluded(path, rules[1..], m);
      assert forall i :: 1 <= i < |rules| ==> rules[i] == rules[1..][i - 1];
      r
  }

  /** A string rule excludes every path that contains it, whatever the glob library says. */
  lemma LiteralSubstringExcludes(path: string, text: string, rules: seq<Rule>, m: Matchers)
    requires Literal(text) in rules
    requires Includes(path, text)
    ensures IsExcluded(path, rules, m)
  {
  }

  /** Excluding by a concatenated rule list is excluding by either part: rules only ever
      add exclusions, and their order does not change the verdict. */
  lemma {:induction false} ExcludedByAppend(path: string, r1: seq<Rule>, r2: seq<Rule>, m: Matchers)
    ensures IsExcluded(path, r1 + r2, m) <==> IsExcluded(path, r1, m) || IsExcluded(path, r2, m)
  {
    if IsExcluded(path, r1, m) {
      var i :| 0 <= i < |r1| && RuleMatches(path, r1[i], m);
      assert (r1 + r2)[i] == r1[i];
    }
    if IsExcluded(path, r2, m) {
      var i :| 0 <= i < |r2| && RuleMatches(path, r2[i], m);
      assert (r1 + r2)[|r1| + i] == r2[i];
    }
    if IsExcluded(path, r1 + r2, m) {
      var i :| 0 <= i < |r1 + r2| && RuleMatches(path, (r1 + r2)[i], m);
      if i < |r1| {
        assert r1[i] == (r1 + r2)[i];
      } else {
        assert r2[i - |r1|] == (r1 + r2)[i];
      }
    }
  }
}
