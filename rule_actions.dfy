/** The grouping of a nuzlocke's rules by type in `getRulesByNuzlocke`
    (lib/actions/rules.ts): three order-preserving filters on `rule_type`. */
module RuleActions {

  /** A row of the `nuzlocke_rules` table. */
  datatype Rule = Rule(id: string, nuzlocke_id: string, rule_text: string, rule_type: string, created_at: string)

  /** The `groupedRules` object. */
  datatype GroupedRules = GroupedRules(basic: seq<Rule>, additional: seq<Rule>, custom: seq<Rule>)

  /** `rules.filter((rule) => rule.rule_type === t)`. */
  function OfType(rules: seq<Rule>, t: string): (r: seq<Rule>)
    ensures |r| <= |rules|
    ensures forall k :: 0 <= k < |r| ==> r[k].rule_type == t
  {
    if |rules| == 0 then []
    else
      var prev := OfType(rules[..|rules| - 1], t);
      if rules[|rules| - 1].rule_type == t then prev + [rules[|rules| - 1]] else prev
  }

  /** The rules whose type is none of the three groups. */
  function OfNoGroup(rules: seq<Rule>): (r: seq<Rule>)
    ensures |r| <= |rules|
    ensures forall k :: 0 <= k < |r| ==> r[k].rule_type !in {"basic", "additional", "custom"}
  {
    if |rules| == 0 then []
    else
      var prev := OfNoGroup(rules[..|rules| - 1]);
      if rules[|rules| - 1].rule_type !in {"basic", "additional", "custom"} then prev + [rules[|rules| - 1]] else prev
  }

  /** Lines 29-33. */
  function GroupRules(rules: seq<Rule>): GroupedRules {
    GroupedRules(OfType(rules, "basic"), OfType(rules, "additional"), OfType(rules, "custom"))
  }

  /** A rule is in the filter exactly when it is in the input with that type. */
  lemma {:induction false} OfTypeMembers(rules: seq<Rule>, t: string)
    ensures forall x :: x in OfType(rules, t) <==> x in rules && x.rule_type == t
  {
    if |rules| > 0 {
      var pre := rules[..|rules| - 1];
      OfTypeMembers(pre, t);
      assert rules == pre + [rules[|rules| - 1]];
    }
  }

  /** Filtering keeps the input order: the filter of a concatenation is the
      concatenation of the filters. */
  lemma {:induction false} OfTypeAppend(a: seq<Rule>, b: seq<Rule>, t: string)
    ensures OfType(a + b, t) == OfType(a, t) + OfType(b, t)
  {
    if |b| == 0 {
      assert a + b == a;
    } else {
      var pre := b[..|b| - 1];
      OfTypeAppend(a, pre, t);
      assert (a + b)[..|a + b| - 1] == a + pre;
    }
  }

  /** Every group holds exactly the rules of its own type, in input order. */
  lemma GroupRulesMembers(rules: seq<Rule>)
    ensures var g := GroupRules(rules);
      && (forall x :: x in g.basic <==> x in rules && x.rule_type == "basic")
      && (forall x :: x in g.additional <==> x in rules && x.rule_type == "additional")
      && (forall x :: x in g.custom <==> x in rules && x.rule_type == "custom")
  {
    OfTypeMembers(rules, "basic");
    OfTypeMembers(rules, "additional");
    OfTypeMembers(rules, "custom");
  }

  /** A rule of one of the three types lies in exactly one group; a rule of any
      other type lies in none. */
  lemma GroupRulesExclusive(rules: seq<Rule>, x: Rule)
    requires x in rules
    ensures var g := GroupRules(rules);
      var n := (if x in g.basic then 1 else 0) + (if x in g.additional then 1 else 0) + (if x in g.custom then 1 else 0);
      n == (if x.rule_type in {"basic", "additional", "custom"} then 1 else 0)
  {
    GroupRulesMembers(rules);
  }

  /** Sizes: the three groups and the ungrouped rules together account for every
      rule exactly once. */
  lemma {:induction false} GroupRulesSizes(rules: seq<Rule>)
    ensures var g := GroupRules(rules);
      |g.basic| + |g.additional| + |g.custom| + |OfNoGroup(rules)| == |rules|
  {
    if |rules| > 0 {
      GroupRulesSizes(rules[..|rules| - 1]);
    }
  }
}
