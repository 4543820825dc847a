/** What the field resolver answers, said of the evidence alone: which value each strategy makes load-bearing and when,
    what bars one, and what is shown. */
module FieldVerdicts {
  import opened Options
  import opened Collections
  import opened CodePointOrder
  import opened FieldAuthority
  import Text

  // ---------------------------------------------------------------- what the evidence says

  ghost predicate Asserted(facts: set<Fact>, v: string) { exists f :: f in facts && f.value == v }

  const STRENGTHS := [Proposed, Supported, Attested, Confirmed]

  ghost predicate Stronger(s: Strength, t: Strength) {
    exists i, j :: 0 <= i < j < |STRENGTHS| && STRENGTHS[i] == t && STRENGTHS[j] == s
  }

  /** No record says anything more strongly. */
  ghost predicate Strongest(facts: set<Fact>, f: Fact) {
    f in facts && forall g :: g in facts ==> !Stronger(g.pair.strength, f.pair.strength)
  }

  ghost predicate StrongestSay(facts: set<Fact>, v: string) {
    (exists f :: Strongest(facts, f)) && forall f :: Strongest(facts, f) ==> f.value == v
  }

  lemma StrongerExactly(f: Fact, g: Fact)
    ensures Stronger(g.pair.strength, f.pair.strength) <==> Rank(f) < Rank(g)
  {
    assert STRENGTHS[Rank(f)] == f.pair.strength && STRENGTHS[Rank(g)] == g.pair.strength;
    assert forall i :: 0 <= i < 4 ==> (STRENGTHS[i] == f.pair.strength <==> i == Rank(f));
    assert forall i :: 0 <= i < 4 ==> (STRENGTHS[i] == g.pair.strength <==> i == Rank(g));
  }

  lemma StrongestExactly(facts: set<Fact>, f: Fact)
    ensures Strongest(facts, f) <==> Leading(facts, f)
  {
    forall g: Fact ensures Stronger(g.pair.strength, f.pair.strength) <==> Rank(f) < Rank(g) { StrongerExactly(f, g); }
  }

  lemma StrongestSayExactly(facts: set<Fact>, v: string)
    ensures StrongestSay(facts, v) <==> Wins(facts, v)
  {
    forall f ensures Strongest(facts, f) <==> Leading(facts, f) { StrongestExactly(facts, f); }
  }

  // ---------------------------------------------------------------- what satisfies a rule

  /** The sets of evidence kinds that satisfy a rule, each by itself. */
  ghost function Alternatives(rule: Rule): set<set<Pair>>
    decreases rule, true, 0
  {
    match rule
    case HasEvidence(pair) => {{pair}}
    case AnyOf(conditions) => set i, alt | 0 <= i < |conditions| && alt in Alternatives(conditions[i]) :: alt
    case AllOf(conditions) => Together(conditions, rule)
  }

  /** One alternative of each condition, put together. */
  ghost function Together(conditions: seq<Rule>, bound: Rule): set<set<Pair>>
    requires forall c :: c in conditions ==> c < bound
    decreases bound, false, |conditions|
  {
    if conditions == [] then {{}}
    else
      assert conditions[0] in conditions && forall c :: c in conditions[1..] ==> c in conditions;
      set a, b | a in Alternatives(conditions[0]) && b in Together(conditions[1..], bound) :: a + b
  }

  /** A rule is satisfied exactly when all the evidence of one of its alternatives is there. */
  lemma {:induction false} SatisfiedExactly(rule: Rule, active: set<Pair>)
    ensures Evaluate(rule, active) <==> exists alt :: alt in Alternatives(rule) && alt <= active
    decreases rule, true, 0
  {
    match rule
    case HasEvidence(pair) =>
      assert {pair} in Alternatives(rule);
      assert pair in active <==> {pair} <= active;
    case AnyOf(conditions) =>
      forall i | 0 <= i < |conditions|
        ensures Evaluate(conditions[i], active) <==> exists alt :: alt in Alternatives(conditions[i]) && alt <= active
      {
        SatisfiedExactly(conditions[i], active);
      }
      if Evaluate(rule, active) {
        var i :| 0 <= i < |conditions| && Evaluate(conditions[i], active);
        var alt :| alt in Alternatives(conditions[i]) && alt <= active;
        assert alt in Alternatives(rule);
      }
    case AllOf(conditions) => AllSatisfied(conditions, rule, active);
  }

  lemma {:induction false} AllSatisfied(conditions: seq<Rule>, bound: Rule, active: set<Pair>)
    requires forall c :: c in conditions ==> c < bound
    ensures (forall i :: 0 <= i < |conditions| ==> Evaluate(conditions[i], active)) <==>
              exists alt :: alt in Together(conditions, bound) && alt <= active
    decreases bound, false, |conditions|
  {
    if conditions == [] {
      assert {} in Together(conditions, bound);
    } else {
      assert conditions[0] in conditions && forall c :: c in conditions[1..] ==> c in conditions;
      SatisfiedExactly(conditions[0], active);
      AllSatisfied(conditions[1..], bound, active);
      if alt :| alt in Together(conditions, bound) && alt <= active {
        var a, b :| a in Alternatives(conditions[0]) && b in Together(conditions[1..], bound) && alt == a + b;
        assert a <= active && b <= active;
      }
      if a, b :| a in Alternatives(conditions[0]) && b in Together(conditions[1..], bound) && a <= active && b <= active
      {
        assert a + b in Together(conditions, bound);
      }
      assert (forall i :: 0 <= i < |conditions| ==> Evaluate(conditions[i], active)) <==>
             Evaluate(conditions[0], active) &&
             forall i :: 0 <= i < |conditions[1..]| ==> Evaluate(conditions[1..][i], active) by {
        forall i | 0 < i < |conditions| ensures conditions[i] == conditions[1..][i - 1] {}
      }
    }
  }

  ghost predicate AllThere(alt: set<Pair>, facts: set<Fact>) {
    forall p :: p in alt ==> exists f :: f in facts && f.pair == p
  }

  ghost predicate Satisfied(rule: Rule, facts: set<Fact>) {
    exists alt :: alt in Alternatives(rule) && AllThere(alt, facts)
  }

  lemma ThereIffActive(alt: set<Pair>, facts: set<Fact>)
    ensures AllThere(alt, facts) <==> alt <= ActivePairs(facts)
  {
    if alt <= ActivePairs(facts) {
      forall p | p in alt ensures exists f :: f in facts && f.pair == p { assert p in ActivePairs(facts); }
    }
    if AllThere(alt, facts) {
      forall p | p in alt ensures p in ActivePairs(facts) {
        var f :| f in facts && f.pair == p;
      }
    }
  }

  lemma SatisfiedByFacts(rule: Rule, facts: set<Fact>)
    ensures Satisfied(rule, facts) <==> Evaluate(rule, ActivePairs(facts))
  {
    SatisfiedExactly(rule, ActivePairs(facts));
    forall alt: set<Pair> ensures AllThere(alt, facts) <==> alt <= ActivePairs(facts) { ThereIffActive(alt, facts); }
  }

  // ---------------------------------------------------------------- what bars a load-bearing value

  function NameOf(d: Disqualifier): string {
    match d
    case StaleSelectedEvidence => "stale_selected_evidence"
    case RejectedSelectedEvidence => "rejected_selected_evidence"
    case SupersededSelectedEvidence => "superseded_selected_evidence"
    case OpenConflictReview => "open_conflict_review"
    case ConfirmationPendingRevalidation => "confirmation_pending_revalidation"
  }

  lemma NamesOrdered(d: Disqualifier, e: Disqualifier)
    requires NameOf(d)[0] < NameOf(e)[0]
    ensures Before(NameOf(d), NameOf(e))
  {
    assert BeforeAt(NameOf(d), NameOf(e), 0);
    BeforeExactly(NameOf(d), NameOf(e));
  }

  /** The disqualifier reported is the honoured, active one whose name comes first. */
  lemma FirstNamed(fired: set<Disqualifier>)
    requires fired != {}
    ensures FirstByName(fired) in fired
    ensures forall d :: d in fired && d != FirstByName(fired) ==> Before(NameOf(FirstByName(fired)), NameOf(d))
  {
    var some :| some in fired;
    forall d | d in fired && d != FirstByName(fired) ensures Before(NameOf(FirstByName(fired)), NameOf(d)) {
      if FirstByName(fired) == StaleSelectedEvidence {
        assert d == SupersededSelectedEvidence;
        assert BeforeAt("stale_selected_evidence", "superseded_selected_evidence", 1);
        BeforeExactly("stale_selected_evidence", "superseded_selected_evidence");
      } else {
        NamesOrdered(FirstByName(fired), d);
      }
    }
  }

  /** Nothing bars a load-bearing value. */
  ghost predicate Clear(facts: set<Fact>, policy: Policy, active: set<Disqualifier>) {
    && policy.mode.GenericField? && policy.influenceMax.OperationalTier?
    && (forall d :: d in active ==> d !in policy.disqualifiers)
    && policy.operationalRule.Some? && Satisfied(policy.operationalRule.value, facts)
  }

  /** The reason that stands first says what bars the value: each comes into question only past those before it. */
  ghost predicate Bars(reason: Reason, facts: set<Fact>, policy: Policy, active: set<Disqualifier>) {
    match reason
    case IsSpecializedFact => policy.mode.SpecializedFact?
    case InfluenceNotOperational => policy.mode.GenericField? && !policy.influenceMax.OperationalTier?
    case DisqualifiedBy(first) =>
      && policy.mode.GenericField? && policy.influenceMax.OperationalTier?
      && first in active && first in policy.disqualifiers
      && forall d :: d in active && d in policy.disqualifiers && d != first ==> Before(NameOf(first), NameOf(d))
    case AuthorityInsufficient =>
      && policy.mode.GenericField? && policy.influenceMax.OperationalTier?
      && (forall d :: d in active ==> d !in policy.disqualifiers)
      && !(policy.operationalRule.Some? && Satisfied(policy.operationalRule.value, facts))
    case IsConflict => false
  }

  lemma BarredExactly(facts: set<Fact>, policy: Policy, active: set<Disqualifier>)
    ensures Barred(facts, policy, active).None? <==> Clear(facts, policy, active)
    ensures forall reason :: Barred(facts, policy, active) == Some(reason) <==> Bars(reason, facts, policy, active)
  {
    if policy.operationalRule.Some? { SatisfiedByFacts(policy.operationalRule.value, facts); }
    var fired := active * policy.disqualifiers;
    assert forall d :: d in fired <==> d in active && d in policy.disqualifiers;
    assert fired == {} <==> forall d :: d in active ==> d !in policy.disqualifiers;
    if fired != {} {
      FirstNamed(fired);
      forall d | d in fired && d != FirstByName(fired) ensures !Before(NameOf(d), NameOf(FirstByName(fired))) {
        BeforeTotal(NameOf(d), NameOf(FirstByName(fired)));
      }
    }
  }

  /** Without a load-bearing value the reason is what bars one, or a conflict where nothing does. */
  lemma ReasonExactly(evidence: seq<View>, walk: seq<string>, policy: Policy, active: set<Disqualifier>)
    ensures var r, facts := Resolve(evidence, walk, policy, active), Facts(evidence);
            r.Resolution? ==>
              && (r.loadBearing.Some? <==> r.reason.None?)
              && (forall reason :: reason != IsConflict ==>
                    (r.reason == Some(reason) <==> Bars(reason, facts, policy, active)))
              && (r.reason == Some(IsConflict) <==> Clear(facts, policy, active) && r.loadBearing.None?)
  {
    BarredExactly(Facts(evidence), policy, active);
  }

  // ---------------------------------------------------------------- each strategy

  /** `v` stands in the order for the first time at `i`. */
  ghost predicate FirstAt(order: seq<string>, i: nat, v: string) { i < |order| && order[i] == v && v !in order[..i] }

  /** `u` is no more severe than `v`: a value the order does not know is the most severe. */
  ghost predicate NoMoreSevere(order: seq<string>, u: string, v: string) {
    v !in order || exists i: nat, j: nat :: FirstAt(order, i, u) && FirstAt(order, j, v) && i <= j
  }

  lemma {:induction false} IndexInExactly(order: seq<string>, v: string)
    ensures v in order <==> IndexIn(order, v) < |order|
    ensures forall i: nat :: FirstAt(order, i, v) <==> i < |order| && i == IndexIn(order, v)
  {
    IndexInFirst(order, v);
    if v in order {
      var k := IndexIn(order, v);
      InPrefixes(order);
      forall i: nat | FirstAt(order, i, v) ensures i == k {}
    }
  }

  lemma InPrefixes(order: seq<string>)
    ensures forall i, j :: 0 <= i < j <= |order| ==> order[i] in order[..j]
  {
    forall i, j | 0 <= i < j <= |order| ensures order[i] in order[..j] { assert order[..j][i] == order[i]; }
  }

  lemma {:induction false} IndexInFirst(order: seq<string>, v: string)
    ensures v !in order[..IndexIn(order, v)]
  {
    if order != [] && order[0] != v {
      IndexInFirst(order[1..], v);
      var k := IndexIn(order[1..], v);
      assert order[..k + 1] == [order[0]] + order[1..][..k];
    }
  }

  /** The strategy's pick is load-bearing where nothing bars it, and nothing else is. */
  lemma PickExactly(evidence: seq<View>, walk: seq<string>, policy: Policy, active: set<Disqualifier>)
    ensures var r := Resolve(evidence, walk, policy, active);
            var pick := Select(evidence, walk, policy.strategy, policy.order);
            var open := Clear(Facts(evidence), policy, active);
            && (r.Raised? <==> open && pick.Refused?)
            && (r.Resolution? ==> r.loadBearing == if open && pick.Chosen? then Some(pick.value) else None)
  {
    BarredExactly(Facts(evidence), policy, active);
  }

  /** Most restrictive: past everything that bars it, and given evidence, the load-bearing value is one that is
      asserted, and none asserted is more severe. Without a severity order there is an error instead. */
  lemma MostRestrictiveExactly(evidence: seq<View>, walk: seq<string>, policy: Policy, active: set<Disqualifier>)
    requires policy.strategy.MostRestrictiveStrategy? && Walks(walk, Facts(evidence))
    ensures var r, facts := Resolve(evidence, walk, policy, active), Facts(evidence);
            var open := Clear(facts, policy, active) && evidence != [];
            && (r.Raised? <==> open && policy.order == [])
            && (r.Resolution? ==>
                  && (r.loadBearing.Some? <==> open)
                  && (r.loadBearing.Some? ==>
                        && Asserted(facts, r.loadBearing.value)
                        && forall u :: Asserted(facts, u) ==> NoMoreSevere(policy.order, u, r.loadBearing.value)))
  {
    var facts := Facts(evidence);
    PickExactly(evidence, walk, policy, active);
    EmptyTogether(evidence, walk);
    if Clear(facts, policy, active) && evidence != [] && policy.order != [] {
      var v := MostRestrictive(walk, policy.order);
      forall u | Asserted(facts, u) ensures NoMoreSevere(policy.order, u, v) {
        assert u in walk;
        IndexInExactly(policy.order, u);
        IndexInExactly(policy.order, v);
        if v in policy.order {
          assert FirstAt(policy.order, IndexIn(policy.order, u), u);
          assert FirstAt(policy.order, IndexIn(policy.order, v), v);
        }
      }
    }
  }

  /** Union: the load-bearing text is the distinct asserted values, ascending, joined by commas; it is there whenever
      there is evidence and nothing bars it. */
  lemma UnionExactly(evidence: seq<View>, walk: seq<string>, policy: Policy, active: set<Disqualifier>)
    requires policy.strategy.UnionClasses? && Walks(walk, Facts(evidence))
    ensures var r, facts := Resolve(evidence, walk, policy, active), Facts(evidence);
            && r.Resolution?
            && (r.loadBearing.Some? <==> Clear(facts, policy, active) && evidence != [])
            && (r.loadBearing.Some? ==> Lists(r.loadBearing.value, facts))
  {
    PickExactly(evidence, walk, policy, active);
    EmptyTogether(evidence, walk);
    SortedLists(walk, Facts(evidence));
  }

  lemma SortedLists(walk: seq<string>, facts: set<Fact>)
    requires Walks(walk, facts)
    ensures Lists(Text.Join(Sort(walk, Before), ","), facts)
  {
    SortedOnce(walk);
    assert ListedAs(Text.Join(Sort(walk, Before), ","), facts, Sort(walk, Before));
  }

  ghost predicate ListedAs(text: string, facts: set<Fact>, values: seq<string>) {
    text == Text.Join(values, ",") && Ascending(values) && forall v :: v in values <==> Asserted(facts, v)
  }

  ghost predicate Lists(text: string, facts: set<Fact>) { exists values :: ListedAs(text, facts, values) }

  lemma AgreedPick(evidence: seq<View>, walk: seq<string>, order: seq<string>, v: string)
    requires walk == [] <==> evidence == []
    ensures !Select(evidence, walk, UnresolvedOnConflict, order).Refused?
    ensures Select(evidence, walk, UnresolvedOnConflict, order) == Chosen(v) <==>
              evidence != [] && forall f :: f in Facts(evidence) ==> f.value == v
  {
    AgreedExactly(evidence, v);
  }

  lemma PreferredPick(evidence: seq<View>, walk: seq<string>, order: seq<string>, v: string)
    requires walk == [] <==> evidence == []
    ensures !Select(evidence, walk, PreferConfirmedStrategy, order).Refused?
    ensures Select(evidence, walk, PreferConfirmedStrategy, order) == Chosen(v) <==> StrongestSay(Facts(evidence), v)
  {
    PreferConfirmedExactly(evidence, v);
    StrongestSayExactly(Facts(evidence), v);
  }

  /** Unresolved on conflict: a value is load-bearing exactly when nothing bars it and every record says it. */
  lemma UnresolvedExactly(evidence: seq<View>, walk: seq<string>, policy: Policy, active: set<Disqualifier>, v: string)
    requires policy.strategy.UnresolvedOnConflict? && Walks(walk, Facts(evidence))
    ensures var r, facts := Resolve(evidence, walk, policy, active), Facts(evidence);
            && r.Resolution?
            && (r.loadBearing == Some(v) <==>
                  Clear(facts, policy, active) && evidence != [] && forall f :: f in facts ==> f.value == v)
  {
    PickExactly(evidence, walk, policy, active);
    EmptyTogether(evidence, walk);
    AgreedPick(evidence, walk, policy.order, v);
  }

  /** Prefer confirmed: a value is load-bearing exactly when nothing bars it and all the strongest records say it. */
  lemma PreferExactly(evidence: seq<View>, walk: seq<string>, policy: Policy, active: set<Disqualifier>, v: string)
    requires policy.strategy.PreferConfirmedStrategy? && Walks(walk, Facts(evidence))
    ensures var r, facts := Resolve(evidence, walk, policy, active), Facts(evidence);
            && r.Resolution?
            && (r.loadBearing == Some(v) <==> Clear(facts, policy, active) && StrongestSay(facts, v))
  {
    PickExactly(evidence, walk, policy, active);
    EmptyTogether(evidence, walk);
    PreferredPick(evidence, walk, policy.order, v);
  }

  /** What is shown: the value all the strongest records say, if the display rule is satisfied; and a tie is reported
      exactly when it is and they disagree, or there are none. */
  lemma ShownExactly(evidence: seq<View>, walk: seq<string>, policy: Policy, active: set<Disqualifier>)
    ensures var r, facts := Resolve(evidence, walk, policy, active), Facts(evidence);
            r.Resolution? ==>
              && (forall v :: r.display == Some(v) <==> Satisfied(policy.displayRule, facts) && StrongestSay(facts, v))
              && (r.tied <==> Satisfied(policy.displayRule, facts) && forall v :: !StrongestSay(facts, v))
  {
    var facts := Facts(evidence);
    SatisfiedByFacts(policy.displayRule, facts);
    VerdictShape(evidence, walk, policy, active);
    forall v
      ensures Display(evidence, policy.displayRule) == Some(v) <==>
                Satisfied(policy.displayRule, facts) && StrongestSay(facts, v)
      ensures StrongestSay(facts, v) <==> Wins(facts, v)
    {
      DisplayExactly(evidence, policy.displayRule, v);
      StrongestSayExactly(facts, v);
    }
  }

  /** The two profile classifications: shown on the word of the LLM, of a source or of a human; operational on that of a
      source that attests or a human who confirms; held back only while a confirmation awaits revalidation. */
  lemma ClassificationPolicy(facts: set<Fact>, active: set<Disqualifier>)
    ensures var policy := OPERATIONAL_PROFILE_CLASSIFICATION;
            && (Satisfied(policy.displayRule, facts) <==>
                  exists f :: f in facts && f.pair in {Pair(Llm, Proposed), Pair(Source, Proposed),
                                                       Pair(Source, Attested), Pair(Human, Proposed),
                                                       Pair(Human, Confirmed)})
            && (Clear(facts, policy, active) <==>
                  && ConfirmationPendingRevalidation !in active
                  && exists f :: f in facts && f.pair in {Pair(Source, Attested), Pair(Human, Confirmed)})
  {
    var policy := OPERATIONAL_PROFILE_CLASSIFICATION;
    SatisfiedByFacts(policy.displayRule, facts);
    SatisfiedByFacts(SOURCE_OR_HUMAN, facts);
    SourceOrHumanNames();
    DisplayRuleNames();
    FlatMeets(policy.displayRule, ActivePairs(facts));
    FlatMeets(SOURCE_OR_HUMAN, ActivePairs(facts));
    SomeFact(facts, Named(policy.displayRule));
    SomeFact(facts, Named(SOURCE_OR_HUMAN));
  }

  lemma SomeFact(facts: set<Fact>, named: set<Pair>)
    ensures (exists p :: p in named && p in ActivePairs(facts)) <==> exists f :: f in facts && f.pair in named
  {
    if f :| f in facts && f.pair in named { assert f.pair in ActivePairs(facts); }
  }

  lemma DisplayRuleNames()
    ensures var rule := OPERATIONAL_PROFILE_CLASSIFICATION.displayRule;
            && Flat(rule)
            && Named(rule) == {Pair(Llm, Proposed), Pair(Source, Proposed), Pair(Source, Attested),
                               Pair(Human, Proposed), Pair(Human, Confirmed)}
  {
    var cs := OPERATIONAL_PROFILE_CLASSIFICATION.displayRule.conditions;
    assert cs[0].pair == Pair(Llm, Proposed) && cs[1].pair == Pair(Source, Proposed);
    assert cs[2].pair == Pair(Source, Attested) && cs[3].pair == Pair(Human, Proposed);
    assert cs[4].pair == Pair(Human, Confirmed) && |cs| == 5;
  }
}
