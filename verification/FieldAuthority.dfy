/** Which value of a field is shown and which, if any, is load-bearing. */
module FieldAuthority {
  import opened Options
  import opened Collections
  import opened CodePointOrder
  import Text

  datatype Producer = Source | StructuralConnector | Parser | Llm | Profiler | Taxonomy | Human | Legacy
  datatype Strength = Proposed | Supported | Attested | Confirmed

  // ---------------------------------------------------------------- authority rules

  datatype Pair = Pair(producer: Producer, strength: Strength)

  datatype Rule = HasEvidence(pair: Pair) | AnyOf(conditions: seq<Rule>) | AllOf(conditions: seq<Rule>)

  /** What the constructors let through: no empty `AnyOf` or `AllOf` anywhere. */
  predicate Constructed(rule: Rule) {
    rule.HasEvidence? || (rule.conditions != [] && forall i :: 0 <= i < |rule.conditions| ==>
        Constructed(rule.conditions[i]))
  }

  predicate Evaluate(rule: Rule, active: set<Pair>) {
    match rule
    case HasEvidence(pair) => pair in active
    case AnyOf(conditions) => exists i :: 0 <= i < |conditions| && Evaluate(conditions[i], active)
    case AllOf(conditions) => forall i :: 0 <= i < |conditions| ==> Evaluate(conditions[i], active)
  }

  /** More evidence never takes authority away. */
  lemma {:induction false} MoreEvidenceSatisfies(rule: Rule, active: set<Pair>, more: set<Pair>)
    requires active <= more && Evaluate(rule, active)
    ensures Evaluate(rule, more)
  {
    match rule
    case HasEvidence(_) =>
    case AnyOf(conditions) =>
      var i :| 0 <= i < |conditions| && Evaluate(conditions[i], active);
      MoreEvidenceSatisfies(conditions[i], active, more);
    case AllOf(conditions) =>
      forall i | 0 <= i < |conditions| ensures Evaluate(conditions[i], more) {
        MoreEvidenceSatisfies(conditions[i], active, more);
      }
  }

  /** Every satisfied rule is satisfied by evidence it names; so none is satisfied by nothing. */
  lemma {:induction false} NothingSatisfiesNothing(rule: Rule)
    requires Constructed(rule)
    ensures !Evaluate(rule, {})
  {
    match rule
    case HasEvidence(_) =>
    case AnyOf(conditions) =>
      forall i | 0 <= i < |conditions| ensures !Evaluate(conditions[i], {}) {
        NothingSatisfiesNothing(conditions[i]);
      }
    case AllOf(conditions) =>
      NothingSatisfiesNothing(conditions[0]);
  }

  // ---------------------------------------------------------------- evidence

  /** What one record asserts. */
  datatype Fact = Fact(pair: Pair, value: string)

  datatype View = View(fact: Fact, evidenceId: string)

  function Facts(evidence: seq<View>): set<Fact> { set i | 0 <= i < |evidence| :: evidence[i].fact }

  function ActivePairs(facts: set<Fact>): set<Pair> { set f | f in facts :: f.pair }

  function Rank(f: Fact): nat {
    match f.pair.strength
    case Proposed => 0
    case Supported => 1
    case Attested => 2
    case Confirmed => 3
  }

  /** `walk` is one order in which the set of active values may be iterated. */
  ghost predicate Walks(walk: seq<string>, facts: set<Fact>) {
    && Distinct(walk)
    && (forall v :: v in walk <==> exists f :: f in facts && f.value == v)
  }

  // ---------------------------------------------------------------- merging values

  datatype Pick = Chosen(value: string) | Conflict | Refused

  function TopRank(evidence: seq<View>): (top: nat)
    requires evidence != []
    ensures forall i :: 0 <= i < |evidence| ==> Rank(evidence[i].fact) <= top
    ensures exists i :: 0 <= i < |evidence| && Rank(evidence[i].fact) == top
  {
    var n := |evidence| - 1;
    var last := Rank(evidence[n].fact);
    if n == 0 then last
    else
      var rest := TopRank(evidence[..n]);
      assert forall i :: 0 <= i < n ==> evidence[..n][i] == evidence[i];
      if last > rest then last else rest
  }

  /** The one value all of them carry. */
  function Agreed(evidence: seq<View>): Pick {
    if evidence != [] && forall i :: 0 <= i < |evidence| ==> evidence[i].fact.value == evidence[0].fact.value
    then Chosen(evidence[0].fact.value)
    else Conflict
  }

  function PreferConfirmed(evidence: seq<View>): Pick {
    if evidence == [] then Conflict
    else
      var top := TopRank(evidence);
      Agreed(Filter(evidence, (e: View) => Rank(e.fact) == top))
  }

  function IndexIn(order: seq<string>, v: string): (i: nat)
    ensures i <= |order| && (v in order <==> i < |order|) && (i < |order| ==> order[i] == v)
  {
    if order == [] || order[0] == v then 0 else 1 + IndexIn(order[1..], v)
  }

  /** Python's `max` over an iteration: the first of the largest. An unknown value has the largest index. */
  function MostRestrictive(walk: seq<string>, order: seq<string>): (v: string)
    requires walk != []
    ensures v in walk
    ensures forall x :: x in walk ==> IndexIn(order, x) <= IndexIn(order, v)
  {
    var n := |walk| - 1;
    if n == 0 then walk[0]
    else
      var rest := MostRestrictive(walk[..n], order);
      assert forall x :: x in walk <==> x in walk[..n] || x == walk[n];
      if IndexIn(order, walk[n]) > IndexIn(order, rest) then walk[n] else rest
  }

  datatype Strategy = PreferConfirmedStrategy | MostRestrictiveStrategy | UnionClasses | UnresolvedOnConflict

  /** `_select`. `Refused` is its `ValueError`. */
  function Select(evidence: seq<View>, walk: seq<string>, strategy: Strategy, order: seq<string>): Pick {
    if evidence == [] || walk == [] then Conflict
    else
      match strategy
      case PreferConfirmedStrategy => PreferConfirmed(evidence)
      case MostRestrictiveStrategy => if order == [] then Refused else Chosen(MostRestrictive(walk, order))
      case UnionClasses => Chosen(Text.Join(Sort(walk, Before), ","))
      case UnresolvedOnConflict => Agreed(evidence)
  }

  // ---------------------------------------------------------------- the resolver

  datatype Tier = DisplayTier | RecommendationTier | OperationalTier
  datatype Mode = GenericField | SpecializedFact
  datatype Disqualifier = StaleSelectedEvidence | RejectedSelectedEvidence | SupersededSelectedEvidence |
                          OpenConflictReview | ConfirmationPendingRevalidation

  datatype Policy = Policy(influenceMax: Tier, displayRule: Rule, operationalRule: Option<Rule>,
                           disqualifiers: set<Disqualifier>, mode: Mode, strategy: Strategy, order: seq<string>)

  datatype Reason = IsSpecializedFact | InfluenceNotOperational | DisqualifiedBy(first: Disqualifier) |
                    AuthorityInsufficient | IsConflict

  datatype Resolution = Resolution(display: Option<string>, loadBearing: Option<string>, reason: Option<Reason>,
      tied: bool)
                      | Raised

  /** `sorted(fired)[0]`, the names being compared. */
  function FirstByName(fired: set<Disqualifier>): Disqualifier {
    if ConfirmationPendingRevalidation in fired then ConfirmationPendingRevalidation
    else if OpenConflictReview in fired then OpenConflictReview
    else if RejectedSelectedEvidence in fired then RejectedSelectedEvidence
    else if StaleSelectedEvidence in fired then StaleSelectedEvidence
    else SupersededSelectedEvidence
  }

  function DisplayPick(evidence: seq<View>, rule: Rule): Option<Pick> {
    if Evaluate(rule, ActivePairs(Facts(evidence))) then Some(PreferConfirmed(evidence)) else None
  }

  function Display(evidence: seq<View>, rule: Rule): Option<string> {
    match DisplayPick(evidence, rule)
    case Some(Chosen(v)) => Some(v)
    case _ => None
  }

  /** The first gate that bars a load-bearing value, most blocking first. */
  function Barred(facts: set<Fact>, policy: Policy, active: set<Disqualifier>): Option<Reason> {
    var fired := active * policy.disqualifiers;
    if policy.mode.SpecializedFact? then Some(IsSpecializedFact)
    else if !policy.influenceMax.OperationalTier? then Some(InfluenceNotOperational)
    else if fired != {} then Some(DisqualifiedBy(FirstByName(fired)))
    else if policy.operationalRule.None? || !Evaluate(policy.operationalRule.value, ActivePairs(facts))
    then Some(AuthorityInsufficient)
    else None
  }

  /** `resolve_field_authority`. */
  function Resolve(evidence: seq<View>, walk: seq<string>, policy: Policy, active: set<Disqualifier>): Resolution {
    var display, tied := Display(evidence, policy.displayRule),
        DisplayPick(evidence, policy.displayRule) == Some(Conflict);
    match Barred(Facts(evidence), policy, active)
    case Some(reason) => Resolution(display, None, Some(reason), tied)
    case None =>
      match Select(evidence, walk, policy.strategy, policy.order)
      case Chosen(v) => Resolution(display, Some(v), None, tied)
      case Conflict => Resolution(display, None, Some(IsConflict), tied)
      case Refused => Raised
  }

  // ---------------------------------------------------------------- what is shown

  /** Nothing asserted is asserted more strongly. */
  ghost predicate Leading(facts: set<Fact>, f: Fact) {
    f in facts && forall g :: g in facts ==> Rank(g) <= Rank(f)
  }

  /** `v` is what every strongest assertion says. */
  ghost predicate Wins(facts: set<Fact>, v: string) {
    (exists f :: Leading(facts, f)) && forall f :: Leading(facts, f) ==> f.value == v
  }

  lemma LeadingIsTop(evidence: seq<View>, f: Fact)
    requires evidence != []
    ensures Leading(Facts(evidence), f) <==> f in Facts(evidence) && Rank(f) == TopRank(evidence)
  {
    var top := TopRank(evidence);
    var i :| 0 <= i < |evidence| && Rank(evidence[i].fact) == top;
    assert evidence[i].fact in Facts(evidence);
  }

  lemma TopsAreLeading(evidence: seq<View>, tops: seq<View>)
    requires evidence != [] && tops == Filter(evidence, (e: View) => Rank(e.fact) == TopRank(evidence))
    ensures forall f :: Leading(Facts(evidence), f) <==> f in Facts(tops)
    ensures tops != []
  {
    FilterIn(evidence, (e: View) => Rank(e.fact) == TopRank(evidence));
    forall f ensures Leading(Facts(evidence), f) <==> f in Facts(tops) {
      LeadingIsTop(evidence, f);
      if f in Facts(evidence) && Rank(f) == TopRank(evidence) {
        var i :| 0 <= i < |evidence| && evidence[i].fact == f;
        assert evidence[i] in tops;
      }
      if f in Facts(tops) {
        var i :| 0 <= i < |tops| && tops[i].fact == f;
        assert tops[i] in evidence;
      }
    }
    var i :| 0 <= i < |evidence| && Rank(evidence[i].fact) == TopRank(evidence);
    assert evidence[i] in tops;
  }

  lemma AgreedExactly(evidence: seq<View>, v: string)
    ensures Agreed(evidence) == Chosen(v) <==> evidence != [] && forall f :: f in Facts(evidence) ==> f.value == v
    ensures !Agreed(evidence).Refused?
  {
    assert forall i :: 0 <= i < |evidence| ==> evidence[i].fact in Facts(evidence);
  }

  /** The strongest assertions decide, and only by agreeing. */
  lemma PreferConfirmedExactly(evidence: seq<View>, v: string)
    ensures PreferConfirmed(evidence) == Chosen(v) <==> Wins(Facts(evidence), v)
    ensures !PreferConfirmed(evidence).Refused?
  {
    if evidence != [] {
      var tops := Filter(evidence, (e: View) => Rank(e.fact) == TopRank(evidence));
      TopsAreLeading(evidence, tops);
      AgreedExactly(tops, v);
      assert tops[0].fact in Facts(tops);
    }
  }

  /** A value is shown exactly when the rule is met and every strongest assertion says it. */
  lemma DisplayExactly(evidence: seq<View>, rule: Rule, v: string)
    ensures Display(evidence, rule) == Some(v) <==>
              Evaluate(rule, ActivePairs(Facts(evidence))) && Wins(Facts(evidence), v)
  {
    PreferConfirmedExactly(evidence, v);
  }

  lemma TiedExactly(evidence: seq<View>, rule: Rule)
    ensures DisplayPick(evidence, rule) == Some(Conflict) <==>
              Evaluate(rule, ActivePairs(Facts(evidence))) && forall v :: !Wins(Facts(evidence), v)
  {
    var pick := PreferConfirmed(evidence);
    forall v ensures pick == Chosen(v) <==> Wins(Facts(evidence), v) { PreferConfirmedExactly(evidence, v); }
    PreferConfirmedExactly(evidence, "");
    if pick.Chosen? { assert Wins(Facts(evidence), pick.value); }
  }

  /** A verdict either has a load-bearing value or says why not; it has one only past the influence ceiling, the
      honoured disqualifiers and the operational rule; and a tie is reported exactly when the display rule is met
      and no value wins. */
  lemma VerdictShape(evidence: seq<View>, walk: seq<string>, policy: Policy, active: set<Disqualifier>)
    ensures var r, facts := Resolve(evidence, walk, policy, active), Facts(evidence);
            r.Resolution? ==>
              && (r.loadBearing.Some? <==> r.reason.None?)
              && (r.tied <==> Evaluate(policy.displayRule, ActivePairs(facts)) && forall v :: !Wins(facts, v))
              && (r.loadBearing.Some? ==>
                    && policy.mode.GenericField? && policy.influenceMax.OperationalTier?
                    && active !! policy.disqualifiers
                    && policy.operationalRule.Some? && Evaluate(policy.operationalRule.value, ActivePairs(facts)))
  {
    TiedExactly(evidence, policy.displayRule);
    assert forall d :: d in active && d in policy.disqualifiers <==> d in active * policy.disqualifiers;
  }

  lemma NothingToShow(rule: Rule)
    ensures Display([], rule) == None
  {
  }

  // ---------------------------------------------------------------- what the order of the evidence decides

  predicate Unknown(facts: set<Fact>, order: seq<string>, v: string) {
    v !in order && exists f :: f in facts && f.value == v
  }

  /** Two values the severity order does not know are up for the most restrictive. */
  ghost predicate Ambiguous(facts: set<Fact>, policy: Policy, active: set<Disqualifier>) {
    && Barred(facts, policy, active).None? && policy.strategy.MostRestrictiveStrategy? && policy.order != []
    && exists u, v :: u != v && Unknown(facts, policy.order, u) && Unknown(facts, policy.order, v)
  }

  lemma SamePreferred(a: seq<View>, b: seq<View>)
    requires Facts(a) == Facts(b)
    ensures PreferConfirmed(a) == PreferConfirmed(b)
  {
    forall v ensures PreferConfirmed(a) == Chosen(v) <==> PreferConfirmed(b) == Chosen(v) {
      PreferConfirmedExactly(a, v);
      PreferConfirmedExactly(b, v);
    }
    PreferConfirmedExactly(a, "");
    PreferConfirmedExactly(b, "");
    if PreferConfirmed(a).Chosen? { assert PreferConfirmed(b) == Chosen(PreferConfirmed(a).value); }
    if PreferConfirmed(b).Chosen? { assert PreferConfirmed(a) == Chosen(PreferConfirmed(b).value); }
  }

  lemma SameShown(a: seq<View>, b: seq<View>, rule: Rule)
    requires Facts(a) == Facts(b)
    ensures DisplayPick(a, rule) == DisplayPick(b, rule) && Display(a, rule) == Display(b, rule)
  {
    SamePreferred(a, b);
  }

  lemma SameAgreed(a: seq<View>, b: seq<View>)
    requires Facts(a) == Facts(b) && a != [] && b != []
    ensures Agreed(a) == Agreed(b)
  {
    AgreedExactly(a, a[0].fact.value);
    AgreedExactly(b, a[0].fact.value);
    AgreedExactly(b, b[0].fact.value);
    assert a[0].fact in Facts(b);
  }

  lemma SameWorst(v: seq<string>, w: seq<string>, order: seq<string>)
    requires v != [] && w != [] && forall x :: x in v <==> x in w
    requires forall x, y :: x in v && y in v && x !in order && y !in order ==> x == y
    ensures MostRestrictive(v, order) == MostRestrictive(w, order)
  {
  }

  lemma SameUnion(v: seq<string>, w: seq<string>)
    requires forall x :: x in v <==> x in w
    requires Distinct(v) && Distinct(w)
    ensures Sort(v, Before) == Sort(w, Before)
  {
    forall x ensures multiset(v)[x] == multiset(w)[x] {
      CountOnce(v, x);
      CountOnce(w, x);
      assert x in v <==> x in multiset(v);
      assert x in w <==> x in multiset(w);
    }
    assert multiset(v) == multiset(w);
    BeforeWeakOrder();
    SortOrdered(v, Before);
    SortOrdered(w, Before);
    forall x, y | !Before(x, y) && !Before(y, x) ensures x == y { BeforeTotal(x, y); }
    SortedUnique(Sort(v, Before), Sort(w, Before), Before);
  }

  lemma EmptyTogether(a: seq<View>, w: seq<string>)
    requires Walks(w, Facts(a))
    ensures w == [] <==> a == []
  {
    if a != [] {
      assert a[0].fact in Facts(a);
      assert a[0].fact.value in w;
    }
    if w != [] { assert w[0] in w; }
  }

  /** Who asserts what how strongly decides; the order of the records, their ids and repeats do not. */
  lemma OnlyFactsMatter(a: seq<View>, v: seq<string>, b: seq<View>, w: seq<string>, policy: Policy,
                        active: set<Disqualifier>)
    requires Facts(a) == Facts(b) && Walks(v, Facts(a)) && Walks(w, Facts(b))
    requires !Ambiguous(Facts(a), policy, active)
    ensures Resolve(a, v, policy, active) == Resolve(b, w, policy, active)
  {
    SameShown(a, b, policy.displayRule);
    if Barred(Facts(a), policy, active).None? {
      SameSelected(a, v, b, w, policy);
    }
  }

  lemma FactsEmpty(a: seq<View>)
    ensures a == [] <==> Facts(a) == {}
  {
    if a != [] { assert a[0].fact in Facts(a); }
  }

  lemma SameSelected(a: seq<View>, v: seq<string>, b: seq<View>, w: seq<string>, policy: Policy)
    requires Facts(a) == Facts(b) && Walks(v, Facts(a)) && Walks(w, Facts(b))
    requires policy.strategy.MostRestrictiveStrategy? && policy.order != [] ==>
               !exists x, y :: x != y && Unknown(Facts(a), policy.order, x) && Unknown(Facts(a), policy.order, y)
    ensures Select(a, v, policy.strategy, policy.order) == Select(b, w, policy.strategy, policy.order)
  {
    EmptyTogether(a, v);
    EmptyTogether(b, w);
    FactsEmpty(a);
    FactsEmpty(b);
    if a == [] { return; }
    match policy.strategy
    case PreferConfirmedStrategy => SamePreferred(a, b);
    case UnresolvedOnConflict => SameAgreed(a, b);
    case UnionClasses => SameUnion(v, w);
    case MostRestrictiveStrategy =>
      if policy.order != [] {
        forall x, y | x in v && y in v && x !in policy.order && y !in policy.order ensures x == y {
          assert x != y ==> Unknown(Facts(a), policy.order, x) && Unknown(Facts(a), policy.order, y);
        }
        SameWorst(v, w, policy.order);
      }
  }

  lemma {:induction false} UnknownFirstWins(walk: seq<string>, order: seq<string>)
    requires walk != [] && walk[0] !in order
    ensures MostRestrictive(walk, order) == walk[0]
  {
    if |walk| > 1 {
      UnknownFirstWins(walk[..|walk| - 1], order);
    }
  }

  lemma WalkFrom(walk: seq<string>, facts: set<Fact>, u: string) returns (w: seq<string>)
    requires Walks(walk, facts) && u in walk
    ensures Walks(w, facts) && w != [] && w[0] == u
  {
    var others := (x: string) => x != u;
    var rest := Filter(walk, others);
    FilterDistinct(walk, others);
    FilterIn(walk, others);
    w := [u] + rest;
    forall i, j | 0 <= i < j < |w| ensures w[i] != w[j] {
      assert w[j] == rest[j - 1] && w[j] in rest;
    }
    forall v ensures v in w <==> v in walk {
      assert v in w <==> v == u || v in rest;
    }
  }

  ghost predicate Settled(a: seq<View>, policy: Policy, active: set<Disqualifier>) {
    forall v, w :: Walks(v, Facts(a)) && Walks(w, Facts(a)) ==>
        Resolve(a, v, policy, active) == Resolve(a, w, policy, active)
  }

  /** The verdict is fixed by its inputs except exactly when two values unknown to the severity order compete:
      then it is whichever the set happens to yield first. */
  lemma SettledUnlessAmbiguous(a: seq<View>, walk: seq<string>, policy: Policy, active: set<Disqualifier>)
    requires Walks(walk, Facts(a))
    ensures Settled(a, policy, active) <==> !Ambiguous(Facts(a), policy, active)
  {
    if Ambiguous(Facts(a), policy, active) {
      var x, y :| x != y && Unknown(Facts(a), policy.order, x) && Unknown(Facts(a), policy.order, y);
      var v := WalkFrom(walk, Facts(a), x);
      var w := WalkFrom(walk, Facts(a), y);
      UnknownFirstWins(v, policy.order);
      UnknownFirstWins(w, policy.order);
      FactsEmpty(a);
      assert Resolve(a, v, policy, active) != Resolve(a, w, policy, active);
    } else {
      forall v, w | Walks(v, Facts(a)) && Walks(w, Facts(a))
        ensures Resolve(a, v, policy, active) == Resolve(a, w, policy, active)
      {
        OnlyFactsMatter(a, v, a, w, policy, active);
      }
    }
  }

  function TwoViews(pair: Pair, u: string,
                    v: string): seq<View> { [View(Fact(pair, u), "1"), View(Fact(pair, v), "2")] }

  lemma TwoFacts(pair: Pair, u: string, v: string)
    ensures Facts(TwoViews(pair, u, v)) == {Fact(pair, u), Fact(pair, v)}
    ensures pair in ActivePairs(Facts(TwoViews(pair, u, v)))
  {
    var a := TwoViews(pair, u, v);
    assert a[0].fact in Facts(a) && a[1].fact in Facts(a);
    assert Fact(pair, u).pair in ActivePairs(Facts(a));
  }

  lemma TwoWalks(pair: Pair, u: string, v: string)
    requires u != v
    ensures Walks([u, v], {Fact(pair, u), Fact(pair, v)}) && Walks([v, u], {Fact(pair, u), Fact(pair, v)})
  {
    var facts := {Fact(pair, u), Fact(pair, v)};
    assert Fact(pair, u) in facts && Fact(pair, v) in facts;
  }

  /** Two records of one kind assert two values the severity order does not know, and the field is most restrictive:
      each of the two values is load-bearing under one of the two iterations. */
  lemma UnknownValuesUnsettled(pair: Pair, u: string, v: string, order: seq<string>)
    requires u != v && u !in order && v !in order && order != []
    ensures var a, rule := TwoViews(pair, u, v), HasEvidence(pair);
            var policy := Policy(OperationalTier, rule, Some(rule), {}, GenericField, MostRestrictiveStrategy, order);
            var r, s := Resolve(a, [u, v], policy, {}), Resolve(a, [v, u], policy, {});
            && Walks([u, v], Facts(a)) && Walks([v, u], Facts(a))
            && r.Resolution? && s.Resolution? && r.loadBearing == Some(u) && s.loadBearing == Some(v)
  {
    TwoFacts(pair, u, v);
    TwoWalks(pair, u, v);
    UnknownFirstWins([u, v], order);
    UnknownFirstWins([v, u], order);
  }

  /** Under the most restrictive strategy more evidence never gives a milder value, and a value outside the
      order is never passed over for one inside it. */
  lemma NeverMilder(a: seq<View>, v: seq<string>, b: seq<View>, w: seq<string>, policy: Policy,
                    active: set<Disqualifier>)
    requires policy.strategy.MostRestrictiveStrategy? && policy.order != []
    requires Facts(a) <= Facts(b) && Walks(v, Facts(a)) && Walks(w, Facts(b))
    requires Barred(Facts(a), policy, active).None? && a != []
    ensures var r, s := Resolve(a, v, policy, active), Resolve(b, w, policy, active);
            && r.Resolution? && s.Resolution? && r.loadBearing.Some? && s.loadBearing.Some?
            && IndexIn(policy.order, r.loadBearing.value) <= IndexIn(policy.order, s.loadBearing.value)
  {
    assert ActivePairs(Facts(a)) <= ActivePairs(Facts(b));
    MoreEvidenceSatisfies(policy.operationalRule.value, ActivePairs(Facts(a)), ActivePairs(Facts(b)));
    EmptyTogether(a, v);
    EmptyTogether(b, w);
    FactsEmpty(a);
    FactsEmpty(b);
    var x := MostRestrictive(v, policy.order);
    assert x in w;
  }

  // ---------------------------------------------------------------- whose value becomes load-bearing

  /** A rule that any one of some kinds of evidence satisfies. */
  predicate Flat(rule: Rule) {
    rule.HasEvidence? || (rule.AnyOf? && forall i :: 0 <= i < |rule.conditions| ==> rule.conditions[i].HasEvidence?)
  }

  function Named(rule: Rule): set<Pair>
    requires Flat(rule)
  {
    if rule.HasEvidence? then {rule.pair} else set i | 0 <= i < |rule.conditions| :: rule.conditions[i].pair
  }

  lemma FlatMeets(rule: Rule, active: set<Pair>)
    requires Flat(rule)
    ensures Evaluate(rule, active) <==> exists p :: p in Named(rule) && p in active
  {
    if rule.AnyOf? {
      if Evaluate(rule, active) {
        var i :| 0 <= i < |rule.conditions| && Evaluate(rule.conditions[i], active);
        assert rule.conditions[i].pair in Named(rule);
      }
      if p :| p in Named(rule) && p in active {
        var i :| 0 <= i < |rule.conditions| && rule.conditions[i].pair == p;
        assert Evaluate(rule.conditions[i], active);
      }
    }
  }

  /** A policy that may be load-bearing on any one of some kinds of evidence and prefers the strongest. */
  predicate Certifying(policy: Policy) {
    && policy.mode.GenericField? && policy.influenceMax.OperationalTier? && policy.strategy.PreferConfirmedStrategy?
    && policy.operationalRule.Some? && Flat(policy.operationalRule.value)
  }

  ghost predicate Backed(facts: set<Fact>, rule: Rule, v: string)
    requires Flat(rule)
  {
    exists f :: f in facts && f.pair in Named(rule) && f.value == v
  }

  /** Over evidence of the `kinds` given, a load-bearing value is always one the rule's own evidence asserts. */
  ghost predicate AlwaysBacked(kinds: set<Pair>, policy: Policy)
    requires Certifying(policy)
  {
    forall a, v, active :: Backs(kinds, policy, a, v, active)
  }

  ghost predicate Backs(kinds: set<Pair>, policy: Policy, a: seq<View>, v: seq<string>, active: set<Disqualifier>)
    requires Certifying(policy)
  {
    var r := Resolve(a, v, policy, active);
    ActivePairs(Facts(a)) <= kinds && r.Resolution? && r.loadBearing.Some? ==>
      Backed(Facts(a), policy.operationalRule.value, r.loadBearing.value)
  }

  function PairRank(p: Pair): nat { Rank(Fact(p, "")) }

  /** No other kind outranks a kind the rule names. */
  ghost predicate Unrivalled(kinds: set<Pair>, named: set<Pair>) {
    forall p, q :: p in kinds && p in named && q in kinds && q !in named ==> PairRank(q) <= PairRank(p)
  }

  lemma WinnerIsBacked(kinds: set<Pair>, facts: set<Fact>, rule: Rule, v: string)
    requires Flat(rule) && Unrivalled(kinds, Named(rule)) && ActivePairs(facts) <= kinds
    requires Evaluate(rule, ActivePairs(facts)) && Wins(facts, v)
    ensures Backed(facts, rule, v)
  {
    FlatMeets(rule, ActivePairs(facts));
    var p :| p in Named(rule) && p in ActivePairs(facts);
    var f :| f in facts && f.pair == p;
    var g :| Leading(facts, g);
    assert g.pair in ActivePairs(facts);
    assert Rank(f) == PairRank(f.pair) && Rank(g) == PairRank(g.pair);
    if g.pair !in Named(rule) {
      assert Leading(facts, f);
    }
  }

  lemma WonFairly(policy: Policy, a: seq<View>, walk: seq<string>, active: set<Disqualifier>)
    requires Certifying(policy)
    ensures var r := Resolve(a, walk, policy, active);
            r.Resolution? && r.loadBearing.Some? ==>
              Evaluate(policy.operationalRule.value, ActivePairs(Facts(a))) && Wins(Facts(a), r.loadBearing.value)
  {
    var r := Resolve(a, walk, policy, active);
    if r.Resolution? && r.loadBearing.Some? {
      assert PreferConfirmed(a) == Chosen(r.loadBearing.value);
      PreferConfirmedExactly(a, r.loadBearing.value);
    }
  }

  lemma RivalWins(policy: Policy, p: Pair, q: Pair)
    requires Certifying(policy) && p in Named(policy.operationalRule.value) && q !in Named(policy.operationalRule.value)
    requires PairRank(p) < PairRank(q)
    ensures var a := [View(Fact(p, "a"), "1"), View(Fact(q, "b"), "2")];
            var r := Resolve(a, ["a", "b"], policy, {});
            && ActivePairs(Facts(a)) == {p, q}
            && r.Resolution? && r.loadBearing == Some("b") && !Backed(Facts(a), policy.operationalRule.value, "b")
  {
    var f, g := Fact(p, "a"), Fact(q, "b");
    var a := [View(f, "1"), View(g, "2")];
    assert a[0].fact in Facts(a) && a[1].fact in Facts(a);
    assert Facts(a) == {f, g};
    assert f.pair in ActivePairs(Facts(a)) && g.pair in ActivePairs(Facts(a));
    FlatMeets(policy.operationalRule.value, ActivePairs(Facts(a)));
    assert Rank(f) == PairRank(p) && Rank(g) == PairRank(q);
    assert Leading(Facts(a), g);
    PreferConfirmedExactly(a, "b");
  }

  /** The rule is met by evidence it names, the value is taken from the strongest evidence there is. The two are
      about the same evidence, whatever was recorded, exactly when no other kind in use outranks a kind the
      rule names. */
  lemma BackedExactly(kinds: set<Pair>, policy: Policy)
    requires Certifying(policy)
    ensures AlwaysBacked(kinds, policy) <==> Unrivalled(kinds, Named(policy.operationalRule.value))
  {
    var named := Named(policy.operationalRule.value);
    if Unrivalled(kinds, named) {
      forall a, v, active ensures Backs(kinds, policy, a, v, active) {
        var r := Resolve(a, v, policy, active);
        if ActivePairs(Facts(a)) <= kinds && r.Resolution? && r.loadBearing.Some? {
          WonFairly(policy, a, v, active);
          WinnerIsBacked(kinds, Facts(a), policy.operationalRule.value, r.loadBearing.value);
        }
      }
    } else {
      var p, q :| p in kinds && p in named && q in kinds && q !in named && PairRank(q) > PairRank(p);
      RivalWins(policy, p, q);
      var a := [View(Fact(p, "a"), "1"), View(Fact(q, "b"), "2")];
      assert !Backs(kinds, policy, a, ["a", "b"], {});
    }
  }

  const LLM_PROPOSED := HasEvidence(Pair(Llm, Proposed))
  const SOURCE_PROPOSED := HasEvidence(Pair(Source, Proposed))
  const SOURCE_ATTESTED := HasEvidence(Pair(Source, Attested))
  const HUMAN_PROPOSED := HasEvidence(Pair(Human, Proposed))
  const HUMAN_CONFIRMED := HasEvidence(Pair(Human, Confirmed))
  const SOURCE_OR_HUMAN := AnyOf([SOURCE_ATTESTED, HUMAN_CONFIRMED])

  /** The policy of `authority_role` and `temporal_storage_model`. */
  const OPERATIONAL_PROFILE_CLASSIFICATION := Policy(
      OperationalTier,
      AnyOf([LLM_PROPOSED, SOURCE_PROPOSED, SOURCE_ATTESTED, HUMAN_PROPOSED, HUMAN_CONFIRMED]),
      Some(SOURCE_OR_HUMAN), {ConfirmationPendingRevalidation}, GenericField, PreferConfirmedStrategy, [])

  lemma SourceOrHumanNames()
    ensures Flat(SOURCE_OR_HUMAN) && Named(SOURCE_OR_HUMAN) == {Pair(Source, Attested), Pair(Human, Confirmed)}
  {
    var conditions := SOURCE_OR_HUMAN.conditions;
    assert conditions[0] == SOURCE_ATTESTED && conditions[1] == HUMAN_CONFIRMED;
    assert forall i :: 0 <= i < |conditions| ==> conditions[i] == SOURCE_ATTESTED || conditions[i] == HUMAN_CONFIRMED;
    assert conditions[0].pair in Named(SOURCE_OR_HUMAN) && conditions[1].pair in Named(SOURCE_OR_HUMAN);
  }

  lemma KindsCompared(kinds: set<Pair>, named: set<Pair>)
    requires named == {Pair(Source, Attested), Pair(Human, Confirmed)}
    ensures Unrivalled(kinds, named) <==>
              (Pair(Source, Attested) in kinds ==> forall p :: Pair(p, Confirmed) in kinds ==> p == Human)
  {
    if !Unrivalled(kinds, named) {
      var p, q :| p in kinds && p in named && q in kinds && q !in named && PairRank(q) > PairRank(p);
      assert p == Pair(Source, Attested) && q == Pair(q.producer, Confirmed);
    } else if Pair(Source, Attested) in kinds {
      forall p | Pair(p, Confirmed) in kinds ensures p == Human {
        assert Pair(p, Confirmed) in named <==> p == Human;
        assert PairRank(Pair(p, Confirmed)) > PairRank(Pair(Source, Attested));
      }
    }
  }

  /** "Only source-attested or human-confirmed, never the LLM": true of these fields exactly as long as, where
      sources attest, nobody but a human confirms. */
  lemma ClassificationBacked(kinds: set<Pair>)
    ensures Certifying(OPERATIONAL_PROFILE_CLASSIFICATION)
    ensures AlwaysBacked(kinds, OPERATIONAL_PROFILE_CLASSIFICATION) <==>
              (Pair(Source, Attested) in kinds ==> forall p :: Pair(p, Confirmed) in kinds ==> p == Human)
  {
    SourceOrHumanNames();
    BackedExactly(kinds, OPERATIONAL_PROFILE_CLASSIFICATION);
    KindsCompared(kinds, Named(SOURCE_OR_HUMAN));
  }
}
