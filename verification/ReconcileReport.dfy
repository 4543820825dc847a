/** The reconciliation report column by column: which lines it has, in which order, and when it has none. */
module ReconcileReport {
  import opened Options
  import opened Collections
  import opened FieldAuthority
  import opened ProfileReconcile
  import FieldVerdicts

  /** The value this evidence displays under this rule: the one all its strongest records say, once the rule is
      satisfied; nothing otherwise. */
  ghost predicate Displays(evidence: seq<View>, rule: Rule, value: Option<string>) {
    forall v :: value == Some(v) <==>
                  FieldVerdicts.Satisfied(rule, Facts(evidence)) && FieldVerdicts.StrongestSay(Facts(evidence), v)
  }

  lemma DisplaysExactly(evidence: seq<View>, rule: Rule, value: Option<string>)
    ensures Displays(evidence, rule, value) <==> value == Display(evidence, rule)
  {
    FieldVerdicts.SatisfiedByFacts(rule, Facts(evidence));
    forall v ensures FieldVerdicts.StrongestSay(Facts(evidence), v) <==> Wins(Facts(evidence), v) {
      FieldVerdicts.StrongestSayExactly(Facts(evidence), v);
    }
    forall v ensures Display(evidence, rule) == Some(v) <==>
                       Evaluate(rule, ActivePairs(Facts(evidence))) && Wins(Facts(evidence), v) {
      DisplayExactly(evidence, rule, v);
    }
    if Displays(evidence, rule, value) && value.Some? { assert Display(evidence, rule) == Some(value.value); }
    if Displays(evidence, rule, value) && Display(evidence, rule).Some? {
      assert value == Some(Display(evidence, rule).value);
    }
  }

  // ---------------------------------------------------------------- the lines

  /** The latest decision was recorded for another value. */
  ghost predicate HeadIsOther(decisions: seq<Decision>, value: Option<string>, hash: string -> string) {
    decisions != [] &&
    match decisions[|decisions| - 1].displayHash
    case None => value.Some?
    case Some(recorded) => value.None? || recorded != hash(value.value)
  }

  /** Each kind of line, by column: the graph node's, the evidence's resolved value, the latest decision, the profile's,
      and the narrative pointers. */
  ghost predicate Diverges(db: Database, p: Problem) {
    match p
    case GraphDiffers(node, AuthorityRole, shown, expected) =>
      && node in db.tables && shown == node.authorityRole && shown != expected
      && Displays(db.evidence(db.logicalRef(node), AuthorityRole), db.policyFor(AuthorityRole).displayRule, expected)
    case GraphDiffers(node, TemporalStorageModel, shown, expected) =>
      && node in db.tables && shown == node.temporalStorageModel && shown != expected
      && Displays(db.evidence(db.logicalRef(node), TemporalStorageModel),
                  db.policyFor(TemporalStorageModel).displayRule, expected)
    case NeverDecided(node, field) =>
      && node in db.tables && db.evidence(db.logicalRef(node), field) != []
      && db.decisions(db.logicalRef(node), field) == []
    case HeadDiffers(node, field, eventId) =>
      && node in db.tables
      && var decisions := db.decisions(db.logicalRef(node), field);
         && decisions != [] && decisions[|decisions| - 1].eventId == eventId
         && exists value :: Displays(db.evidence(db.logicalRef(node), field), db.policyFor(field).displayRule, value) &&
             HeadIsOther(decisions, value, db.hash)
    case ProfileDiffers(node, AuthorityRole, profiled, shown) =>
      && node in db.tables && shown == node.authorityRole && profiled != shown
      && var profile := db.profile(node.source, db.logicalRef(node));
         profile.Some? && profiled == profile.value.authorityRole
    case ProfileDiffers(node, TemporalStorageModel, profiled, shown) =>
      && node in db.tables && shown == node.temporalStorageModel && profiled != shown
      && var profile := db.profile(node.source, db.logicalRef(node));
         profile.Some? && profiled == profile.value.temporalStorageModel
    case NarrativeFails(source, message) => source in db.pointers && db.narrative(source) == Corrupt(message)
    case Orphaned(source) => source in db.pointers && db.narrative(source) == Loaded && !db.inGraph(source)
  }

  /** The check a line comes from. */
  function CheckOf(p: Problem): Check {
    match p
    case GraphDiffers(node, field, _, _) => GraphCheck(node, field)
    case NeverDecided(node, field) => DecisionCheck(node, field)
    case HeadDiffers(node, field, _) => DecisionCheck(node, field)
    case ProfileDiffers(node, field, _, _) => ProfileCheck(node, field)
    case NarrativeFails(source, _) => PointerCheck(source)
    case Orphaned(source) => PointerCheck(source)
  }

  lemma OtherHash(db: Database, decisions: seq<Decision>, value: Option<string>)
    requires decisions != []
    ensures HeadIsOther(decisions, value, db.hash) <==> decisions[|decisions| - 1].displayHash != HashOf(db, value)
  {
  }

  lemma GraphDiverges(db: Database, p: Problem)
    requires p.GraphDiffers?
    ensures Diverges(db, p) <==>
              EverythingIn(db, CheckOf(p)) && Fails(db, CheckOf(p)) && Line(db, CheckOf(p)) == p
  {
    DisplaysExactly(db.evidence(db.logicalRef(p.node), p.field), db.policyFor(p.field).displayRule, p.expected);
    assert p.field == AuthorityRole || p.field == TemporalStorageModel;
  }

  lemma ProfileDiverges(db: Database, p: Problem)
    requires p.ProfileDiffers?
    ensures Diverges(db, p) <==>
              EverythingIn(db, CheckOf(p)) && Fails(db, CheckOf(p)) && Line(db, CheckOf(p)) == p
  {
    assert p.field == AuthorityRole || p.field == TemporalStorageModel;
  }

  lemma LineDiverges(db: Database, p: Problem)
    requires p.NeverDecided? || p.NarrativeFails? || p.Orphaned?
    ensures Diverges(db, p) <==>
              EverythingIn(db, CheckOf(p)) && Fails(db, CheckOf(p)) && Line(db, CheckOf(p)) == p
  {
  }

  predicate EverythingIn(db: Database, c: Check) {
    if c.PointerCheck? then c.source in db.pointers else c.node in db.tables
  }

  lemma HeadDiverges(db: Database, p: Problem)
    requires p.HeadDiffers?
    ensures Diverges(db, p) <==>
              EverythingIn(db, CheckOf(p)) && Fails(db, CheckOf(p)) && Line(db, CheckOf(p)) == p
  {
    var evidence, rule := db.evidence(db.logicalRef(p.node), p.field), db.policyFor(p.field).displayRule;
    var decisions := db.decisions(db.logicalRef(p.node), p.field);
    SomeOther(db, evidence, rule, decisions);
    HeadLineIs(db, p.node, p.field);
    if decisions != [] { OtherHash(db, decisions, Display(evidence, rule)); }
  }

  lemma HeadLineIs(db: Database, node: Node, field: Field)
    ensures var c, decisions := DecisionCheck(node, field), db.decisions(db.logicalRef(node), field);
            && (Fails(db, c) <==> HeadFails(db.evidence(db.logicalRef(node), field), decisions,
                                            HashOf(db, Resolved(db, node, field))))
            && (Fails(db, c) ==> Line(db, c) == HeadLine(node, field, decisions))
  {
    DecisionFails(db, node, field);
    DecisionLine(db, node, field);
    var c := DecisionCheck(node, field);
    if Fails(db, c) { assert LineOf(db, c)[0] == Line(db, c); }
  }

  lemma SomeOther(db: Database, evidence: seq<View>, rule: Rule, decisions: seq<Decision>)
    ensures (exists value :: Displays(evidence, rule, value) && HeadIsOther(decisions, value, db.hash)) <==>
              HeadIsOther(decisions, Display(evidence, rule), db.hash)
  {
    forall value ensures Displays(evidence, rule, value) <==> value == Display(evidence, rule) {
      DisplaysExactly(evidence, rule, value);
    }
  }

  lemma LineIsOf(db: Database, c: Check)
    requires Fails(db, c)
    ensures CheckOf(Line(db, c)) == c
  {
  }

  /** The report has a line exactly for what diverges, and the line says what: which value is the graph's, which the
      evidence's or the profile's, and which decision is the latest. */
  lemma ReportedExactly(db: Database, p: Problem)
    ensures p in Lines(db, Checks(db)) <==> Diverges(db, p)
  {
    AllReported(db, p);
    match p
    case HeadDiffers(_, _, _) => HeadDiverges(db, p);
    case GraphDiffers(_, _, _, _) => GraphDiverges(db, p);
    case ProfileDiffers(_, _, _, _) => ProfileDiverges(db, p);
    case _ => LineDiverges(db, p);
  }

  lemma AllReported(db: Database, p: Problem)
    ensures p in Lines(db, Checks(db)) <==>
              EverythingIn(db, CheckOf(p)) && Fails(db, CheckOf(p)) && Line(db, CheckOf(p)) == p
  {
    LineForEachFailure(db, Checks(db));
    EverythingChecked(db, CheckOf(p));
    if p in Lines(db, Checks(db)) {
      var c :| c in Checks(db) && Fails(db, c) && Line(db, c) == p;
      LineIsOf(db, c);
    }
  }

  // ---------------------------------------------------------------- their order

  function If(fails: bool, p: Problem): seq<Problem> { if fails then [p] else [] }

  /** What the latest decision has to say about a resolved value. */
  function HeadLines(db: Database, node: Node, field: Field, value: Option<string>): seq<Problem> {
    var decisions := db.decisions(db.logicalRef(node), field);
    if decisions == [] then If(db.evidence(db.logicalRef(node), field) != [], NeverDecided(node, field))
    else If(decisions[|decisions| - 1].displayHash != HashOf(db, value),
            HeadDiffers(node, field, decisions[|decisions| - 1].eventId))
  }

  function ProfileLines(node: Node, profile: Profile): seq<Problem> {
    If(profile.authorityRole != node.authorityRole,
       ProfileDiffers(node, AuthorityRole, profile.authorityRole, node.authorityRole)) +
    If(profile.temporalStorageModel != node.temporalStorageModel,
       ProfileDiffers(node, TemporalStorageModel, profile.temporalStorageModel, node.temporalStorageModel))
  }

  function Resolved(db: Database, node: Node, field: Field): Option<string> {
    Display(db.evidence(db.logicalRef(node), field), db.policyFor(field).displayRule)
  }

  /** A table's lines: for the authority role the graph, then the decision; the same for the temporal storage model;
      then the two columns of the profile. */
  function TableLines(db: Database, node: Node): seq<Problem> {
    var role, model := Resolved(db, node, AuthorityRole), Resolved(db, node, TemporalStorageModel);
    var profile := db.profile(node.source, db.logicalRef(node));
    (If(node.authorityRole != role, GraphDiffers(node, AuthorityRole, node.authorityRole, role))
     + HeadLines(db, node, AuthorityRole, role)
     + If(node.temporalStorageModel != model,
          GraphDiffers(node, TemporalStorageModel, node.temporalStorageModel, model))
     + HeadLines(db, node, TemporalStorageModel, model))
    + if profile.Some? then ProfileLines(node, profile.value) else []
  }

  function PointerLines(db: Database, source: string): seq<Problem> {
    match db.narrative(source)
    case Corrupt(message) => [NarrativeFails(source, message)]
    case Loaded => If(!db.inGraph(source), Orphaned(source))
  }

  lemma FieldLinesAre(db: Database, node: Node)
    ensures Lines(db, FieldChecks(node, FIELDS)) ==
            LineOf(db, GraphCheck(node, AuthorityRole)) + LineOf(db, DecisionCheck(node, AuthorityRole)) +
            LineOf(db, GraphCheck(node, TemporalStorageModel)) + LineOf(db, DecisionCheck(node, TemporalStorageModel))
  {
    assert FIELDS[..1] == [AuthorityRole] && FIELDS[..1][..0] == [];
    LinesOfTwo(db, [], GraphCheck(node, AuthorityRole), DecisionCheck(node, AuthorityRole));
    var first := [] + [GraphCheck(node, AuthorityRole), DecisionCheck(node, AuthorityRole)];
    assert FieldChecks(node, FIELDS[..1]) == first;
    LinesOfTwo(db, first, GraphCheck(node, TemporalStorageModel), DecisionCheck(node, TemporalStorageModel));
  }

  lemma ProfileLinesAre(db: Database, node: Node)
    ensures Lines(db, ProfileChecks(node, FIELDS)) ==
            LineOf(db, ProfileCheck(node, AuthorityRole)) + LineOf(db, ProfileCheck(node, TemporalStorageModel))
  {
    assert FIELDS[..1] == [AuthorityRole] && FIELDS[..1][..0] == [];
    LinesSnoc(db, [], ProfileCheck(node, AuthorityRole));
    var first := [] + [ProfileCheck(node, AuthorityRole)];
    assert ProfileChecks(node, FIELDS[..1]) == first;
    LinesSnoc(db, first, ProfileCheck(node, TemporalStorageModel));
  }

  lemma HeadLinesAre(db: Database, node: Node, field: Field)
    ensures LineOf(db, DecisionCheck(node, field)) == HeadLines(db, node, field, Resolved(db, node, field))
  {
    DecisionLine(db, node, field);
  }

  lemma GraphLines(db: Database, node: Node)
    ensures LineOf(db, GraphCheck(node, AuthorityRole)) ==
            If(node.authorityRole != Resolved(db, node, AuthorityRole),
               GraphDiffers(node, AuthorityRole, node.authorityRole, Resolved(db, node, AuthorityRole)))
    ensures LineOf(db, GraphCheck(node, TemporalStorageModel)) ==
            If(node.temporalStorageModel != Resolved(db, node, TemporalStorageModel),
               GraphDiffers(node, TemporalStorageModel, node.temporalStorageModel,
                            Resolved(db, node, TemporalStorageModel)))
  {
    GraphLine(db, node, AuthorityRole);
    GraphLine(db, node, TemporalStorageModel);
  }

  lemma ColumnLines(db: Database, node: Node)
    ensures var profile := db.profile(node.source, db.logicalRef(node));
            LineOf(db, ProfileCheck(node, AuthorityRole)) + LineOf(db, ProfileCheck(node, TemporalStorageModel)) ==
            if profile.Some? then ProfileLines(node, profile.value) else []
  {
  }

  lemma TableLinesAre(db: Database, node: Node)
    ensures Lines(db, FieldChecks(node, FIELDS) + ProfileChecks(node, FIELDS)) == TableLines(db, node)
  {
    LinesConcat(db, FieldChecks(node, FIELDS), ProfileChecks(node, FIELDS));
    FieldLinesAre(db, node);
    ProfileLinesAre(db, node);
    HeadLinesAre(db, node, AuthorityRole);
    HeadLinesAre(db, node, TemporalStorageModel);
    GraphLines(db, node);
    ColumnLines(db, node);
  }

  lemma {:induction false} TablesInOrder(db: Database, tables: seq<Node>)
    ensures Lines(db, TableChecks(tables)) == FlatMap(tables, node => TableLines(db, node))
  {
    if tables != [] {
      var n := |tables| - 1;
      TablesInOrder(db, tables[..n]);
      TableLinesAre(db, tables[n]);
      LinesConcat(db, TableChecks(tables[..n]), FieldChecks(tables[n], FIELDS) + ProfileChecks(tables[n], FIELDS));
      FlatMapSnoc(tables[..n], tables[n], node => TableLines(db, node));
      LastOff(tables);
    }
  }

  lemma {:induction false} PointersInOrder(db: Database, pointers: seq<string>)
    ensures Lines(db, PointerChecks(pointers)) == FlatMap(pointers, source => PointerLines(db, source))
  {
    if pointers != [] {
      var n := |pointers| - 1;
      PointersInOrder(db, pointers[..n]);
      LinesSnoc(db, PointerChecks(pointers[..n]), PointerCheck(pointers[n]));
      FlatMapSnoc(pointers[..n], pointers[n], source => PointerLines(db, source));
      LastOff(pointers);
    }
  }

  /** The report goes table by table and then pointer by pointer. */
  lemma ReportInOrder(db: Database)
    ensures Lines(db, Checks(db)) ==
            FlatMap(db.tables, node => TableLines(db, node)) + FlatMap(db.pointers, source => PointerLines(db, source))
  {
    LinesConcat(db, TableChecks(db.tables), PointerChecks(db.pointers));
    TablesInOrder(db, db.tables);
    PointersInOrder(db, db.pointers);
  }

  // ---------------------------------------------------------------- when there are none

  /** The latest decision, if there is evidence at all, was recorded for this value. */
  ghost predicate Recorded(db: Database, node: Node, field: Field, value: Option<string>) {
    var decisions := db.decisions(db.logicalRef(node), field);
    if decisions == [] then db.evidence(db.logicalRef(node), field) == []
    else !HeadIsOther(decisions, value, db.hash)
  }

  /** Each of the two graph columns is what the evidence for its field displays, what that field's latest decision was
      recorded for, and what the profile's column of the same name gives where there is a profile. */
  ghost predicate TableConsistent(db: Database, node: Node) {
    var ref := db.logicalRef(node);
    var profile := db.profile(node.source, ref);
    && Displays(db.evidence(ref, AuthorityRole), db.policyFor(AuthorityRole).displayRule, node.authorityRole)
    && Displays(db.evidence(ref, TemporalStorageModel), db.policyFor(TemporalStorageModel).displayRule,
                node.temporalStorageModel)
    && Recorded(db, node, AuthorityRole, node.authorityRole)
    && Recorded(db, node, TemporalStorageModel, node.temporalStorageModel)
    && (profile.Some? ==>
          profile.value.authorityRole == node.authorityRole &&
          profile.value.temporalStorageModel == node.temporalStorageModel)
  }

  lemma RecordedExactly(db: Database, node: Node, field: Field, value: Option<string>)
    ensures Recorded(db, node, field, value) <==>
              !HeadFails(db.evidence(db.logicalRef(node), field), db.decisions(db.logicalRef(node), field),
                         HashOf(db, value))
  {
    var decisions := db.decisions(db.logicalRef(node), field);
    if decisions != [] { OtherHash(db, decisions, value); }
  }

  lemma RoleAgrees(db: Database, node: Node)
    ensures var ref := db.logicalRef(node);
            var profile := db.profile(node.source, ref);
            Agree(db, node, AuthorityRole) <==>
              && Displays(db.evidence(ref, AuthorityRole), db.policyFor(AuthorityRole).displayRule, node.authorityRole)
              && Recorded(db, node, AuthorityRole, node.authorityRole)
              && (profile.Some? ==> profile.value.authorityRole == node.authorityRole)
  {
    DisplaysExactly(db.evidence(db.logicalRef(node), AuthorityRole), db.policyFor(AuthorityRole).displayRule,
                    node.authorityRole);
    RecordedExactly(db, node, AuthorityRole, node.authorityRole);
    NoFailureAgrees(db, node, AuthorityRole);
  }

  lemma ModelAgrees(db: Database, node: Node)
    ensures var ref := db.logicalRef(node);
            var profile := db.profile(node.source, ref);
            Agree(db, node, TemporalStorageModel) <==>
              && Displays(db.evidence(ref, TemporalStorageModel), db.policyFor(TemporalStorageModel).displayRule,
                          node.temporalStorageModel)
              && Recorded(db, node, TemporalStorageModel, node.temporalStorageModel)
              && (profile.Some? ==> profile.value.temporalStorageModel == node.temporalStorageModel)
  {
    DisplaysExactly(db.evidence(db.logicalRef(node), TemporalStorageModel),
                    db.policyFor(TemporalStorageModel).displayRule, node.temporalStorageModel);
    RecordedExactly(db, node, TemporalStorageModel, node.temporalStorageModel);
    NoFailureAgrees(db, node, TemporalStorageModel);
  }

  /** The report is empty exactly when every table's columns are consistent and every narrative pointer loads and
      belongs to a source in the graph. */
  lemma EmptyByColumn(db: Database)
    ensures Lines(db, Checks(db)) == [] <==>
              && (forall node :: node in db.tables ==> TableConsistent(db, node))
              && forall source :: source in db.pointers ==> db.narrative(source) == Loaded && db.inGraph(source)
  {
    EmptyIffConsistent(db);
    if Consistent(db) {
      forall node | node in db.tables ensures TableConsistent(db, node) { TableAgrees(db, node); }
    }
    if forall node :: node in db.tables ==> TableConsistent(db, node) {
      forall node, field | node in db.tables ensures Agree(db, node, field) {
        TableAgrees(db, node);
        EachAgrees(db, node, field);
      }
    }
  }

  lemma TableAgrees(db: Database, node: Node)
    ensures TableConsistent(db, node) <==> Agree(db, node, AuthorityRole) && Agree(db, node, TemporalStorageModel)
  {
    RoleAgrees(db, node);
    ModelAgrees(db, node);
  }

  lemma EachAgrees(db: Database, node: Node, field: Field)
    requires Agree(db, node, AuthorityRole) && Agree(db, node, TemporalStorageModel)
    ensures Agree(db, node, field)
  {
    assert field == AuthorityRole || field == TemporalStorageModel;
  }
}
