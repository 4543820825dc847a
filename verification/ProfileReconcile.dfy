/** The profile reconciliation report: four places one value is kept, and the narrative pointers. */
module ProfileReconcile {
  import opened Options
  import opened FieldAuthority
  import opened Collections

  datatype Field = AuthorityRole | TemporalStorageModel

  const FIELDS := [AuthorityRole, TemporalStorageModel]

  /** A table's graph node with its two display projections. */
  datatype Node = Node(source: string, schema: string, table: string, objectRef: string,
                       authorityRole: Option<string>, temporalStorageModel: Option<string>)

  datatype Decision = Decision(eventId: string, displayHash: Option<string>)

  /** The read model's display values. */
  datatype Profile = Profile(authorityRole: Option<string>, temporalStorageModel: Option<string>)

  datatype Narrative = Loaded | Corrupt(message: string)

  /** What the report reads: tables as sequences, the other readers as functions of their arguments. */
  datatype Database = Database(
    tables: seq<Node>,
    logicalRef: Node -> string,
    policyFor: Field -> Policy,
    evidence: (string, Field) -> seq<View>,
    disqualifiers: (string, Field) -> set<Disqualifier>,
    decisions: (string, Field) -> seq<Decision>,
    profile: (string, string) -> Option<Profile>,
    pointers: seq<string>,
    narrative: string -> Narrative,
    inGraph: string -> bool,
    hash: string -> string)

  datatype Problem =
    | GraphDiffers(node: Node, field: Field, shown: Option<string>, expected: Option<string>)
    | NeverDecided(node: Node, field: Field)
    | HeadDiffers(node: Node, field: Field, eventId: string)
    | ProfileDiffers(node: Node, field: Field, profiled: Option<string>, shown: Option<string>)
    | NarrativeFails(source: string, message: string)
    | Orphaned(source: string)

  function Shown(node: Node, field: Field): Option<string> {
    match field
    case AuthorityRole => node.authorityRole
    case TemporalStorageModel => node.temporalStorageModel
  }

  function Profiled(profile: Profile, field: Field): Option<string> {
    match field
    case AuthorityRole => profile.authorityRole
    case TemporalStorageModel => profile.temporalStorageModel
  }

  function Evidence(db: Database, node: Node, field: Field): seq<View> { db.evidence(db.logicalRef(node), field) }

  function Decisions(db: Database, node: Node, field: Field): seq<Decision> { db.decisions(db.logicalRef(node), field) }

  function ProfileOf(db: Database, node: Node): Option<Profile> { db.profile(node.source, db.logicalRef(node)) }

  /** What the active evidence resolves to. */
  function Expected(db: Database, node: Node, field: Field): Option<string> {
    Display(Evidence(db, node, field), db.policyFor(field).displayRule)
  }

  function HashOf(db: Database, value: Option<string>): Option<string> {
    if value.Some? then Some(db.hash(value.value)) else None
  }

  // ---------------------------------------------------------------- the checks, one by one

  datatype Check =
    | GraphCheck(node: Node, field: Field)
    | DecisionCheck(node: Node, field: Field)
    | ProfileCheck(node: Node, field: Field)
    | PointerCheck(source: string)

  predicate HeadFails(evidence: seq<View>, decisions: seq<Decision>, hash: Option<string>) {
    if decisions == [] then evidence != [] else decisions[|decisions| - 1].displayHash != hash
  }

  predicate ProfileFails(profile: Option<Profile>, field: Field, shown: Option<string>) {
    profile.Some? && Profiled(profile.value, field) != shown
  }

  predicate Fails(db: Database, c: Check) {
    match c
    case GraphCheck(node, field) => Shown(node, field) != Expected(db, node, field)
    case DecisionCheck(node, field) =>
      HeadFails(Evidence(db, node, field), Decisions(db, node, field), HashOf(db, Expected(db, node, field)))
    case ProfileCheck(node, field) => ProfileFails(ProfileOf(db, node), field, Shown(node, field))
    case PointerCheck(source) => db.narrative(source).Corrupt? || !db.inGraph(source)
  }

  function Line(db: Database, c: Check): Problem
    requires Fails(db, c)
  {
    match c
    case GraphCheck(node, field) => GraphDiffers(node, field, Shown(node, field), Expected(db, node, field))
    case DecisionCheck(node, field) =>
      var decisions := Decisions(db, node, field);
      if decisions == [] then NeverDecided(node, field)
      else HeadDiffers(node, field, decisions[|decisions| - 1].eventId)
    case ProfileCheck(node, field) =>
      ProfileDiffers(node, field, Profiled(ProfileOf(db, node).value, field), Shown(node, field))
    case PointerCheck(source) =>
      if db.narrative(source).Corrupt? then NarrativeFails(source, db.narrative(source).message) else Orphaned(source)
  }

  function FieldChecks(node: Node, fields: seq<Field>): seq<Check> {
    if fields == [] then []
    else
      var n := |fields| - 1;
      FieldChecks(node, fields[..n]) + [GraphCheck(node, fields[n]), DecisionCheck(node, fields[n])]
  }

  function ProfileChecks(node: Node, fields: seq<Field>): seq<Check> {
    if fields == [] then []
    else
      var n := |fields| - 1;
      ProfileChecks(node, fields[..n]) + [ProfileCheck(node, fields[n])]
  }

  function TableChecks(tables: seq<Node>): seq<Check> {
    if tables == [] then []
    else
      var n := |tables| - 1;
      TableChecks(tables[..n]) + (FieldChecks(tables[n], FIELDS) + ProfileChecks(tables[n], FIELDS))
  }

  function PointerChecks(pointers: seq<string>): seq<Check> {
    if pointers == [] then []
    else
      var n := |pointers| - 1;
      PointerChecks(pointers[..n]) + [PointerCheck(pointers[n])]
  }

  /** Every check there is to make, in report order. No check is skipped on account of another. */
  function Checks(db: Database): seq<Check> { TableChecks(db.tables) + PointerChecks(db.pointers) }

  function LineOf(db: Database, c: Check): seq<Problem> { if Fails(db, c) then [Line(db, c)] else [] }

  /** One line for each check that fails. */
  function Lines(db: Database, checks: seq<Check>): seq<Problem> { FlatMap(checks, c => LineOf(db, c)) }

  lemma LinesSnoc(db: Database, checks: seq<Check>, c: Check)
    ensures Lines(db, checks + [c]) == Lines(db, checks) + LineOf(db, c)
  {
    FlatMapSnoc(checks, c, c => LineOf(db, c));
  }

  lemma LinesConcat(db: Database, a: seq<Check>, b: seq<Check>)
    ensures Lines(db, a + b) == Lines(db, a) + Lines(db, b)
  {
    FlatMapConcat(a, b, c => LineOf(db, c));
  }

  lemma LinesOfTwo(db: Database, checks: seq<Check>, c: Check, d: Check)
    ensures Lines(db, checks + [c, d]) == Lines(db, checks) + LineOf(db, c) + LineOf(db, d)
  {
    LinesSnoc(db, checks, c);
    LinesSnoc(db, checks + [c], d);
    assert checks + [c] + [d] == checks + [c, d];
  }

  // ---------------------------------------------------------------- the report

  lemma GraphLine(db: Database, node: Node, field: Field)
    ensures LineOf(db, GraphCheck(node, field)) ==
            if Shown(node, field) != Expected(db, node, field)
            then [GraphDiffers(node, field, Shown(node, field), Expected(db, node, field))] else []
  {
  }

  lemma DecisionFails(db: Database, node: Node, field: Field)
    ensures Fails(db, DecisionCheck(node, field)) <==>
              HeadFails(Evidence(db, node, field), Decisions(db, node, field), HashOf(db, Expected(db, node, field)))
  {
  }

  function HeadLine(node: Node, field: Field, decisions: seq<Decision>): Problem {
    if decisions == [] then NeverDecided(node, field) else HeadDiffers(node, field, decisions[|decisions| - 1].eventId)
  }

  lemma DecisionLine(db: Database, node: Node, field: Field)
    ensures LineOf(db, DecisionCheck(node, field)) ==
            if HeadFails(Evidence(db, node, field), Decisions(db, node, field), HashOf(db, Expected(db, node, field)))
            then [HeadLine(node, field, Decisions(db, node, field))] else []
  {
    DecisionFails(db, node, field);
  }

  /** What one field's values have to say, the graph's first. */
  function FieldLines(node: Node, field: Field, evidence: seq<View>, shown: Option<string>, expected: Option<string>,
                      decisions: seq<Decision>, hash: Option<string>): seq<Problem> {
    (if shown != expected then [GraphDiffers(node, field, shown, expected)] else []) +
    (if HeadFails(evidence, decisions, hash) then [HeadLine(node, field, decisions)] else [])
  }

  lemma FieldStep(db: Database, node: Node, fields: seq<Field>, k: nat)
    requires k < |fields|
    ensures var field := fields[k];
            var expected := Expected(db, node, field);
            Lines(db, FieldChecks(node, fields[..k + 1])) ==
            Lines(db, FieldChecks(node, fields[..k])) +
            FieldLines(node, field, Evidence(db, node, field), Shown(node, field), expected,
                       Decisions(db, node, field), HashOf(db, expected))
  {
    var field, filed := fields[k], FieldChecks(node, fields[..k]);
    assert fields[..k + 1][..k] == fields[..k];
    LinesOfTwo(db, filed, GraphCheck(node, field), DecisionCheck(node, field));
    GraphLine(db, node, field);
    DecisionLine(db, node, field);
    Regroup(Lines(db, filed), LineOf(db, GraphCheck(node, field)), LineOf(db, DecisionCheck(node, field)));
  }

  /** The loop's body up to its early `continue` or its end. */
  method ReconcileField(node: Node, field: Field, evidence: seq<View>, shown: Option<string>,
                        expected: Option<string>, decisions: seq<Decision>, hash: Option<string>)
    returns (found: seq<Problem>)
    requires evidence == [] ==> expected.None?
    ensures found == FieldLines(node, field, evidence, shown, expected, decisions, hash)
  {
    found := [];
    var head := if decisions == [] then None else Some(decisions[|decisions| - 1]);
    if evidence == [] && shown.None? && head.None? {
      return;
    }
    if shown != expected {
      found := found + [GraphDiffers(node, field, shown, expected)];
    }
    if evidence != [] && head.None? {
      found := found + [NeverDecided(node, field)];
    } else if head.Some? && head.value.displayHash != hash {
      found := found + [HeadDiffers(node, field, head.value.eventId)];
    }
  }

  /** The inner loop over the projected fields. */
  method ReconcileFields(db: Database, node: Node) returns (problems: seq<Problem>)
    ensures problems == Lines(db, FieldChecks(node, FIELDS))
  {
    problems := [];
    for k := 0 to |FIELDS|
      invariant problems == Lines(db, FieldChecks(node, FIELDS[..k]))
    {
      var field := FIELDS[k];
      FieldStep(db, node, FIELDS, k);
      NothingToShow(db.policyFor(field).displayRule);
      var expected := Expected(db, node, field);
      var found := ReconcileField(node, field, Evidence(db, node, field), Shown(node, field), expected,
                                  Decisions(db, node, field), HashOf(db, expected));
      problems := problems + found;
    }
    assert FIELDS[..|FIELDS|] == FIELDS;
  }

  lemma {:induction false} NoProfileNoLine(db: Database, node: Node, fields: seq<Field>)
    requires ProfileOf(db, node).None?
    ensures Lines(db, ProfileChecks(node, fields)) == []
  {
    if fields != [] {
      var n := |fields| - 1;
      NoProfileNoLine(db, node, fields[..n]);
      LinesSnoc(db, ProfileChecks(node, fields[..n]), ProfileCheck(node, fields[n]));
    }
  }

  method ReconcileProfile(db: Database, node: Node) returns (problems: seq<Problem>)
    ensures problems == Lines(db, ProfileChecks(node, FIELDS))
  {
    problems := [];
    var profile := ProfileOf(db, node);
    if profile.None? {
      NoProfileNoLine(db, node, FIELDS);
      return;
    }
    for k := 0 to |FIELDS|
      invariant problems == Lines(db, ProfileChecks(node, FIELDS[..k]))
    {
      var field := FIELDS[k];
      assert FIELDS[..k + 1][..k] == FIELDS[..k];
      LinesSnoc(db, ProfileChecks(node, FIELDS[..k]), ProfileCheck(node, field));
      var profiled := Profiled(profile.value, field);
      if profiled != Shown(node, field) {
        problems := problems + [ProfileDiffers(node, field, profiled, Shown(node, field))];
      }
    }
    assert FIELDS[..|FIELDS|] == FIELDS;
  }

  lemma PointerChecksSnoc(pointers: seq<string>, n: nat)
    requires n < |pointers|
    ensures PointerChecks(pointers[..n + 1]) == PointerChecks(pointers[..n]) + [PointerCheck(pointers[n])]
  {
    assert pointers[..n + 1][..n] == pointers[..n];
  }

  /** The second loop: a pointer that fails to load is reported and the loop goes on. */
  method ReconcilePointers(db: Database) returns (problems: seq<Problem>)
    ensures problems == Lines(db, PointerChecks(db.pointers))
  {
    problems := [];
    for n := 0 to |db.pointers|
      invariant problems == Lines(db, PointerChecks(db.pointers[..n]))
    {
      var source := db.pointers[n];
      PointerChecksSnoc(db.pointers, n);
      LinesSnoc(db, PointerChecks(db.pointers[..n]), PointerCheck(source));
      var found := ReconcilePointer(db, source);
      problems := problems + found;
    }
    assert db.pointers[..|db.pointers|] == db.pointers;
  }

  method ReconcilePointer(db: Database, source: string) returns (found: seq<Problem>)
    ensures found == LineOf(db, PointerCheck(source))
  {
    match db.narrative(source) {
      case Corrupt(message) => return [NarrativeFails(source, message)];
      case Loaded =>
    }
    found := if !db.inGraph(source) then [Orphaned(source)] else [];
  }

  /** `reconcile`: exactly one line for each check that fails, in order, and no other. */
  method Reconcile(db: Database) returns (problems: seq<Problem>)
    ensures problems == Lines(db, Checks(db))
  {
    problems := [];
    for n := 0 to |db.tables|
      invariant problems == Lines(db, TableChecks(db.tables[..n]))
    {
      var node := db.tables[n];
      var fieldProblems := ReconcileFields(db, node);
      var profileProblems := ReconcileProfile(db, node);
      assert db.tables[..n + 1][..n] == db.tables[..n];
      LinesConcat(db, FieldChecks(node, FIELDS), ProfileChecks(node, FIELDS));
      LinesConcat(db, TableChecks(db.tables[..n]), FieldChecks(node, FIELDS) + ProfileChecks(node, FIELDS));
      problems := problems + (fieldProblems + profileProblems);
    }
    assert db.tables[..|db.tables|] == db.tables;
    var pointerProblems := ReconcilePointers(db);
    LinesConcat(db, TableChecks(db.tables), PointerChecks(db.pointers));
    problems := problems + pointerProblems;
  }

  // ---------------------------------------------------------------- what an empty report means

  lemma {:induction false} InFieldChecks(node: Node, fields: seq<Field>, c: Check)
    ensures c in FieldChecks(node, fields) <==>
              exists k :: 0 <= k < |fields| && (c == GraphCheck(node, fields[k]) || c == DecisionCheck(node, fields[k]))
  {
    if fields != [] {
      InFieldChecks(node, fields[..|fields| - 1], c);
    }
  }

  lemma {:induction false} InProfileChecks(node: Node, fields: seq<Field>, c: Check)
    ensures c in ProfileChecks(node, fields) <==> exists k :: 0 <= k < |fields| && c == ProfileCheck(node, fields[k])
  {
    if fields != [] {
      InProfileChecks(node, fields[..|fields| - 1], c);
    }
  }

  lemma FieldIsProjected(field: Field)
    ensures exists k :: 0 <= k < |FIELDS| && FIELDS[k] == field
  {
    assert FIELDS[0] == AuthorityRole && FIELDS[1] == TemporalStorageModel;
  }

  lemma InNodeChecks(node: Node, c: Check)
    ensures c in FieldChecks(node, FIELDS) + ProfileChecks(node, FIELDS) <==> !c.PointerCheck? && c.node == node
  {
    InFieldChecks(node, FIELDS, c);
    InProfileChecks(node, FIELDS, c);
    if !c.PointerCheck? { FieldIsProjected(c.field); }
  }

  lemma {:induction false} InTableChecks(tables: seq<Node>, c: Check)
    ensures c in TableChecks(tables) <==> !c.PointerCheck? && c.node in tables
  {
    if tables != [] {
      var n := |tables| - 1;
      var init, last := tables[..n], tables[n];
      InTableChecks(init, c);
      InNodeChecks(last, c);
      assert c in TableChecks(tables) <==>
             c in TableChecks(init) || c in FieldChecks(last, FIELDS) + ProfileChecks(last, FIELDS);
      assert tables == init + [last];
    }
  }

  lemma {:induction false} InPointerChecks(pointers: seq<string>, c: Check)
    ensures c in PointerChecks(pointers) <==> c.PointerCheck? && c.source in pointers
  {
    if pointers != [] {
      InPointerChecks(pointers[..|pointers| - 1], c);
    }
  }

  /** Every table, every projected field and every pointer is checked. */
  lemma EverythingChecked(db: Database, c: Check)
    ensures c in Checks(db) <==> if c.PointerCheck? then c.source in db.pointers else c.node in db.tables
  {
    InTableChecks(db.tables, c);
    InPointerChecks(db.pointers, c);
  }

  lemma {:induction false} LineForEachFailure(db: Database, checks: seq<Check>)
    ensures forall c :: c in checks && Fails(db, c) ==> Line(db, c) in Lines(db, checks)
    ensures forall p :: p in Lines(db, checks) ==> exists c :: c in checks && Fails(db, c) && Line(db, c) == p
  {
    if checks != [] {
      var n := |checks| - 1;
      var init, last := checks[..n], checks[n];
      LineForEachFailure(db, init);
      assert checks == init + [last];
      LinesSnoc(db, init, last);
    }
  }

  lemma {:induction false} AsManyLines(db: Database, checks: seq<Check>)
    ensures |Lines(db, checks)| == |Filter(checks, c => Fails(db, c))|
  {
    if checks != [] {
      var n := |checks| - 1;
      var init, last := checks[..n], checks[n];
      AsManyLines(db, init);
      LastOff(checks);
      LinesSnoc(db, init, last);
      FilterSnoc(init, last, c => Fails(db, c));
      OneOrNone(db, last);
    }
  }

  lemma OneOrNone(db: Database, c: Check)
    ensures |LineOf(db, c)| == if Fails(db, c) then 1 else 0
  {
  }

  /** One failure is never hidden by another: each failing check of the whole list has its line, each line its
      failing check, and there are as many of the one as of the other. */
  lemma NothingHidden(db: Database, c: Check)
    ensures (if c.PointerCheck? then c.source in db.pointers else c.node in db.tables) && Fails(db, c) ==>
              Line(db, c) in Lines(db, Checks(db))
    ensures |Lines(db, Checks(db))| == |Filter(Checks(db), c => Fails(db, c))|
  {
    EverythingChecked(db, c);
    LineForEachFailure(db, Checks(db));
    AsManyLines(db, Checks(db));
  }

  /** Evidence, decision head, graph and (when there is one) profile hold the same value. */
  ghost predicate Agree(db: Database, node: Node, field: Field) {
    AllHold(db, Evidence(db, node, field), Decisions(db, node, field), ProfileOf(db, node), field,
            Shown(node, field), Expected(db, node, field))
  }

  ghost predicate AllHold(db: Database, evidence: seq<View>, decisions: seq<Decision>, profile: Option<Profile>,
                          field: Field,
                          shown: Option<string>, value: Option<string>)
  {
    && shown == value
    && (decisions == [] ==> evidence == [])
    && (decisions != [] ==> decisions[|decisions| - 1].displayHash == HashOf(db, value))
    && (profile.Some? ==> Profiled(profile.value, field) == value)
  }

  lemma AgreeExactly(db: Database, evidence: seq<View>, decisions: seq<Decision>, profile: Option<Profile>,
                     field: Field,
                     shown: Option<string>, value: Option<string>)
    ensures AllHold(db, evidence, decisions, profile, field, shown, value) <==>
              shown == value && !HeadFails(evidence, decisions, HashOf(db, value)) &&
                  !ProfileFails(profile, field, shown)
  {
  }

  ghost predicate Consistent(db: Database) {
    && (forall node, field :: node in db.tables ==> Agree(db, node, field))
    && (forall source :: source in db.pointers ==> db.narrative(source).Loaded? && db.inGraph(source))
  }

  lemma NoFailureAgrees(db: Database, node: Node, field: Field)
    ensures Agree(db, node, field) <==>
              !Fails(db, GraphCheck(node, field)) && !Fails(db, DecisionCheck(node, field)) &&
                  !Fails(db, ProfileCheck(node, field))
  {
    AgreeExactly(db, Evidence(db, node, field), Decisions(db, node, field), ProfileOf(db, node), field,
                 Shown(node, field), Expected(db, node, field));
  }

  lemma FirstLine(db: Database, c: Check)
    requires Lines(db, Checks(db)) == []
    requires if c.PointerCheck? then c.source in db.pointers else c.node in db.tables
    ensures !Fails(db, c)
  {
    NothingHidden(db, c);
  }

  /** The report is empty exactly when everything agrees. */
  lemma EmptyIffConsistent(db: Database)
    ensures Lines(db, Checks(db)) == [] <==> Consistent(db)
  {
    if Lines(db, Checks(db)) == [] {
      forall node, field | node in db.tables ensures Agree(db, node, field) {
        FirstLine(db, GraphCheck(node, field));
        FirstLine(db, DecisionCheck(node, field));
        FirstLine(db, ProfileCheck(node, field));
        NoFailureAgrees(db, node, field);
      }
      forall source | source in db.pointers ensures db.narrative(source).Loaded? && db.inGraph(source) {
        FirstLine(db, PointerCheck(source));
      }
    } else {
      LineForEachFailure(db, Checks(db));
      var p := Lines(db, Checks(db))[0];
      assert p in Lines(db, Checks(db));
      var c :| c in Checks(db) && Fails(db, c) && Line(db, c) == p;
      EverythingChecked(db, c);
      if !c.PointerCheck? { NoFailureAgrees(db, c.node, c.field); }
    }
  }

  ghost predicate CollisionFree(db: Database) { forall x, y :: db.hash(x) == db.hash(y) ==> x == y }

  lemma SameHash(db: Database, a: Option<string>, b: Option<string>)
    requires CollisionFree(db) && HashOf(db, a) == HashOf(db, b)
    ensures a == b
  {
  }

  /** With a collision-free hash, an empty report means the value a head was recorded for is the very value the
      evidence resolves to, the graph shows and the profile gives. */
  lemma HeadNamesTheValue(db: Database, node: Node, field: Field, recorded: Option<string>)
    requires CollisionFree(db) && Lines(db, Checks(db)) == [] && node in db.tables
    requires var d := Decisions(db, node, field); d != [] && d[|d| - 1].displayHash == HashOf(db, recorded)
    ensures recorded == Expected(db, node, field) == Shown(node, field)
    ensures ProfileOf(db, node).Some? ==> Profiled(ProfileOf(db, node).value, field) == recorded
  {
    EmptyIffConsistent(db);
    AgreedHead(db, node, field, recorded);
  }

  lemma AgreedHead(db: Database, node: Node, field: Field, recorded: Option<string>)
    requires CollisionFree(db) && Agree(db, node, field)
    requires var d := Decisions(db, node, field); d != [] && d[|d| - 1].displayHash == HashOf(db, recorded)
    ensures recorded == Expected(db, node, field) == Shown(node, field)
    ensures ProfileOf(db, node).Some? ==> Profiled(ProfileOf(db, node).value, field) == recorded
  {
    SameHash(db, recorded, Expected(db, node, field));
  }

  /** The report reads the resolver's verdict. The resolver raises only for a most-restrictive field without a
      severity order, and its display value does not depend on disqualifiers or on how the values are iterated. */
  lemma ExpectedIsResolved(db: Database, node: Node, field: Field, walk: seq<string>)
    requires var policy := db.policyFor(field); policy.strategy.MostRestrictiveStrategy? ==> policy.order != []
    ensures var r := Resolve(Evidence(db, node, field), walk, db.policyFor(field),
        db.disqualifiers(db.logicalRef(node), field));
            r.Resolution? && r.display == Expected(db, node, field)
  {
    PreferConfirmedExactly(Evidence(db, node, field), "");
  }
}
