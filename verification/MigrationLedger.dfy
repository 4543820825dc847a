/** The migration-ledger verdict, the dump it can be read from, and the runner whose verdict it foretells. */
module MigrationLedger {
  import opened Collections
  import opened CodePointOrder
  import Text

  /** `schema_migrations`: name to checksum. */
  type Ledger = map<string, string>

  /** A name with the digest of its source, or with the checksum recorded for it. */
  datatype Migration = Migration(name: string, digest: string)

  /** What the runner works through, in order. */
  type Build = seq<Migration>

  /** The pinned checksum and the migration that replaced it; the reason recorded beside them is for people. */
  datatype Acknowledgement = Acknowledgement(checksum: string, replacement: string)

  const ACKNOWLEDGED_LEDGER_ROWS: map<string, Acknowledgement> :=
    map["1010_multisource_assembly_shadow" := Acknowledgement(
          "8ff56402d7a433d271e1830b3db743be3e6baa3020aad632c3aada659a55a4bc",
          "1019_multisource_assembly_shadow")]

  function NameOf(migration: Migration): string { migration.name }

  /** `_expected`: a later entry under the same name replaces an earlier one. */
  function Expected(build: Build): map<string, string> {
    if build == [] then map[]
    else
      var last := build[|build| - 1];
      Expected(build[..|build| - 1])[last.name := last.digest]
  }

  // ---------------------------------------------------------------- the verdict

  predicate Drifts(expected: map<string, string>, ledger: Ledger, name: string) {
    name in expected && name in ledger && ledger[name] != expected[name]
  }

  /** A rename somebody vouched for: the pinned bytes, with the replacement both built and applied. */
  predicate Renamed(known: map<string, Acknowledgement>, expected: map<string, string>, ledger: Ledger, name: string) {
    && name in ledger && name in known
    && known[name].checksum == ledger[name] && known[name].replacement in expected && known[name].replacement in ledger
  }

  /** Every row is accounted for. */
  ghost predicate Clean(known: map<string, Acknowledgement>, expected: map<string, string>, ledger: Ledger) {
    forall name :: name in ledger ==>
      if name in expected then ledger[name] == expected[name] else Renamed(known, expected, ledger, name)
  }

  datatype Report = Report(drift: seq<string>, notApplied: seq<string>, acknowledged: seq<string>,
                           unexpected: seq<string>, exit: int)

  /** `sorted(m)`. */
  method SortedNames(m: map<string, string>) returns (names: seq<string>)
    ensures Ascending(names)
    ensures forall name :: name in names <==> name in m
  {
    var rest, picked := m.Keys, [];
    while rest != {}
      invariant rest <= m.Keys
      invariant forall name :: name in m <==> name in rest || name in picked
      invariant forall name :: name in rest ==> name !in picked
      invariant Distinct(picked)
    {
      var name :| name in rest;
      rest, picked := rest - {name}, picked + [name];
    }
    names := Sort(picked, Before);
    SortedOnce(picked);
  }

  lemma {:induction false} FilterAscending(names: seq<string>, p: string -> bool)
    requires Ascending(names)
    ensures Ascending(Filter(names, p))
  {
    if names != [] {
      FilterAscending(names[1..], p);
      FilterIn(names[1..], p);
      var rest := Filter(names[1..], p);
      forall i | 0 <= i < |rest| ensures Before(names[0], rest[i]) {
        assert rest[i] in names[1..];
        var k :| 0 <= k < |names[1..]| && names[1..][k] == rest[i];
        assert names[k + 1] == rest[i];
      }
    }
  }

  /** In order, exactly the names of `m` that `p` picks. */
  ghost predicate Selects(s: seq<string>, m: map<string, string>, p: string -> bool) {
    Ascending(s) && forall name :: name in s <==> name in m && p(name)
  }

  lemma FilterSelects(names: seq<string>, m: map<string, string>, p: string -> bool)
    requires Ascending(names) && forall name :: name in names <==> name in m
    ensures Selects(Filter(names, p), m, p)
  {
    FilterAscending(names, p);
    FilterIn(names, p);
  }

  /** The loop of `main`: rows this build does not know, into two lists. */
  method SplitRows(names: seq<string>, known: map<string, Acknowledgement>, expected: map<string, string>,
                   ledger: Ledger)
    returns (unexpected: seq<string>, acknowledged: seq<string>)
    requires forall name :: name in names ==> name in ledger
    ensures acknowledged == Filter(names, name => name !in expected && Renamed(known, expected, ledger, name))
    ensures unexpected == Filter(names, name => name !in expected && !Renamed(known, expected, ledger, name))
  {
    ghost var vouched := (name: string) => name !in expected && Renamed(known, expected, ledger, name);
    ghost var stray := (name: string) => name !in expected && !Renamed(known, expected, ledger, name);
    unexpected, acknowledged := [], [];
    for i := 0 to |names|
      invariant acknowledged == Filter(names[..i], vouched) && unexpected == Filter(names[..i], stray)
    {
      var name := names[i];
      assert names[..i + 1] == names[..i] + [name];
      FilterSnoc(names[..i], name, vouched);
      FilterSnoc(names[..i], name, stray);
      if name in expected {
        continue;
      }
      if name in known && known[name].checksum == ledger[name] && known[name].replacement in expected &&
         known[name].replacement in ledger
      {
        acknowledged := acknowledged + [name];
      } else {
        unexpected := unexpected + [name];
      }
    }
    assert names[..|names|] == names;
  }

  lemma EmptyIffClean(known: map<string, Acknowledgement>, expected: map<string, string>, ledger: Ledger,
                      drift: seq<string>, unexpected: seq<string>)
    requires forall name :: name in drift <==> Drifts(expected, ledger, name)
    requires forall name :: name in unexpected <==>
              name in ledger && name !in expected && !Renamed(known, expected, ledger, name)
    ensures drift == [] && unexpected == [] <==> Clean(known, expected, ledger)
  {
    if drift != [] {
      assert drift[0] in drift;
    }
    if unexpected != [] {
      assert unexpected[0] in unexpected;
    }
    if drift == [] && unexpected == [] {
      forall name | name in ledger
        ensures if name in expected then ledger[name] == expected[name] else Renamed(known, expected, ledger, name)
      {
        assert name !in drift && name !in unexpected;
      }
    }
  }

  /** What the report says: each row of the ledger is exactly one of expected, acknowledged and unexpected, and the
      exit code is 0 exactly when every row is accounted for. */
  ghost predicate Reported(known: map<string, Acknowledgement>, expected: map<string, string>, ledger: Ledger,
                           r: Report) {
    && Selects(r.drift, expected, name => Drifts(expected, ledger, name))
    && Selects(r.notApplied, expected, name => name !in ledger)
    && (forall name :: name in ledger ==> ExactlyOne(name in expected, name in r.acknowledged, name in r.unexpected))
    && (forall name :: name in r.acknowledged <==> name !in expected && Renamed(known, expected, ledger, name))
    && (forall name :: name in r.unexpected ==> name in ledger)
    && Ascending(r.acknowledged) && Ascending(r.unexpected)
    && (r.exit == 0 || r.exit == 1)
    && (r.exit == 0 <==> Clean(known, expected, ledger))
  }

  /** `main` from the two maps on. The exit code is 0 exactly when every row is accounted for. */
  method Verify(known: map<string, Acknowledgement>, expected: map<string, string>, ledger: Ledger) returns (r: Report)
    ensures Reported(known, expected, ledger, r)
  {
    var drifts := name => Drifts(expected, ledger, name);
    var pending := name => name !in ledger;
    var built := SortedNames(expected);
    var drift, notApplied := Filter(built, drifts), Filter(built, pending);
    FilterSelects(built, expected, drifts);
    FilterSelects(built, expected, pending);
    var rows := SortedNames(ledger);
    var unexpected, acknowledged := SplitRows(rows, known, expected, ledger);
    FilterSelects(rows, ledger, name => name !in expected && Renamed(known, expected, ledger, name));
    FilterSelects(rows, ledger, name => name !in expected && !Renamed(known, expected, ledger, name));
    EmptyIffClean(known, expected, ledger, drift, unexpected);
    r := Report(drift, notApplied, acknowledged, unexpected, if drift != [] || unexpected != [] then 1 else 0);
  }

  predicate ExactlyOne(a: bool, b: bool, c: bool) { (a && !b && !c) || (!a && b && !c) || (!a && !b && c) }

  /** The verdict with this build's acknowledgements. */
  method VerifyLedger(build: Build, ledger: Ledger) returns (r: Report)
    ensures Reported(ACKNOWLEDGED_LEDGER_ROWS, Expected(build), ledger, r)
  {
    r := Verify(ACKNOWLEDGED_LEDGER_ROWS, Expected(build), ledger);
  }

  // ---------------------------------------------------------------- applying some of what is pending

  function Applied(expected: map<string, string>, ledger: Ledger, chosen: set<string>): Ledger {
    ledger + map name | name in chosen && name in expected :: expected[name]
  }

  /** After any of the pending migrations have been applied, the verdict is clean exactly when nothing had
      drifted and every other row was a pinned rename whose replacement was applied before or among them. */
  lemma VerdictAfterApplying(known: map<string, Acknowledgement>, expected: map<string, string>, ledger: Ledger,
                             chosen: set<string>)
    requires forall name :: name in chosen ==> name in expected && name !in ledger
    ensures Clean(known, expected, Applied(expected, ledger, chosen)) <==>
              && (forall name :: !Drifts(expected, ledger, name))
              && (forall name :: name in ledger && name !in expected ==>
                    && name in known && known[name].checksum == ledger[name] && known[name].replacement in expected
                    && (known[name].replacement in ledger || known[name].replacement in chosen))
  {
    var after := Applied(expected, ledger, chosen);
    assert forall name :: name in after <==> name in ledger || name in chosen;
    assert forall name :: name in ledger ==> after[name] == ledger[name];
    if Clean(known, expected, after) {
      forall name ensures !Drifts(expected, ledger, name) { if name in ledger { assert name in after; } }
      forall name | name in ledger && name !in expected ensures Renamed(known, expected, after, name) {
        assert name in after;
      }
    } else {
      var name :| name in after &&
          !(if name in expected then after[name] == expected[name] else Renamed(known, expected, after, name));
      assert name in ledger;
      assert name in expected ==> Drifts(expected, ledger, name);
    }
  }

  /** A clean verdict stays clean. */
  lemma CleanStaysClean(known: map<string, Acknowledgement>, expected: map<string, string>, ledger: Ledger,
                        chosen: set<string>)
    requires forall name :: name in chosen ==> name in expected && name !in ledger
    requires Clean(known, expected, ledger)
    ensures Clean(known, expected, Applied(expected, ledger, chosen))
  {
    VerdictAfterApplying(known, expected, ledger, chosen);
    VerdictAfterApplying(known, expected, ledger, {});
    assert Applied(expected, ledger, {}) == ledger;
  }

  // ---------------------------------------------------------------- the runner

  datatype Outcome = Done(ledger: Ledger, executed: seq<string>) | Drifted(name: string, recorded: string,
      actual: string)

  /** Same name, same source. */
  ghost predicate Coherent(build: Build) {
    forall i, j :: 0 <= i < |build| && 0 <= j < |build| && build[i].name == build[j].name ==>
        build[i].digest == build[j].digest
  }

  predicate Matches(m: map<string, string>, migration: Migration) {
    migration.name in m ==> m[migration.name] == migration.digest
  }

  ghost predicate Agrees(build: Build, ledger: Ledger) {
    Coherent(build) && forall i :: 0 <= i < |build| ==> Matches(ledger, build[i])
  }

  lemma {:induction false} ExpectedNames(build: Build)
    ensures forall name :: name in Expected(build) <==> name in Keys(build, NameOf)
  {
    if build != [] {
      ExpectedNames(build[..|build| - 1]);
    }
  }

  lemma {:induction false} ExpectedFrom(build: Build, name: string) returns (i: nat)
    requires name in Expected(build)
    ensures i < |build| && build[i] == Migration(name, Expected(build)[name])
  {
    var n := |build| - 1;
    if build[n].name == name {
      i := n;
    } else {
      i := ExpectedFrom(build[..n], name);
    }
  }

  lemma ExpectedOf(build: Build, i: nat)
    requires Coherent(build) && i < |build|
    ensures build[i].name in Expected(build) && Expected(build)[build[i].name] == build[i].digest
  {
    var name := build[i].name;
    ExpectedNames(build);
    assert NameOf(build[i]) == name && name in Keys(build, NameOf);
    var j := ExpectedFrom(build, name);
    assert build[i].name == build[j].name;
  }

  lemma ExpectedSnoc(build: Build, m: Migration)
    ensures Expected(build + [m]) == Expected(build)[m.name := m.digest]
  {
    assert (build + [m])[..|build|] == build;
  }

  /** The migrations not recorded yet, in order of first appearance. */
  function Pending(build: Build, recorded: Ledger): seq<string> {
    Filter(Keys(build, NameOf), name => name !in recorded)
  }

  /** `apply_migrations`. It succeeds exactly when the build agrees with the ledger and with itself; then every
      pending migration has been executed once, in order of first appearance, and nothing else. */
  method ApplyMigrations(build: Build, recorded: Ledger) returns (out: Outcome)
    ensures out.Done? <==> Agrees(build, recorded)
    ensures out.Done? ==> out.ledger == recorded + Expected(build)
    ensures out.Done? ==> out.executed == Pending(build, recorded)
    ensures out.Drifted? ==> exists i :: 0 <= i < |build| && StopsAt(build, recorded, i) &&
                                         build[i] == Migration(out.name, out.actual) &&
                                         HasRow(recorded + Expected(build[..i]), out.name, out.recorded)
  {
    var ledger, executed := recorded, [];
    for i := 0 to |build|
      invariant Agrees(build[..i], recorded)
      invariant ledger == recorded + Expected(build[..i])
      invariant executed == Pending(build[..i], recorded)
    {
      var migration := build[i];
      assert build[..i + 1] == build[..i] + [migration];
      OneMore(build[..i], migration, recorded);
      if migration.name in ledger && ledger[migration.name] != migration.digest {
        NotAgreed(build, recorded, i + 1);
        assert StopsAt(build, recorded, i) &&
            HasRow(recorded + Expected(build[..i]), migration.name, ledger[migration.name]);
        return Drifted(migration.name, ledger[migration.name], migration.digest);
      }
      RanOneMore(build[..i], migration, recorded);
      RecordedOneMore(build[..i], migration, recorded);
      if migration.name in ledger {
        continue;
      }
      executed := executed + [migration.name];
      ledger := ledger[migration.name := migration.digest];
    }
    assert build[..|build|] == build;
    out := Done(ledger, executed);
  }

  predicate HasRow(ledger: Ledger, name: string, checksum: string) { name in ledger && ledger[name] == checksum }

  /** Everything before `i` agrees, and `i` does not. */
  ghost predicate StopsAt(build: Build, recorded: Ledger, i: nat) {
    i < |build| && Agrees(build[..i], recorded) && !Agrees(build[..i + 1], recorded)
  }

  lemma AgreesSnoc(build: Build, m: Migration, recorded: Ledger)
    ensures Agrees(build + [m], recorded) <==>
              && Agrees(build, recorded) && Matches(recorded, m)
              && forall i :: 0 <= i < |build| && build[i].name == m.name ==> build[i].digest == m.digest
  {
    var more := build + [m];
    assert more[|build|] == m && forall i :: 0 <= i < |build| ==> more[i] == build[i];
    if Agrees(more, recorded) {
      forall i | 0 <= i < |build| && build[i].name == m.name ensures build[i].digest == m.digest {
        assert more[i].name == more[|build|].name;
      }
    }
  }

  lemma OneMore(build: Build, m: Migration, recorded: Ledger)
    requires Agrees(build, recorded)
    ensures Agrees(build + [m], recorded) <==> Matches(recorded + Expected(build), m)
  {
    AgreesSnoc(build, m, recorded);
    forall i | 0 <= i < |build| && build[i].name == m.name
        ensures m.name in Expected(build) && Expected(build)[m.name] == build[i].digest {
      ExpectedOf(build, i);
    }
    if m.name in Expected(build) {
      var j := ExpectedFrom(build, m.name);
      assert Matches(recorded, build[j]);
    } else {
      ExpectedNames(build);
      assert forall i :: 0 <= i < |build| ==> NameOf(build[i]) != m.name;
    }
  }

  lemma RanOneMore(build: Build, m: Migration, recorded: Ledger)
    ensures Pending(build + [m], recorded) ==
            Pending(build, recorded) + if m.name in recorded + Expected(build) then [] else [m.name]
  {
    assert (build + [m])[..|build|] == build;
    assert NameOf(m) == m.name;
    ExpectedNames(build);
    FilterSnoc(Keys(build, NameOf), m.name, name => name !in recorded);
  }

  lemma RecordedOneMore(build: Build, m: Migration, recorded: Ledger)
    requires Matches(recorded + Expected(build), m)
    ensures var now := recorded + Expected(build);
            recorded + Expected(build + [m]) == if m.name in now then now else now[m.name := m.digest]
  {
    ExpectedSnoc(build, m);
  }

  lemma NotAgreed(build: Build, recorded: Ledger, n: nat)
    requires n <= |build| && !Agrees(build[..n], recorded)
    ensures !Agrees(build, recorded)
  {
    var part := build[..n];
    if Coherent(part) {
      var i :| 0 <= i < |part| && !Matches(recorded, part[i]);
      assert build[i] == part[i];
    } else {
      var i, j :| 0 <= i < |part| && 0 <= j < |part| && part[i].name == part[j].name &&
          part[i].digest != part[j].digest;
      assert build[i] == part[i] && build[j] == part[j];
    }
  }

  /** Drift as the verdict sees it is drift as the runner sees it, for builds that give each name one source; for
      the others the runner always fails. */
  lemma DriftStopsTheRunner(build: Build, ledger: Ledger)
    ensures Agrees(build, ledger) <==> Coherent(build) && forall name :: !Drifts(Expected(build), ledger, name)
  {
    if Agrees(build, ledger) {
      forall name ensures !Drifts(Expected(build), ledger, name) {
        if name in Expected(build) {
          var i := ExpectedFrom(build, name);
          assert Matches(ledger, build[i]);
        }
      }
    } else if Coherent(build) {
      var i :| 0 <= i < |build| && !Matches(ledger, build[i]);
      ExpectedOf(build, i);
      assert Drifts(Expected(build), ledger, build[i].name);
    }
  }

  /** A clean verdict therefore promises a deploy exactly for coherent builds, and the deploy leaves the verdict
      clean, nothing pending, and nothing for a second deploy to execute. */
  lemma CleanMeansDeployable(known: map<string, Acknowledgement>, build: Build, ledger: Ledger)
    requires Clean(known, Expected(build), ledger)
    ensures Agrees(build, ledger) <==> Coherent(build)
    ensures var after := ledger + Expected(build);
            && Clean(known, Expected(build), after)
            && (forall name :: name in Expected(build) ==> name in after)
            && (Coherent(build) ==> Agrees(build, after))
            && Pending(build, after) == []
  {
    var expected := Expected(build);
    var after := ledger + expected;
    DriftStopsTheRunner(build, ledger);
    DriftStopsTheRunner(build, after);
    var pending := set name | name in expected && name !in ledger;
    CleanStaysClean(known, expected, ledger, pending);
    assert after == Applied(expected, ledger, pending);
    NothingLeft(build, after);
  }

  lemma NothingLeft(build: Build, after: Ledger)
    requires forall name :: name in Expected(build) ==> name in after
    ensures Pending(build, after) == []
  {
    ExpectedNames(build);
    FilterAll(Keys(build, NameOf), name => name !in after);
  }

  /** The verdict does not see a name given two sources: it reads clean, and the runner stops. */
  lemma ConflictUnseen()
    ensures var build := [Migration("1", "a"), Migration("1", "b")];
            Clean(map[], Expected(build), map[]) && !Agrees(build, map[])
  {
    var build := [Migration("1", "a"), Migration("1", "b")];
    assert build[0].name == build[1].name && build[0].digest[0] != build[1].digest[0];
  }

  // ---------------------------------------------------------------- reading a dump

  const BAR: char := '|'
  const NEWLINE: char := '\n'

  /** Text mode reads every line ending as a newline. */
  function Universal(text: string): (r: string)
    ensures '\r' !in r
    decreases |text|
  {
    if text == "" then ""
    else if text[0] != '\r' then [text[0]] + Universal(text[1..])
    else [NEWLINE] + Universal(if |text| > 1 && text[1] == NEWLINE then text[2..] else text[1..])
  }

  function RecordLine(m: map<string, string>, line: string): map<string, string> {
    var i := Text.IndexOf(line, BAR);
    if i == |line| then m else m[line[..i] := line[i + 1..]]
  }

  function RecordLines(lines: seq<string>): map<string, string> {
    if lines == [] then map[] else RecordLine(RecordLines(lines[..|lines| - 1]), lines[|lines| - 1])
  }

  /** `_ledger_from_file`. */
  function LedgerFromFile(text: string): Ledger { RecordLines(Text.Split(Universal(text), NEWLINE)) }

  function RowLine(row: Migration): string { row.name + [BAR] + row.digest }

  function RowLines(rows: seq<Migration>): seq<string> {
    seq(|rows|, i requires 0 <= i < |rows| => RowLine(rows[i]))
  }

  /** What the documented query prints: one `name|checksum` line a row, in any order. */
  function Dump(rows: seq<Migration>): string { Text.Join(RowLines(rows) + [""], [NEWLINE]) }

  ghost predicate Enumerates(rows: seq<Migration>, ledger: Ledger) {
    && (forall i, j :: 0 <= i < j < |rows| ==> rows[i].name != rows[j].name)
    && (forall name :: name in ledger <==> exists i :: 0 <= i < |rows| && rows[i].name == name)
    && (forall i :: 0 <= i < |rows| ==> rows[i].name in ledger && ledger[rows[i].name] == rows[i].digest)
  }

  predicate OneLine(s: string) { NEWLINE !in s && '\r' !in s }

  ghost predicate Dumpable(ledger: Ledger) {
    forall name :: name in ledger ==> OneLine(name) && BAR !in name && OneLine(ledger[name])
  }

  lemma {:induction false} UniversalPlain(text: string)
    requires '\r' !in text
    ensures Universal(text) == text
  {
    if text != "" {
      UniversalPlain(text[1..]);
    }
  }

  lemma {:induction false} SplitKeeps(text: string, c: char, d: char)
    requires d !in text
    ensures forall p :: p in Text.Split(text, c) ==> d !in p
    decreases |text|
  {
    var i := Text.IndexOf(text, c);
    if i < |text| {
      SplitKeeps(text[i + 1..], c, d);
    }
  }

  lemma {:induction false} RecordedDumpable(lines: seq<string>)
    requires forall p :: p in lines ==> OneLine(p)
    ensures Dumpable(RecordLines(lines))
  {
    if lines != [] {
      var line := lines[|lines| - 1];
      assert line in lines;
      RecordedDumpable(lines[..|lines| - 1]);
    }
  }

  /** Whatever the file holds, what is read from it can be dumped. */
  lemma ReadIsDumpable(text: string)
    ensures Dumpable(LedgerFromFile(text))
  {
    SplitKeeps(Universal(text), NEWLINE, '\r');
    RecordedDumpable(Text.Split(Universal(text), NEWLINE));
  }

  lemma RecordRow(m: map<string, string>, row: Migration)
    requires BAR !in row.name
    ensures RecordLine(m, RowLine(row)) == m[row.name := row.digest]
  {
    Text.IndexOfPrefix(row.name, row.digest, BAR);
    var line := RowLine(row);
    assert line[..|row.name|] == row.name && line[|row.name| + 1..] == row.digest;
  }

  lemma {:induction false} RecordRows(rows: seq<Migration>)
    requires forall i :: 0 <= i < |rows| ==> BAR !in rows[i].name
    ensures RecordLines(RowLines(rows)) == Expected(rows)
  {
    if rows != [] {
      var n := |rows| - 1;
      RecordRows(rows[..n]);
      assert RowLines(rows)[..n] == RowLines(rows[..n]);
      RecordRow(RecordLines(RowLines(rows[..n])), rows[n]);
    }
  }

  lemma EnumeratedMap(rows: seq<Migration>, ledger: Ledger)
    requires Enumerates(rows, ledger)
    ensures Expected(rows) == ledger
  {
    assert Coherent(rows);
    forall i | 0 <= i < |rows|
        ensures rows[i].name in Expected(rows) && Expected(rows)[rows[i].name] == rows[i].digest {
      ExpectedOf(rows, i);
    }
    forall name | name in Expected(rows) ensures name in ledger && Expected(rows)[name] == ledger[name] {
      var i := ExpectedFrom(rows, name);
      assert rows[i].name in ledger;
    }
  }

  lemma {:induction false} JoinKeeps(parts: seq<string>, c: char, d: char)
    requires c != d && forall p :: p in parts ==> d !in p
    ensures d !in Text.Join(parts, [c])
  {
    if |parts| > 1 {
      assert parts[0] in parts && forall p :: p in parts[1..] ==> p in parts;
      JoinKeeps(parts[1..], c, d);
    }
  }

  lemma LinesRead(rows: seq<Migration>)
    requires forall i :: 0 <= i < |rows| ==> OneLine(rows[i].name) && OneLine(rows[i].digest)
    ensures Text.Split(Universal(Dump(rows)), NEWLINE) == RowLines(rows) + [""]
  {
    var lines := RowLines(rows) + [""];
    forall p | p in lines ensures OneLine(p) {
      if p != "" { var i :| 0 <= i < |rows| && RowLines(rows)[i] == p; }
    }
    JoinKeeps(lines, NEWLINE, '\r');
    UniversalPlain(Dump(rows));
    Text.SplitJoin(lines, NEWLINE);
  }

  /** Reading a dump gives the ledger back exactly when no name holds a bar or a line ending and no checksum
      holds a line ending. */
  lemma DumpThenRead(rows: seq<Migration>, ledger: Ledger)
    requires Enumerates(rows, ledger)
    ensures LedgerFromFile(Dump(rows)) == ledger <==> Dumpable(ledger)
  {
    ReadIsDumpable(Dump(rows));
    if Dumpable(ledger) {
      LinesRead(rows);
      RecordRows(rows);
      EnumeratedMap(rows, ledger);
      var lines := RowLines(rows) + [""];
      assert lines[..|rows|] == RowLines(rows);
    }
  }

  // ---------------------------------------------------------------- any file, line by line

  /** A newline, a carriage return, or the two together. */
  predicate EndsLine(end: string, rest: string) {
    end == "\n" || end == "\r\n" || (end == "\r" && (rest == "" || rest[0] != '\n'))
  }

  lemma UniversalEnd(end: string, rest: string)
    requires EndsLine(end, rest)
    ensures Universal(end + rest) == [NEWLINE] + Universal(rest)
  {
    var text := end + rest;
    assert text[|end|..] == rest;
    if end == "\r\n" {
      assert text[0] == '\r' && text[1] == '\n';
    } else {
      assert text[0] == end[0] && (|text| > 1 ==> text[1] == rest[0]);
    }
  }

  lemma {:induction false} UniversalLine(line: string, tail: string)
    requires OneLine(line)
    ensures Universal(line + tail) == line + Universal(tail)
  {
    if line == "" {
      assert line + tail == tail;
    } else {
      assert (line + tail)[1..] == line[1..] + tail;
      UniversalLine(line[1..], tail);
      UniversalChar(line[0], line[1..] + tail);
      assert [line[0]] + (line[1..] + Universal(tail)) == line + Universal(tail);
    }
  }

  lemma UniversalChar(c: char, rest: string)
    requires c != '\r'
    ensures Universal([c] + rest) == [c] + Universal(rest)
  {
    assert ([c] + rest)[1..] == rest;
  }

  lemma OverRecord(m: map<string, string>, n: map<string, string>, line: string)
    ensures m + RecordLine(n, line) == RecordLine(m + n, line)
  {
  }

  lemma {:induction false} RecordLinesCons(line: string, lines: seq<string>)
    ensures RecordLines([line] + lines) == RecordLine(map[], line) + RecordLines(lines)
  {
    var all := [line] + lines;
    if lines == [] {
      assert all == [line] && all[..0] == [];
    } else {
      assert all[..|all| - 1] == [line] + lines[..|lines| - 1];
      RecordLinesCons(line, lines[..|lines| - 1]);
      OverRecord(RecordLine(map[], line), RecordLines(lines[..|lines| - 1]), lines[|lines| - 1]);
    }
  }

  /** The first line and then the rest. */
  lemma FirstLineRead(line: string, end: string, rest: string)
    requires OneLine(line) && EndsLine(end, rest)
    ensures LedgerFromFile(line + (end + rest)) == RecordLine(map[], line) + LedgerFromFile(rest)
  {
    UniversalLine(line, end + rest);
    UniversalEnd(end, rest);
    assert line + ([NEWLINE] + Universal(rest)) == line + [NEWLINE] + Universal(rest);
    Text.SplitAtFirst(line, Universal(rest), NEWLINE);
    RecordLinesCons(line, Text.Split(Universal(rest), NEWLINE));
  }

  lemma OnlyLineRead(line: string)
    requires OneLine(line)
    ensures LedgerFromFile(line) == RecordLine(map[], line)
  {
    UniversalPlain(line);
    LineAlone(line);
    assert [line] + [] == [line];
    RecordLinesCons(line, []);
    assert RecordLine(map[], line) + map[] == RecordLine(map[], line);
  }

  lemma LineAlone(line: string)
    requires NEWLINE !in line
    ensures Text.Split(line, NEWLINE) == [line]
  {
  }

  /** A line up to its first bar is a name, what follows the checksum; of a name on two lines the later counts. The last
      line may end with the file. */
  lemma RowRead(name: string, checksum: string, end: string, rest: string)
    requires OneLine(name) && '|' !in name && OneLine(checksum) && EndsLine(end, rest)
    ensures var line := name + "|" + checksum;
            && LedgerFromFile(line + (end + rest)) == map[name := checksum] + LedgerFromFile(rest)
            && LedgerFromFile(line) == map[name := checksum]
  {
    var line := name + "|" + checksum;
    assert RowLine(Migration(name, checksum)) == line;
    RecordRow(map[], Migration(name, checksum));
    OneLineJoined(name, checksum);
    FirstLineRead(line, end, rest);
    OnlyLineRead(line);
  }

  lemma OneLineJoined(name: string, checksum: string)
    requires OneLine(name) && OneLine(checksum)
    ensures OneLine(name + "|" + checksum)
  {
  }

  /** A line without a bar says nothing. */
  lemma OtherLineRead(line: string, end: string, rest: string)
    requires OneLine(line) && '|' !in line && EndsLine(end, rest)
    ensures LedgerFromFile(line + (end + rest)) == LedgerFromFile(rest) && LedgerFromFile(line) == map[]
  {
    FirstLineRead(line, end, rest);
    OnlyLineRead(line);
    assert RecordLine(map[], line) == map[];
    assert map[] + LedgerFromFile(rest) == LedgerFromFile(rest);
  }

  /** Entry `i` is the last of its name. */
  ghost predicate LastNamed(build: Build, i: nat, name: string) {
    i < |build| && build[i].name == name && forall j :: i < j < |build| ==> build[j].name != name
  }

  /** The build expects of a name the digest of the last entry under it. */
  lemma {:induction false} ExpectedIsLast(build: Build, name: string)
    ensures name in Expected(build) <==> exists i: nat :: LastNamed(build, i, name)
    ensures forall i: nat :: LastNamed(build, i, name) ==> Expected(build)[name] == build[i].digest
  {
    if build != [] {
      var n := |build| - 1;
      var init, last := build[..n], build[n];
      ExpectedIsLast(init, name);
      if last.name == name {
        assert LastNamed(build, n, name);
      } else {
        forall i: nat ensures LastNamed(build, i, name) <==> LastNamed(init, i, name) {
          if LastNamed(init, i, name) {
            forall j | i < j < |build| ensures build[j].name != name { assert j < n ==> build[j] == init[j]; }
          }
        }
      }
    }
  }
}
