/** First claim wins: `claim_concept`, called from any number of open transactions at once.
    Isolation is read committed, rows are never deleted, and an insert that meets another transaction's
    uncommitted row waits until that transaction ends. */
module ConceptClaims {
  import opened Options

  datatype Status = Open | Committed | Aborted

  /** Where a call of `claim_concept` stands: before its INSERT, or after a conflict, before its SELECT. */
  datatype Call = Inserting(key: string, request: string) | Selecting(key: string, request: string)

  datatype Tx = Tx(status: Status, writes: map<string, string>, call: Option<Call>)

  /** A finished call. `selected` tells the SELECT's answer from the INSERT's. */
  datatype Returned = Returned(tx: nat, key: string, request: string, result: Option<string>, selected: bool)

  datatype Db = Db(committed: map<string, string>, txs: map<nat, Tx>, log: seq<Returned>)

  datatype Event =
    | Begin(tx: nat)
    | Claim(tx: nat, key: string, request: string)
    | Insert(tx: nat)
    | Select(tx: nat)
    | Commit(tx: nat)
    | Abort(tx: nat)

  // ---------------------------------------------------------------- one statement at a time

  predicate IsOpen(db: Db, t: nat) { t in db.txs && db.txs[t].status == Open }

  /** Another open transaction has inserted this key and not ended yet. */
  predicate HeldByOther(db: Db, t: nat, key: string) {
    exists u :: u in db.txs && u != t && db.txs[u].status == Open && key in db.txs[u].writes
  }

  /** What a statement of this transaction sees: committed rows and its own. */
  function Row(db: Db, t: nat, key: string): Option<string>
    requires t in db.txs
  {
    if key in db.txs[t].writes then Some(db.txs[t].writes[key])
    else if key in db.committed then Some(db.committed[key])
    else None
  }

  function Update(db: Db, t: nat, tx: Tx): Db { db.(txs := db.txs[t := tx]) }

  function Answer(db: Db, t: nat, tx: Tx, key: string, request: string, result: Option<string>, selected: bool): Db {
    Update(db, t, tx.(call := None)).(log := db.log + [Returned(t, key, request, result, selected)])
  }

  /** INSERT ... ON CONFLICT DO NOTHING RETURNING: waits on another's row, conflicts with a visible one. */
  function ApplyInsert(db: Db, t: nat): Db
    requires IsOpen(db, t) && db.txs[t].call.Some? && db.txs[t].call.value.Inserting?
  {
    var tx := db.txs[t];
    var Inserting(key, request) := tx.call.value;
    if HeldByOther(db, t, key) then db
    else if Row(db, t, key).Some? then Update(db, t, tx.(call := Some(Selecting(key, request))))
    else Answer(db, t, tx.(writes := tx.writes[key := request]), key, request, None, false)
  }

  function ApplySelect(db: Db, t: nat): Db
    requires IsOpen(db, t) && db.txs[t].call.Some? && db.txs[t].call.value.Selecting?
  {
    var tx := db.txs[t];
    var Selecting(key, request) := tx.call.value;
    Answer(db, t, tx, key, request, Row(db, t, key), true)
  }

  function Apply(db: Db, e: Event): Db {
    match e
    case Begin(t) => if t in db.txs then db else Update(db, t, Tx(Open, map[], None))
    case Claim(t, key, request) =>
      if IsOpen(db, t) && db.txs[t].call.None?
      then Update(db, t, db.txs[t].(call := Some(Inserting(key, request)))) else db
    case Insert(t) =>
      if IsOpen(db, t) && db.txs[t].call.Some? && db.txs[t].call.value.Inserting? then ApplyInsert(db, t) else db
    case Select(t) =>
      if IsOpen(db, t) && db.txs[t].call.Some? && db.txs[t].call.value.Selecting? then ApplySelect(db, t) else db
    case Commit(t) =>
      if IsOpen(db, t) && db.txs[t].call.None?
      then Update(db, t, db.txs[t].(status := Committed)).(committed := db.committed + db.txs[t].writes) else db
    case Abort(t) =>
      if IsOpen(db, t) then Update(db, t, db.txs[t].(status := Aborted, call := None)) else db
  }

  const EMPTY := Db(map[], map[], [])

  function Run(es: seq<Event>): Db {
    if es == [] then EMPTY else Apply(Run(es[..|es| - 1]), es[|es| - 1])
  }

  // ---------------------------------------------------------------- the call as one method

  /** The table as one connection's statements meet it between two waits. */
  class ClaimTable {
    var committed: map<string, string>
    var own: map<string, string>

    constructor (rows: map<string, string>)
      ensures committed == rows && own == map[]
    {
      committed, own := rows, map[];
    }

    function Owner(key: string): Option<string>
      reads this
    {
      if key in own then Some(own[key]) else if key in committed then Some(committed[key]) else None
    }

    method InsertOnConflictDoNothing(key: string, request: string) returns (won: bool)
      modifies this`own
      ensures won <==> old(Owner(key)).None?
      ensures own == if won then old(own)[key := request] else old(own)
    {
      won := key !in own && key !in committed;
      if won { own := own[key := request]; }
    }

    /** `claim_concept`: nothing for the winner, the owner's request id for everyone else. */
    method ClaimConcept(key: string, request: string) returns (result: Option<string>)
      modifies this`own
      ensures result == old(Owner(key))
      ensures Owner(key) == Some(if result.None? then request else result.value)
      ensures forall other :: other != key ==> Owner(other) == old(Owner(other))
    {
      var won := InsertOnConflictDoNothing(key, request);
      if won { return None; }
      if key in own { return Some(own[key]); }
      if key in committed { return Some(committed[key]); }
      return None;
    }
  }

  // ---------------------------------------------------------------- what every step keeps

  /** Uncommitted rows never clash with committed ones. */
  ghost predicate Disjoint(db: Db) {
    forall t, key :: IsOpen(db, t) && key in db.txs[t].writes ==> key !in db.committed
  }

  ghost predicate Lasting(db: Db) {
    forall t, key :: t in db.txs && db.txs[t].status == Committed && key in db.txs[t].writes ==>
      key in db.committed && db.committed[key] == db.txs[t].writes[key]
  }

  /** After a conflict the row stays visible until the SELECT. */
  ghost predicate ConflictVisible(db: Db) {
    forall t :: IsOpen(db, t) && db.txs[t].call.Some? && db.txs[t].call.value.Selecting? ==>
      Row(db, t, db.txs[t].call.value.key).Some?
  }

  /** No two transactions that may last hold the same key. */
  ghost predicate OneWriter(db: Db) {
    forall t, u, key :: Holds(db, t, key) && Holds(db, u, key) ==> t == u
  }

  ghost predicate Holds(db: Db, t: nat, key: string) {
    t in db.txs && !db.txs[t].status.Aborted? && key in db.txs[t].writes
  }

  /** A winner's row is in its transaction; a loser was given the row its transaction then saw. */
  ghost predicate Truthful(db: Db, r: Returned) {
    && r.tx in db.txs
    && (r.selected <==> r.result.Some?)
    && (r.result.None? ==> r.key in db.txs[r.tx].writes && db.txs[r.tx].writes[r.key] == r.request)
    && (r.result.Some? ==>
          (r.key in db.committed && db.committed[r.key] == r.result.value) ||
          (r.key in db.txs[r.tx].writes && db.txs[r.tx].writes[r.key] == r.result.value))
  }

  ghost predicate Safe(db: Db) {
    Disjoint(db) && Lasting(db) && OneWriter(db) && ConflictVisible(db) && forall i :: 0 <= i < |db.log| ==>
        Truthful(db, db.log[i])
  }

  /** Owners stay, and rows of a transaction stay in it. */
  ghost predicate Grows(db: Db, next: Db) {
    && (forall key :: key in db.committed ==> key in next.committed && next.committed[key] == db.committed[key])
    && (forall t :: t in db.txs ==> t in next.txs)
    && (forall t, key :: t in db.txs && key in db.txs[t].writes ==>
          key in next.txs[t].writes && next.txs[t].writes[key] == db.txs[t].writes[key])
  }

  lemma GrowsStep(db: Db, e: Event)
    requires Disjoint(db)
    ensures Grows(db, Apply(db, e)) && db.log <= Apply(db, e).log
  {
  }

  lemma DisjointStep(db: Db, e: Event)
    requires Disjoint(db) && OneWriter(db)
    ensures Disjoint(Apply(db, e))
  {
    var next := Apply(db, e);
    forall t, key | IsOpen(next, t) && key in next.txs[t].writes ensures key !in next.committed {
      if e.Commit? && key in next.committed && key !in db.committed {
        assert Holds(db, t, key) && Holds(db, e.tx, key);
      }
    }
  }

  lemma OneWriterStep(db: Db, e: Event)
    requires Disjoint(db) && Lasting(db) && OneWriter(db)
    ensures OneWriter(Apply(db, e))
  {
    var next := Apply(db, e);
    forall t, u, key | Holds(next, t, key) && Holds(next, u, key) ensures t == u {
      NewWriter(db, e, t, key);
      NewWriter(db, e, u, key);
    }
  }

  /** A key is new to a transaction only if no other lasting transaction holds it. */
  lemma NewWriter(db: Db, e: Event, t: nat, key: string)
    requires Disjoint(db) && Lasting(db) && Holds(Apply(db, e), t, key)
    ensures Holds(db, t, key) || (e == Insert(t) && forall u :: u != t ==> !Holds(db, u, key))
  {
  }

  lemma LastingStep(db: Db, e: Event)
    requires Disjoint(db) && Lasting(db)
    ensures Lasting(Apply(db, e))
  {
  }

  lemma ConflictVisibleStep(db: Db, e: Event)
    requires Disjoint(db) && ConflictVisible(db)
    ensures ConflictVisible(Apply(db, e))
  {
  }

  lemma TruthfulStays(db: Db, next: Db, r: Returned)
    requires Grows(db, next) && Truthful(db, r)
    ensures Truthful(next, r)
  {
  }

  lemma SafeStep(db: Db, e: Event)
    requires Safe(db)
    ensures Safe(Apply(db, e))
  {
    var next := Apply(db, e);
    GrowsStep(db, e);
    DisjointStep(db, e);
    LastingStep(db, e);
    OneWriterStep(db, e);
    ConflictVisibleStep(db, e);
    forall i | 0 <= i < |next.log| ensures Truthful(next, next.log[i]) {
      if i < |db.log| {
        assert next.log[i] == db.log[i];
        TruthfulStays(db, next, db.log[i]);
      }
    }
  }

  lemma {:induction false} RunSafe(es: seq<Event>)
    ensures Safe(Run(es))
  {
    if es != [] {
      RunSafe(es[..|es| - 1]);
      SafeStep(Run(es[..|es| - 1]), es[|es| - 1]);
    }
  }

  // ---------------------------------------------------------------- every run

  /** A key's committed owner never changes, however the run goes on. */
  lemma {:induction false} OwnerNeverChanges(es: seq<Event>, more: seq<Event>, key: string)
    requires key in Run(es).committed
    ensures key in Run(es + more).committed && Run(es + more).committed[key] == Run(es).committed[key]
    decreases |more|
  {
    if more == [] {
      assert es + more == es;
    } else {
      var init := more[..|more| - 1];
      OwnerNeverChanges(es, init, key);
      assert (es + more)[..|es + more| - 1] == es + init;
      RunSafe(es + init);
      GrowsStep(Run(es + init), more[|more| - 1]);
    }
  }

  /** Among committed transactions each key has one winner. */
  lemma {:induction false} OneCommittedWinner(es: seq<Event>, i: nat, j: nat)
    requires i < |Run(es).log| && j < |Run(es).log|
    requires var db := Run(es);
             var a, b := db.log[i], db.log[j];
             a.key == b.key && a.result.None? && b.result.None? &&
             a.tx in db.txs && b.tx in db.txs && db.txs[a.tx].status == Committed && db.txs[b.tx].status == Committed
    ensures var db := Run(es);
            db.log[i].key in db.committed && db.committed[db.log[i].key] == db.log[i].request &&
            db.log[i].tx == db.log[j].tx && db.log[i].request == db.log[j].request
  {
    RunSafe(es);
    var db := Run(es);
    assert Truthful(db, db.log[i]) && Truthful(db, db.log[j]);
    assert Holds(db, db.log[i].tx, db.log[i].key) && Holds(db, db.log[j].tx, db.log[i].key);
  }

  /** A caller that did not win was told the request id that owns the key: for good if that row, or the
      caller's own transaction, is committed. And "nothing" always means the caller won: the SELECT's
      fallback is never reached. */
  lemma {:induction false} LoserIsToldTheOwner(es: seq<Event>, i: nat)
    requires i < |Run(es).log|
    ensures var db := Run(es);
            var r := db.log[i];
            && r.tx in db.txs
            && (r.selected <==> r.result.Some?)
            && (r.result.None? ==> r.key in db.txs[r.tx].writes && db.txs[r.tx].writes[r.key] == r.request)
            && (r.result.Some? && db.txs[r.tx].status == Committed ==>
                  r.key in db.committed && db.committed[r.key] == r.result.value)
            && (r.result.Some? && r.key !in db.txs[r.tx].writes ==>
                  r.key in db.committed && db.committed[r.key] == r.result.value)
  {
    RunSafe(es);
    assert Truthful(Run(es), Run(es).log[i]);
  }

  // ---------------------------------------------------------------- every call gets its answer

  lemma RunSnoc(es: seq<Event>, e: Event)
    ensures Run(es + [e]) == Apply(Run(es), e)
  {
    assert (es + [e])[..|es|] == es;
  }

  lemma RunTwo(es: seq<Event>, d: Event, e: Event)
    ensures Run(es + [d, e]) == Apply(Apply(Run(es), d), e)
  {
    RunSnoc(es, d);
    RunSnoc(es + [d], e);
    TwoMore(es, d, e);
  }

  lemma TwoMore(es: seq<Event>, d: Event, e: Event)
    ensures es + [d] + [e] == es + [d, e]
  {
  }

  lemma RunThree(es: seq<Event>, c: Event, d: Event, e: Event)
    ensures Run(es + [c, d, e]) == Apply(Apply(Apply(Run(es), c), d), e)
  {
    RunTwo(es, c, d);
    RunSnoc(es + [c, d], e);
    assert es + [c, d] + [e] == es + [c, d, e];
  }

  /** One more answer, to a transaction that holds these rows and waits for nothing. */
  ghost predicate Answered(db: Db, next: Db, t: nat, writes: map<string, string>, r: Returned) {
    && next.log == db.log + [r] && IsOpen(next, t) && next.txs[t] == Tx(Open, writes, None)
  }

  /** A claim nobody else stands in the way of: whoever owns the key, in the transaction or committed, is named; without
      an owner the claim wins, and the row is the transaction's. */
  lemma ClaimRuns(es: seq<Event>, t: nat, key: string, request: string)
    requires IsOpen(Run(es), t) && Run(es).txs[t].call.None? && !HeldByOther(Run(es), t, key)
    ensures var db := Run(es);
            var own := db.txs[t].writes;
            if key in own || key in db.committed then
              var owner := if key in own then own[key] else db.committed[key];
              Answered(db, Run(es + [Claim(t, key, request), Insert(t), Select(t)]), t, own,
                       Returned(t, key, request, Some(owner), true))
            else
              Answered(db, Run(es + [Claim(t, key, request), Insert(t)]), t, own[key := request],
                       Returned(t, key, request, None, false))
  {
    var db := Run(es);
    var claimed := Apply(db, Claim(t, key, request));
    RunTwo(es, Claim(t, key, request), Insert(t));
    RunThree(es, Claim(t, key, request), Insert(t), Select(t));
    assert !HeldByOther(claimed, t, key);
  }

  /** `t` has claimed the key that `u` has inserted and not committed. */
  ghost predicate WaitsFor(db: Db, t: nat, u: nat, key: string, request: string) {
    && t != u && IsOpen(db, t) && IsOpen(db, u) && db.txs[u].call.None? && key in db.txs[u].writes
    && db.txs[t].call == Some(Inserting(key, request))
  }

  /** A claim that meets another transaction's row waits; if that one commits, it is told that owner; if it aborts, the
      claim wins. */
  lemma WaiterIsAnswered(es: seq<Event>, t: nat, u: nat, key: string, request: string)
    requires WaitsFor(Run(es), t, u, key, request)
    ensures var db := Run(es);
            && Run(es + [Insert(t)]) == db
            && Answered(db, Run(es + [Commit(u), Insert(t), Select(t)]), t, db.txs[t].writes,
                        Returned(t, key, request, Some(db.txs[u].writes[key]), true))
            && Answered(db, Run(es + [Abort(u), Insert(t)]), t, db.txs[t].writes[key := request],
                        Returned(t, key, request, None, false))
  {
    RunSafe(es);
    RunSnoc(es, Insert(t));
    RunThree(es, Commit(u), Insert(t), Select(t));
    RunTwo(es, Abort(u), Insert(t));
    AfterCommit(Run(es), t, u, key, request);
    AfterAbort(Run(es), t, u, key, request);
  }

  lemma HeldByOne(db: Db, t: nat, u: nat, key: string)
    requires Safe(db) && IsOpen(db, u) && key in db.txs[u].writes && t != u
    ensures forall v :: IsOpen(db, v) && key in db.txs[v].writes ==> v == u
    ensures IsOpen(db, t) ==> key !in db.txs[t].writes
  {
    assert Holds(db, u, key);
    forall v | IsOpen(db, v) && key in db.txs[v].writes ensures v == u { assert Holds(db, v, key); }
  }

  lemma AfterCommit(db: Db, t: nat, u: nat, key: string, request: string)
    requires Safe(db) && WaitsFor(db, t, u, key, request)
    ensures Answered(db, Apply(Apply(Apply(db, Commit(u)), Insert(t)), Select(t)), t, db.txs[t].writes,
                     Returned(t, key, request, Some(db.txs[u].writes[key]), true))
  {
    HeldByOne(db, t, u, key);
    var ended := Apply(db, Commit(u));
    assert ended.txs[t] == db.txs[t] && ended.committed[key] == db.txs[u].writes[key];
    assert !HeldByOther(ended, t, key);
  }

  lemma AfterAbort(db: Db, t: nat, u: nat, key: string, request: string)
    requires Safe(db) && WaitsFor(db, t, u, key, request)
    ensures Answered(db, Apply(Apply(db, Abort(u)), Insert(t)), t, db.txs[t].writes[key := request],
                     Returned(t, key, request, None, false))
  {
    HeldByOne(db, t, u, key);
    var ended := Apply(db, Abort(u));
    assert ended.txs[t] == db.txs[t] && IsOpen(db, u) && key !in ended.committed;
    assert !HeldByOther(ended, t, key);
  }

  /** A transaction with no call under way ends as it is told to: its rows become the owners, or nobody's. */
  lemma EndsExactly(es: seq<Event>, t: nat)
    requires IsOpen(Run(es), t) && Run(es).txs[t].call.None?
    ensures var db, done, undone := Run(es), Run(es + [Commit(t)]), Run(es + [Abort(t)]);
            && done.txs[t].status == Committed && undone.txs[t].status == Aborted && undone.committed == db.committed
            && (forall key :: key in done.committed <==> key in db.committed || key in db.txs[t].writes)
            && (forall key :: key in db.txs[t].writes ==> done.committed[key] == db.txs[t].writes[key])
            && (forall key :: key in db.committed ==> done.committed[key] == db.committed[key])
            && done.log == undone.log == db.log
  {
    RunSafe(es);
    RunSnoc(es, Commit(t));
    RunSnoc(es, Abort(t));
  }
}
