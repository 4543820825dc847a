/** The histories the two governance screens live through: loads started, answers arriving in any order. */
module LoadHistory {
  import opened Options

  datatype Answer<+T> = Got(value: T) | Failed(message: string, status: Option<int>)

  /** Loads are numbered from 1 in the order they start. `Use` is anything else the user does. */
  datatype Event<+R, +T, +U> = Load(request: R) | Arrive(id: nat, answer: Answer<T>) | Use(action: U)

  /** The requests of the loads started, in order. */
  function Loads<R, T, U>(es: seq<Event<R, T, U>>): seq<R> {
    if es == [] then []
    else
      var last := es[|es| - 1];
      Loads(es[..|es| - 1]) + if last.Load? then [last.request] else []
  }

  predicate Answered<R, T, U>(es: seq<Event<R, T, U>>, id: nat) {
    exists i :: 0 <= i < |es| && es[i].Arrive? && es[i].id == id
  }

  /** Only a load that has started is answered, and only once; nothing is said about the order. */
  predicate Possible<R, T, U>(es: seq<Event<R, T, U>>) {
    forall i :: 0 <= i < |es| && es[i].Arrive? ==>
      1 <= es[i].id <= |Loads(es[..i])| && !Answered(es[..i], es[i].id)
  }

  /** The answer at `i` is to the newest load of that moment. */
  predicate Live<R, T, U>(es: seq<Event<R, T, U>>, i: nat)
    requires i < |es|
  {
    es[i].Arrive? && es[i].id == |Loads(es[..i])|
  }

  lemma Shorter<R, T, U>(es: seq<Event<R, T, U>>)
    requires es != [] && Possible(es)
    ensures Possible(es[..|es| - 1])
  {
    var init := es[..|es| - 1];
    forall i | 0 <= i < |init| && init[i].Arrive?
      ensures 1 <= init[i].id <= |Loads(init[..i])| && !Answered(init[..i], init[i].id)
    {
      assert init[..i] == es[..i] && es[i] == init[i];
    }
  }

  lemma {:induction false} LoadsGrow<R, T, U>(es: seq<Event<R, T, U>>, i: nat)
    requires i <= |es|
    ensures Loads(es[..i]) <= Loads(es)
  {
    if i < |es| {
      var init := es[..|es| - 1];
      LoadsGrow(init, i);
      assert init[..i] == es[..i];
    } else {
      assert es[..i] == es;
    }
  }

  lemma AnsweredStarted<R, T, U>(es: seq<Event<R, T, U>>, id: nat)
    requires Possible(es) && Answered(es, id)
    ensures 1 <= id <= |Loads(es)|
  {
    var i :| 0 <= i < |es| && es[i].Arrive? && es[i].id == id;
    LoadsGrow(es, i);
  }

  lemma AnsweredSnoc<R, T, U>(es: seq<Event<R, T, U>>, id: nat)
    requires es != []
    ensures var last := es[|es| - 1];
            Answered(es, id) <==> Answered(es[..|es| - 1], id) || (last.Arrive? && last.id == id)
  {
    var init := es[..|es| - 1];
    if Answered(es, id) {
      var i :| 0 <= i < |es| && es[i].Arrive? && es[i].id == id;
      assert i < |init| ==> init[i] == es[i];
    }
  }

  lemma LoadsBetween<R, T, U>(es: seq<Event<R, T, U>>, i: nat, j: nat)
    requires i <= j <= |es|
    ensures Loads(es[..i]) <= Loads(es[..j]) <= Loads(es)
  {
    LoadsGrow(es, j);
    LoadsGrow(es[..j], i);
    assert es[..j][..i] == es[..i];
  }

  lemma AnsweredBefore<R, T, U>(es: seq<Event<R, T, U>>, i: nat, j: nat)
    requires i < j <= |es| && es[i].Arrive?
    ensures Answered(es[..j], es[i].id)
  {
    assert es[..j][i] == es[i];
  }

  lemma NewestStays<R, T, U>(es: seq<Event<R, T, U>>, i: nat, j: nat)
    requires i < j < |es| && |Loads(es)| <= |Loads(es[..i])|
    ensures |Loads(es[..j])| == |Loads(es)| && !es[j].Load?
  {
    LoadsBetween(es, i, j);
    LoadsBetween(es, j, j + 1);
    assert es[..j + 1][..j] == es[..j] && es[..j + 1][j] == es[j];
  }

  lemma AnsweredOnce<R, T, U>(es: seq<Event<R, T, U>>, i: nat, j: nat)
    requires Possible(es) && i < j < |es| && es[i].Arrive? && es[j].Arrive?
    ensures es[i].id != es[j].id
  {
    AnsweredBefore(es, i, j);
  }

  /** The newest load's answer is the last live one: nothing after it starts a load or is live. */
  lemma NothingLiveAfter<R, T, U>(es: seq<Event<R, T, U>>, i: nat, j: nat)
    requires Possible(es) && i < j < |es|
    requires es[i].Arrive? && es[i].id == |Loads(es)|
    ensures !es[j].Load? && !Live(es, j)
  {
    NewestStays(es, i, j);
    if es[j].Arrive? { AnsweredOnce(es, i, j); }
  }

  /** The latest live answer that satisfies `Got?`, if any. */
  ghost predicate LatestGood<R, T, U>(es: seq<Event<R, T, U>>, i: nat) {
    && i < |es| && Live(es, i) && es[i].answer.Got?
    && forall j :: i < j < |es| && Live(es, j) ==> es[j].answer.Failed?
  }

  lemma LiveInPrefix<R, T, U>(es: seq<Event<R, T, U>>, n: nat)
    requires n <= |es|
    ensures forall i :: 0 <= i < n ==> (Live(es[..n], i) <==> Live(es, i))
  {
    forall i | 0 <= i < n ensures Live(es[..n], i) <==> Live(es, i) {
      assert es[..n][..i] == es[..i];
    }
  }

  lemma SameLatest<R, T, U>(es: seq<Event<R, T, U>>, i: nat)
    requires es != [] && !(Live(es, |es| - 1) && es[|es| - 1].answer.Got?)
    ensures LatestGood(es, i) <==> LatestGood(es[..|es| - 1], i)
  {
    var n := |es| - 1;
    LiveInPrefix(es, n);
    if LatestGood(es, i) {
      forall j | i < j < n && Live(es[..n], j) ensures es[..n][j].answer.Failed? { assert Live(es, j); }
    }
    if LatestGood(es[..n], i) {
      forall j | i < j < |es| && Live(es, j) ensures es[j].answer.Failed? {
        if j < n { assert Live(es[..n], j) && es[..n][j] == es[j]; }
      }
    }
  }

  /** Later live answers belong to later loads: what is shown never goes back to an older load. */
  lemma LiveIdsAscend<R, T, U>(es: seq<Event<R, T, U>>, i: nat, j: nat)
    requires Possible(es) && i < j < |es| && Live(es, i) && Live(es, j)
    ensures es[i].id < es[j].id
  {
    LoadsBetween(es, i, j);
    AnsweredOnce(es, i, j);
  }
}
