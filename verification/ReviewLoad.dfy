/** The review screen: the queue, and the catalog filter kept across loads. */
module ReviewLoad {
  import opened Options
  import opened LoadHistory

  /** A queue as far as loading goes: the catalogs it names, and the rest. */
  datatype Queue<+B> = Queue(catalogs: seq<string>, body: B)

  /** Choosing a chip, or a deep link changing the handoff slug (trimmed, lower case, absent when blank). */
  datatype Action = Pick(choice: Option<string>) | Link(slug: Option<string>)

  /** A load is requested with the row limit. */
  type Events<B> = seq<Event<nat, Queue<B>, Action>>

  datatype Screen<+B> = Screen(loadSeq: nat, queue: Option<Queue<B>>, error: string, errorStatus: Option<int>,
                               loading: bool, catalog: Option<string>)

  function Opened<B>(slug: Option<string>): Screen<B> { Screen(0, None, "", None, true, slug) }

  function Begin<B>(s: Screen<B>): Screen<B> { s.(loadSeq := s.loadSeq + 1, loading := true) }

  function Kept(catalog: Option<string>, catalogs: seq<string>): Option<string> {
    if catalog.Some? && catalog.value !in catalogs then None else catalog
  }

  function Settle<B>(s: Screen<B>, id: nat, answer: Answer<Queue<B>>): Screen<B> {
    if id != s.loadSeq then s
    else
      match answer
      case Got(next) => Screen(id, Some(next), "", None, false, Kept(s.catalog, next.catalogs))
      case Failed(message, status) => Screen(id, None, message, status, false, s.catalog)
  }

  /** The chips on screen: one for all catalogs and one for each catalog of the queue shown. */
  predicate Offered<B>(s: Screen<B>, choice: Option<string>) {
    s.queue.Some? && (choice.None? || choice.value in s.queue.value.catalogs)
  }

  function Act<B>(s: Screen<B>, action: Action): Screen<B> {
    match action
    case Pick(choice) => if Offered(s, choice) then s.(catalog := choice) else s
    case Link(slug) => s.(catalog := slug)
  }

  class ReviewScreen<B(0)> {
    var loadSeq: nat
    var queue: Option<Queue<B>>
    var error: string
    var errorStatus: Option<int>
    var loading: bool
    var catalog: Option<string>

    ghost function View(): Screen<B> reads this { Screen(loadSeq, queue, error, errorStatus, loading, catalog) }

    constructor (slug: Option<string>)
      ensures View() == Opened(slug)
    {
      loadSeq, queue, error, errorStatus, loading, catalog := 0, None, "", None, true, slug;
    }

    /** `load` up to its `await`. */
    method Load() returns (id: nat)
      modifies this
      ensures View() == Begin(old(View())) && id == loadSeq
    {
      loadSeq := loadSeq + 1;
      id := loadSeq;
      loading := true;
    }

    /** `load` from its `await` on. */
    method Resume(id: nat, answer: Answer<Queue<B>>)
      modifies this
      ensures View() == Settle(old(View()), id, answer)
    {
      if id == loadSeq {
        match answer {
          case Got(next) =>
            queue := Some(next);
            error := "";
            errorStatus := None;
            if catalog.Some? && catalog.value !in next.catalogs {
              catalog := None;
            }
          case Failed(message, status) =>
            queue := None;
            error := message;
            errorStatus := status;
        }
      }
      if id == loadSeq {
        loading := false;
      }
    }
  }

  function Next<B>(s: Screen<B>, e: Event<nat, Queue<B>, Action>): Screen<B> {
    match e
    case Load(_) => Begin(s)
    case Arrive(id, answer) => Settle(s, id, answer)
    case Use(action) => Act(s, action)
  }

  function Run<B>(slug: Option<string>, es: Events<B>): Screen<B> {
    if es == [] then Opened(slug) else Next(Run(slug, es[..|es| - 1]), es[|es| - 1])
  }

  lemma {:induction false} Numbered<B>(slug: Option<string>, es: Events<B>)
    ensures Run(slug, es).loadSeq == |Loads(es)|
  {
    if es != [] {
      Numbered(slug, es[..|es| - 1]);
    }
  }

  /** `loading` is false exactly when the newest load has settled. */
  lemma {:induction false} LoadingUntilSettled<B>(slug: Option<string>, es: Events<B>)
    requires Possible(es)
    ensures var s := Run(slug, es); !s.loading <==> Answered(es, s.loadSeq)
  {
    if es != [] {
      var init, last := es[..|es| - 1], es[|es| - 1];
      Shorter(es);
      LoadingUntilSettled(slug, init);
      Numbered(slug, init);
      Numbered(slug, es);
      AnsweredSnoc(es, |Loads(es)|);
      if last.Load? && Answered(init, |Loads(es)|) {
        AnsweredStarted(init, |Loads(es)|);
      }
    } else {
      assert !Answered(es, 0);
    }
  }

  /** Once the newest load has settled, the queue or the failure shown is that load's answer, whatever else
      arrived, in whatever order, and whatever the user did with the filter. */
  lemma {:induction false} NewestDecides<B>(slug: Option<string>, es: Events<B>, i: nat)
    requires Possible(es) && i < |es| && es[i].Arrive? && es[i].id == |Loads(es)|
    ensures var s := Run(slug, es);
            match es[i].answer
            case Got(next) => s == Screen(|Loads(es)|, Some(next), "", None, false, s.catalog)
            case Failed(message, status) => s == Screen(|Loads(es)|, None, message, status, false, s.catalog)
  {
    var n := |es| - 1;
    var init := es[..n];
    Shorter(es);
    Numbered(slug, init);
    if i < n {
      NothingLiveAfter(es, i, n);
      assert init[i] == es[i] && init[..i] == es[..i];
      NewestDecides(slug, init, i);
    }
  }

  /** A late answer to a superseded load changes nothing, the filter included, then or later. */
  lemma {:induction false} LateAnswerInvisible<B>(slug: Option<string>, es: Events<B>, late: Event<nat, Queue<B>,
                                                  Action>, after: Events<B>)
    requires late.Arrive? && late.id < |Loads(es)|
    ensures Run(slug, es + [late] + after) == Run(slug, es + after)
  {
    if after == [] {
      assert es + [late] + after == es + [late] && es + after == es;
      assert (es + [late])[..|es|] == es;
      Numbered(slug, es);
    } else {
      var n := |after| - 1;
      LateAnswerInvisible(slug, es, late, after[..n]);
      assert (es + [late] + after)[..|es| + 1 + n] == es + [late] + after[..n];
      assert (es + after)[..|es| + n] == es + after[..n];
    }
  }

  // ---------------------------------------------------------------- the filter

  /** The filter names a catalog the queue shown does not have: no chip is on. */
  predicate Stranded<B>(s: Screen<B>) {
    s.queue.Some? && s.catalog.Some? && s.catalog.value !in s.queue.value.catalogs
  }

  /** A deep link arriving over a queue that does not name its catalog. */
  predicate Strands<B>(s: Screen<B>, e: Event<nat, Queue<B>, Action>) {
    e.Use? && e.action.Link? && s.queue.Some? && e.action.slug.Some? && e.action.slug.value !in s.queue.value.catalogs
  }

  /** Another link, a chip, or an answer to the newest load. */
  predicate SetsFilter<B>(s: Screen<B>, e: Event<nat, Queue<B>, Action>) {
    || (e.Arrive? && e.id == s.loadSeq)
    || (e.Use? && (e.action.Link? || Offered(s, e.action.choice)))
  }

  lemma StrandedStep<B>(s: Screen<B>, e: Event<nat, Queue<B>, Action>)
    ensures Stranded(Next(s, e)) <==> Strands(s, e) || (Stranded(s) && !SetsFilter(s, e))
  {
  }

  ghost predicate StrandedBy<B>(slug: Option<string>, es: Events<B>, i: nat) {
    && i < |es| && Strands(Run(slug, es[..i]), es[i])
    && forall j :: i < j < |es| ==> !SetsFilter(Run(slug, es[..j]), es[j])
  }

  lemma StrandedByLast<B>(slug: Option<string>, es: Events<B>, i: nat)
    requires es != []
    ensures var n := |es| - 1;
            StrandedBy(slug, es, i) <==>
              if i == n then Strands(Run(slug, es[..n]), es[n])
              else StrandedBy(slug, es[..n], i) && !SetsFilter(Run(slug, es[..n]), es[n])
  {
    var n := |es| - 1;
    forall j | 0 <= j < n ensures es[..n][..j] == es[..j] { }
    if i < n {
      assert es[..n][i] == es[i] && es[..n][..i] == es[..i];
      if StrandedBy(slug, es, i) {
        forall j | i < j < n ensures !SetsFilter(Run(slug, es[..n][..j]), es[..n][j]) {
          assert es[..n][..j] == es[..j];
        }
      }
      if StrandedBy(slug, es[..n], i) && !SetsFilter(Run(slug, es[..n]), es[n]) {
        forall j | i < j < |es| ensures !SetsFilter(Run(slug, es[..j]), es[j]) {
          if j < n { assert es[..n][..j] == es[..j] && es[..n][j] == es[j]; }
        }
      }
    }
  }

  /** The filter strands exactly when a deep link changed the slug over a loaded queue that lacks it and nothing
      has set the filter since; every other history, the first handoff included, ends on a filter the queue has. */
  lemma {:induction false} StrandedExactly<B>(slug: Option<string>, es: Events<B>)
    ensures Stranded(Run(slug, es)) <==> exists i: nat :: StrandedBy(slug, es, i)
  {
    if es != [] {
      var n := |es| - 1;
      StrandedExactly(slug, es[..n]);
      StrandedStep(Run(slug, es[..n]), es[n]);
      forall i: nat ensures StrandedBy(slug, es, i) <==>
        if i == n then Strands(Run(slug, es[..n]), es[n])
        else StrandedBy(slug, es[..n], i) && !SetsFilter(Run(slug, es[..n]), es[n])
      {
        StrandedByLast(slug, es, i);
      }
      if Strands(Run(slug, es[..n]), es[n]) {
        assert StrandedBy(slug, es, n);
      }
    }
  }

  /** Such a history: a queue of one catalog is loaded, then a link names another. */
  lemma LinkStrands(slug: Option<string>)
    ensures var es: Events<int> := [Load(100), Arrive(1, Got(Queue(["a"], 0))), Use(Link(Some("b")))];
            && Possible(es) && Stranded(Run(slug, es))
            && Run(slug, es).queue == Some(Queue(["a"], 0)) && Run(slug, es).catalog == Some("b")
  {
    var es: Events<int> := [Load(100), Arrive(1, Got(Queue(["a"], 0))), Use(Link(Some("b")))];
    assert es[..2] == [es[0], es[1]] && es[..1] == [es[0]] && [es[0], es[1]][..1] == [es[0]];
    assert Loads(es[..1]) == [100];
    assert Run(slug, es[..1]).loadSeq == 1;
    assert Run(slug, es[..2]).queue == Some(Queue(["a"], 0));
    assert "a"[0] != "b"[0];
  }

  // ---------------------------------------------------------------- what is shown, at any moment

  /** The last answer that was to the newest load of its moment. */
  ghost predicate LastLive<B>(es: Events<B>, i: nat) {
    i < |es| && Live(es, i) && forall j :: i < j < |es| ==> !Live(es, j)
  }

  ghost predicate Shows<B>(s: Screen<B>, answer: Answer<Queue<B>>) {
    match answer
    case Got(next) => s.queue == Some(next) && s.error == "" && s.errorStatus == None
    case Failed(message, status) => s.queue == None && s.error == message && s.errorStatus == status
  }

  lemma LastLiveSnoc<B>(es: Events<B>, i: nat)
    requires es != []
    ensures var n := |es| - 1;
            LastLive(es, i) <==> if Live(es, n) then i == n else LastLive(es[..n], i)
  {
    LiveInPrefix(es, |es| - 1);
  }

  /** In every history the screen shows the last answer that was to the newest load of its moment: starting another load
      takes nothing away, and before the first such answer nothing is shown. */
  lemma {:induction false} LastLiveShown<B>(slug: Option<string>, es: Events<B>)
    ensures var s := Run(slug, es);
            && (forall i: nat :: LastLive(es, i) ==> Shows(s, es[i].answer))
            && ((forall i: nat :: !LastLive(es, i)) ==> s.queue == None && s.error == "" && s.errorStatus == None)
  {
    if es != [] {
      var n := |es| - 1;
      LastLiveShown(slug, es[..n]);
      Numbered(slug, es[..n]);
      forall i: nat ensures LastLive(es, i) <==> if Live(es, n) then i == n else LastLive(es[..n], i) {
        LastLiveSnoc(es, i);
      }
      if Live(es, n) {
        assert LastLive(es, n);
      } else {
        ShownStays(Run(slug, es[..n]), es[n]);
      }
    }
  }

  lemma ShownStays<B>(s: Screen<B>, e: Event<nat, Queue<B>, Action>)
    requires !(e.Arrive? && e.id == s.loadSeq)
    ensures var next := Next(s, e); next.queue == s.queue && next.error == s.error && next.errorStatus == s.errorStatus
  {
  }

  /** What an event makes the filter say, if it says anything of it: a link its slug; a chip on screen its choice; a
      queue that does not name the filter's catalog, all catalogs. */
  ghost predicate MakesFilter<B>(s: Screen<B>, e: Event<nat, Queue<B>, Action>, catalog: Option<string>) {
    match e
    case Load(_) => false
    case Use(Link(slug)) => catalog == slug
    case Use(Pick(choice)) =>
      catalog == choice && s.queue.Some? && (choice.Some? ==> choice.value in s.queue.value.catalogs)
    case Arrive(id, answer) =>
      && catalog == None && id == s.loadSeq && answer.Got?
      && s.catalog.Some? && s.catalog.value !in answer.value.catalogs
  }

  ghost predicate LastMade<B>(slug: Option<string>, es: Events<B>, i: nat, catalog: Option<string>) {
    && i < |es| && MakesFilter(Run(slug, es[..i]), es[i], catalog)
    && forall j, other :: i < j < |es| ==> !MakesFilter(Run(slug, es[..j]), es[j], other)
  }

  lemma MakesFilterStep<B>(s: Screen<B>, e: Event<nat, Queue<B>, Action>)
    ensures var next := Next(s, e).catalog;
            MakesFilter(s, e, next) || (next == s.catalog && forall catalog :: !MakesFilter(s, e, catalog))
  {
  }

  lemma LastMadeGrows<B>(slug: Option<string>, init: Events<B>, e: Event<nat, Queue<B>, Action>, i: nat,
                         catalog: Option<string>)
    requires LastMade(slug, init, i, catalog) && forall other :: !MakesFilter(Run(slug, init), e, other)
    ensures LastMade(slug, init + [e], i, catalog)
  {
    var es := init + [e];
    forall j | 0 <= j <= |init| ensures es[..j] == init[..j] {}
    assert init[..|init|] == init;
    forall j, other | i < j < |es| ensures !MakesFilter(Run(slug, es[..j]), es[j], other) {
      if j < |init| { assert es[j] == init[j] && !MakesFilter(Run(slug, init[..j]), init[j], other); }
    }
  }

  /** The filter is what the last such event made it, or the first handoff's catalog. */
  lemma {:induction false} FilterExactly<B>(slug: Option<string>, es: Events<B>)
    ensures var catalog := Run(slug, es).catalog;
            || (exists i: nat :: LastMade(slug, es, i, catalog))
            || (catalog == slug && forall i, other :: 0 <= i < |es| ==> !MakesFilter(Run(slug, es[..i]), es[i], other))
  {
    if es != [] {
      var n := |es| - 1;
      var init, last := es[..n], es[n];
      FilterExactly(slug, init);
      MakesFilterStep(Run(slug, init), last);
      if MakesFilter(Run(slug, init), last, Run(slug, es).catalog) {
        assert LastMade(slug, es, n, Run(slug, es).catalog);
      } else if i: nat :| LastMade(slug, init, i, Run(slug, init).catalog) {
        LastMadeGrows(slug, init, last, i, Run(slug, init).catalog);
        assert init + [last] == es;
      } else {
        forall i, other | 0 <= i < |es| ensures !MakesFilter(Run(slug, es[..i]), es[i], other) {
          if i < n { assert init[..i] == es[..i] && init[i] == es[i]; }
        }
      }
    }
  }
}
