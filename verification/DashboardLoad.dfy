/** The dashboard: counts, and the scope named beside them. */
module DashboardLoad {
  import opened Options
  import opened LoadHistory

  type Scope = Option<string>
  /** `D` is the dashboard payload; the dashboard has no other use than loading. */
  type Events<D> = seq<Event<Scope, D, ()>>

  datatype Screen<+D> = Screen(loadSeq: nat, dash: Option<D>, scopedSource: Scope, error: string, loading: bool)

  function Opened<D>(): Screen<D> { Screen(0, None, None, "", true) }

  function Begin<D>(s: Screen<D>): Screen<D> { s.(loadSeq := s.loadSeq + 1, loading := true, error := "") }

  function Settle<D>(s: Screen<D>, id: nat, source: Scope, answer: Answer<D>): Screen<D> {
    if id != s.loadSeq then s
    else
      match answer
      case Got(next) => s.(dash := Some(next), scopedSource := source, loading := false)
      case Failed(message, _) => s.(error := message, loading := false)
  }

  /** `load`, cut at its `await`: what runs before it, and the two ways it goes on. */
  class DashboardScreen<D(0)> {
    var loadSeq: nat
    var dash: Option<D>
    var scopedSource: Scope
    var error: string
    var loading: bool

    ghost function View(): Screen<D> reads this { Screen(loadSeq, dash, scopedSource, error, loading) }

    constructor ()
      ensures View() == Opened()
    {
      loadSeq, dash, scopedSource, error, loading := 0, None, None, "", true;
    }

    method Load() returns (id: nat)
      modifies this
      ensures View() == Begin(old(View())) && id == loadSeq
    {
      loadSeq := loadSeq + 1;
      id := loadSeq;
      loading := true;
      error := "";
    }

    method Resume(id: nat, source: Scope, answer: Answer<D>)
      modifies this
      ensures View() == Settle(old(View()), id, source, answer)
    {
      if id == loadSeq {
        match answer {
          case Got(next) =>
            dash := Some(next);
            scopedSource := source;
          case Failed(message, _) =>
            error := message;
        }
      }
      if id == loadSeq {
        loading := false;
      }
    }
  }

  /** The screen with the arguments of the loads it started, which their closures keep. */
  datatype World<+D> = World(screen: Screen<D>, requests: seq<Scope>)

  function Next<D>(w: World<D>, e: Event<Scope, D, ()>): World<D> {
    match e
    case Load(source) => World(Begin(w.screen), w.requests + [source])
    case Arrive(id, answer) =>
      if 1 <= id <= |w.requests| then w.(screen := Settle(w.screen, id, w.requests[id - 1], answer)) else w
    case Use(_) => w
  }

  function Run<D>(es: Events<D>): World<D> {
    if es == [] then World(Opened(), []) else Next(Run(es[..|es| - 1]), es[|es| - 1])
  }

  lemma {:induction false} Numbered<D>(es: Events<D>)
    ensures Run(es).requests == Loads(es) && Run(es).screen.loadSeq == |Loads(es)|
  {
    if es != [] {
      Numbered(es[..|es| - 1]);
    }
  }

  /** `loading` is false exactly when the newest load has settled, and an error message is never that of
      an earlier load. */
  lemma {:induction false} LoadingUntilSettled<D>(es: Events<D>)
    requires Possible(es)
    ensures var s := Run(es).screen;
            && (!s.loading <==> Answered(es, s.loadSeq))
            && (s.loading ==> s.error == "")
  {
    if es != [] {
      var init, last := es[..|es| - 1], es[|es| - 1];
      Shorter(es);
      LoadingUntilSettled(init);
      Numbered(init);
      Numbered(es);
      AnsweredSnoc(es, |Loads(es)|);
      if last.Load? && Answered(init, |Loads(es)|) {
        AnsweredStarted(init, |Loads(es)|);
      }
    } else {
      assert !Answered(es, 0);
    }
  }

  /** The counts and the scope beside them come from one response: the latest one that answered the
      newest load of its moment. */
  lemma {:induction false} OneResponseShown<D>(es: Events<D>)
    requires Possible(es)
    ensures var s := Run(es).screen;
            if s.dash.None? then s.scopedSource.None? && forall i: nat :: !LatestGood(es, i)
            else exists i: nat :: LatestGood(es, i) && es[i].answer.value == s.dash.value &&
                             1 <= es[i].id <= |Loads(es)| && Loads(es)[es[i].id - 1] == s.scopedSource
  {
    if es != [] {
      var n := |es| - 1;
      var init := es[..n];
      Shorter(es);
      OneResponseShown(init);
      Numbered(init);
      LoadsGrow(es, n);
      LiveInPrefix(es, n);
      if Live(es, n) && es[n].answer.Got? {
        assert LatestGood(es, n);
      } else {
        forall i: nat ensures LatestGood(es, i) <==> LatestGood(init, i) {
          SameLatest(es, i);
        }
        assert Run(es).screen.dash == Run(init).screen.dash;
      }
    }
  }

  /** Once the newest load has settled, the screen is fixed by that load: by its answer alone when it succeeded,
      and by the failure over what its arrival found when it did not. */
  lemma {:induction false} NewestDecides<D>(es: Events<D>, i: nat)
    requires Possible(es) && i < |es| && es[i].Arrive? && es[i].id == |Loads(es)|
    ensures var s, was := Run(es).screen, Run(es[..i]).screen;
            match es[i].answer
            case Got(next) => s == Screen(|Loads(es)|, Some(next), Loads(es)[|Loads(es)| - 1], "", false)
            case Failed(message, _) => s == Screen(|Loads(es)|, was.dash, was.scopedSource, message, false)
  {
    var n := |es| - 1;
    var init := es[..n];
    Shorter(es);
    Numbered(init);
    Numbered(es);
    if i == n {
      LoadingUntilSettled(init);
    } else {
      NothingLiveAfter(es, i, n);
      assert init[i] == es[i] && init[..i] == es[..i];
      NewestDecides(init, i);
    }
  }

  /** Two histories that start the same loads and get the same good answer to the newest one end on the same
      screen, whatever else arrived and in whatever order. */
  lemma OrderDoesNotMatter<D>(es: Events<D>, i: nat, fs: Events<D>, j: nat)
    requires Possible(es) && Possible(fs) && Loads(es) == Loads(fs) && i < |es| && j < |fs|
    requires es[i] == fs[j] && es[i].Arrive? && es[i].id == |Loads(es)| && es[i].answer.Got?
    ensures Run(es).screen == Run(fs).screen
  {
    NewestDecides(es, i);
    NewestDecides(fs, j);
  }

  /** A late answer to a superseded load changes nothing, then or later. */
  lemma {:induction false} LateAnswerInvisible<D>(es: Events<D>, late: Event<Scope, D, ()>, after: Events<D>)
    requires late.Arrive? && late.id < |Loads(es)|
    ensures Run(es + [late] + after) == Run(es + after)
  {
    if after == [] {
      assert es + [late] + after == es + [late] && es + after == es;
      assert (es + [late])[..|es|] == es;
      Numbered(es);
    } else {
      var n := |after| - 1;
      LateAnswerInvisible(es, late, after[..n]);
      assert (es + [late] + after)[..|es| + 1 + n] == es + [late] + after[..n];
      assert (es + after)[..|es| + n] == es + after[..n];
    }
  }
}
