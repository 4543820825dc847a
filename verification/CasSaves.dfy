/** What the editors write: every revision saved from a form holds what was typed into it as "Save" was clicked. */
module CasSaves {
  import opened Options
  import opened Text
  import opened CasEditing

  // ---------------------------------------------------------------- a document says what a draft says

  /** The text without surrounding white space, or nothing if that leaves nothing. */
  ghost predicate SaysText(field: Option<string>, text: string) {
    field == if Trim(text) == "" then None else Some(Trim(text))
  }

  /** The list has, in order, the lines at these places of the text, trimmed, and all the others are blank. */
  ghost predicate LinesAt(list: seq<string>, text: string, lines: seq<string>, places: seq<nat>) {
    && lines != [] && Join(lines, "\n") == text && (forall line :: line in lines ==> '\n' !in line)
    && |places| == |list| && (forall a, b :: 0 <= a < b < |places| ==> places[a] < places[b])
    && (forall a :: 0 <= a < |places| ==>
          places[a] < |lines| && list[a] == Trim(lines[places[a]]) && list[a] != "")
    && (forall n :: 0 <= n < |lines| && n !in places ==> Trim(lines[n]) == "")
  }

  ghost predicate SaysLines(list: seq<string>, text: string) {
    exists lines, places :: LinesAt(list, text, lines, places)
  }

  /** Field by field, the document says what the form says; the domains are those of the revision in view, and a row
      policy has no tie-breaks. */
  ghost predicate Says(doc: Doc, draft: Draft, view: View) {
    match draft
    case NarrativeDraft(nameText, descriptionText, contextText) =>
      && doc.NarrativeDoc?
      && SaysText(doc.name, nameText) && SaysText(doc.description, descriptionText)
      && SaysText(doc.context, contextText)
      && doc.domains == (if view.doc.Some? && view.doc.value.NarrativeDoc? then view.doc.value.domains else [])
    case TemporalDraft(modelChoice, currentChoice, historicalChoice, refTexts) =>
      && doc.TemporalDoc?
      && doc.model == modelChoice && doc.current == currentChoice && doc.historical == historicalChoice
      && |doc.refs| == |refTexts| && (forall n :: 0 <= n < |refTexts| ==> SaysText(doc.refs[n], refTexts[n]))
      && doc.tieBreaks == []
    case ServingDraft(eligibleText, preferredText) =>
      doc.ServingDoc? && SaysLines(doc.eligible, eligibleText) && SaysLines(doc.preferred, preferredText)
  }

  /** The places, from `n` on, of the parts that are kept, in order; the other parts from there on are empty. */
  ghost predicate Places(parts: seq<string>, n: nat, kept: seq<string>, places: seq<nat>) {
    && |places| == |kept| && (forall a, b :: 0 <= a < b < |places| ==> places[a] < places[b])
    && (forall a :: 0 <= a < |places| ==> n <= places[a] < |parts| && kept[a] == parts[places[a]] != "")
    && (forall m :: n <= m < |parts| && m !in places ==> parts[m] == "")
  }

  lemma NonEmptyStep(parts: seq<string>, n: nat)
    requires n < |parts|
    ensures NonEmpty(parts[n..]) ==
            if parts[n] == "" then NonEmpty(parts[n + 1..]) else [parts[n]] + NonEmpty(parts[n + 1..])
  {
    assert parts[n..][1..] == parts[n + 1..];
    assert [] + NonEmpty(parts[n + 1..]) == NonEmpty(parts[n + 1..]);
  }

  lemma {:induction false} NonEmptyPlaces(parts: seq<string>, n: nat) returns (places: seq<nat>)
    requires n <= |parts|
    ensures Places(parts, n, NonEmpty(parts[n..]), places)
    decreases |parts| - n
  {
    places := [];
    if n < |parts| {
      places := NonEmptyPlaces(parts, n + 1);
      NonEmptyStep(parts, n);
      if parts[n] != "" {
        PlacesKeep(parts, n, NonEmpty(parts[n + 1..]), places);
        places := [n] + places;
      }
    }
  }

  lemma PlacesKeep(parts: seq<string>, n: nat, kept: seq<string>, rest: seq<nat>)
    requires n < |parts| && parts[n] != "" && Places(parts, n + 1, kept, rest)
    ensures Places(parts, n, [parts[n]] + kept, [n] + rest)
  {
    var places := [n] + rest;
    assert places[0] == n && forall m :: m in rest ==> m in places;
  }

  lemma LinesSay(text: string)
    ensures SaysLines(Lines(text), text)
  {
    var lines := Split(text, '\n');
    JoinSplit(text, '\n');
    var places := NonEmptyPlaces(TrimAll(lines), 0);
    assert TrimAll(lines)[0..] == TrimAll(lines);
    assert LinesAt(Lines(text), text, lines, places);
  }

  /** What is sent says what the form says. */
  lemma BuildSays(draft: Draft, view: View)
    ensures Says(Build(draft, view), draft, view)
  {
    if draft.ServingDraft? {
      LinesSay(draft.eligibleText);
      LinesSay(draft.preferredText);
    }
  }

  // ---------------------------------------------------------------- every revision was typed

  /** The editor whose "Save" is clicked has this view and this key, is free, and its form says the document. */
  ghost predicate SavesFrom(e: Editor, key: string, view: View, doc: Doc) {
    && e.view == Some(view) && e.key == key && !e.busy && !e.absent && (e.kind.Serving? || e.editing)
    && SameForm(e.kind, e.draft) && Says(doc, e.draft, view)
    && (e.draft.TemporalDraft? ==> e.draft.modelChoice != "")
  }

  /** Event `k` of the run is the click in editor `i` that sent this document under this key. */
  ghost predicate ClickedAt(w: World, es: seq<Event>, i: nat, k: nat, key: string, view: View, doc: Doc) {
    && k < |es| && es[k] == At(i, SaveClick) && i < |RunFrom(w, es[..k]).clients|
    && SavesFrom(RunFrom(w, es[..k]).clients[i].editor, key, view, doc)
  }

  ghost predicate Clicked(w: World, es: seq<Event>, i: nat, key: string, view: View, doc: Doc) {
    exists k: nat :: ClickedAt(w, es, i, k, key, view, doc)
  }

  ghost predicate SavesClicked(w: World, es: seq<Event>, i: nat, c: Client) {
    forall id :: id in c.calls && c.calls[id].Saving? ==>
      Clicked(w, es, i, c.calls[id].key, c.calls[id].view, c.calls[id].doc)
  }

  ghost predicate RevsClicked(w: World, es: seq<Event>, server: map<string, seq<Rev>>) {
    forall key, n :: 0 <= n < |Revisions(server, key)| && Revisions(server, key)[n].author.Some? ==>
      RevClicked(w, es, key, Revisions(server, key)[n])
  }

  ghost predicate RevClicked(w: World, es: seq<Event>, key: string, rev: Rev)
    requires rev.author.Some?
  {
    exists i: nat :: Clicked(w, es, i, key, rev.author.value, rev.doc)
  }

  lemma ClickedStays(w: World, es: seq<Event>, e: Event, i: nat, key: string, view: View, doc: Doc)
    requires Clicked(w, es, i, key, view, doc)
    ensures Clicked(w, es + [e], i, key, view, doc)
  {
    var k: nat :| ClickedAt(w, es, i, k, key, view, doc);
    assert (es + [e])[..k] == es[..k];
    assert ClickedAt(w, es + [e], i, k, key, view, doc);
  }

  /** The click that sends a save. */
  lemma ClickSends(w: World, es: seq<Event>, i: nat)
    requires i < |RunFrom(w, es).clients| && SameForm(RunFrom(w, es).clients[i].editor.kind,
                                                      RunFrom(w, es).clients[i].editor.draft)
    requires RunFrom(w, es).clients[i].editor.CanSave()
    ensures var e := RunFrom(w, es).clients[i].editor;
            Clicked(w, es + [At(i, SaveClick)], i, e.key, e.view.value, Build(e.draft, e.view.value))
  {
    var e := RunFrom(w, es).clients[i].editor;
    BuildSays(e.draft, e.view.value);
    assert (es + [At(i, SaveClick)])[..|es|] == es;
    assert ClickedAt(w, es + [At(i, SaveClick)], i, |es|, e.key, e.view.value, Build(e.draft, e.view.value));
  }

  /** A save under way was under way before, or this event is its click. */
  lemma SavingStep(c: Client, a: Action, id: nat)
    requires id in Act(c, a).calls && Act(c, a).calls[id].Saving?
    ensures var call := Act(c, a).calls[id];
            || (id in c.calls && c.calls[id] == call)
            || (a == SaveClick && c.editor.CanSave() && call.key == c.editor.key && call.view == c.editor.view.value
                && call.doc == Build(c.editor.draft, call.view))
  {
  }

  lemma ActClicked(w: World, es: seq<Event>, i: nat, a: Action)
    requires i < |RunFrom(w, es).clients| && !a.Handle?
    requires SameForm(RunFrom(w, es).clients[i].editor.kind, RunFrom(w, es).clients[i].editor.draft)
    requires SavesClicked(w, es, i, RunFrom(w, es).clients[i])
    ensures SavesClicked(w, es + [At(i, a)], i, Act(RunFrom(w, es).clients[i], a))
  {
    var c := RunFrom(w, es).clients[i];
    var next := Act(c, a);
    forall id | id in next.calls && next.calls[id].Saving?
      ensures Clicked(w, es + [At(i, a)], i, next.calls[id].key, next.calls[id].view, next.calls[id].doc)
    {
      SavingStep(c, a, id);
      if id in c.calls && c.calls[id] == next.calls[id] {
        ClickedStays(w, es, At(i, a), i, c.calls[id].key, c.calls[id].view, c.calls[id].doc);
      } else {
        ClickSends(w, es, i);
      }
    }
  }

  lemma SavesClickedStay(w: World, es: seq<Event>, e: Event, i: nat, c: Client)
    requires SavesClicked(w, es, i, c)
    ensures SavesClicked(w, es + [e], i, c)
  {
    forall id | id in c.calls && c.calls[id].Saving?
      ensures Clicked(w, es + [e], i, c.calls[id].key, c.calls[id].view, c.calls[id].doc)
    {
      ClickedStays(w, es, e, i, c.calls[id].key, c.calls[id].view, c.calls[id].doc);
    }
  }

  lemma RevsClickedStay(w: World, es: seq<Event>, e: Event, server: map<string, seq<Rev>>)
    requires RevsClicked(w, es, server)
    ensures RevsClicked(w, es + [e], server)
  {
    forall key, n | 0 <= n < |Revisions(server, key)| && Revisions(server, key)[n].author.Some?
      ensures RevClicked(w, es + [e], key, Revisions(server, key)[n])
    {
      var rev := Revisions(server, key)[n];
      assert RevClicked(w, es, key, rev);
      var i: nat :| Clicked(w, es, i, key, rev.author.value, rev.doc);
      ClickedStays(w, es, e, i, key, rev.author.value, rev.doc);
    }
  }

  lemma AppendClicked(w: World, es: seq<Event>, server: map<string, seq<Rev>>, key: string, rev: Rev)
    requires RevsClicked(w, es, server)
    requires rev.author.Some? ==> RevClicked(w, es, key, rev)
    ensures RevsClicked(w, es, Append(server, key, rev))
  {
    var later := Append(server, key, rev);
    forall k, n | 0 <= n < |Revisions(later, k)| && Revisions(later, k)[n].author.Some?
      ensures RevClicked(w, es, k, Revisions(later, k)[n])
    {
      if n < |Revisions(server, k)| {
        assert Revisions(later, k)[n] == Revisions(server, k)[n];
      } else {
        assert k == key && Revisions(later, k)[n] == rev;
      }
    }
  }

  ghost predicate AllClicked(w: World, es: seq<Event>, now: World) {
    && RevsClicked(w, es, now.server)
    && forall i :: 0 <= i < |now.clients| ==> SavesClicked(w, es, i, now.clients[i])
  }

  lemma AllClickedStays(w: World, es: seq<Event>, e: Event, now: World)
    requires AllClicked(w, es, now)
    ensures AllClicked(w, es + [e], now)
  {
    RevsClickedStay(w, es, e, now.server);
    forall i | 0 <= i < |now.clients| ensures SavesClicked(w, es + [e], i, now.clients[i]) {
      SavesClickedStay(w, es, e, i, now.clients[i]);
    }
  }

  lemma HandleClicked(w: World, es: seq<Event>, now: World, i: nat, id: nat, governed: Option<string>,
                      refused: Option<bool>)
    requires AllClicked(w, es, now) && i < |now.clients|
    ensures AllClicked(w, es, HandleCall(now, i, id, governed, refused))
  {
    var c := now.clients[i];
    assert SavesClicked(w, es, i, c);
    if id in c.calls && c.calls[id].reply.None? {
      var call := c.calls[id];
      var next := HandleCall(now, i, id, governed, refused);
      assert SavesClicked(w, es, i, next.clients[i]);
      if Answer(now.server, call, governed, refused).Accepted? {
        assert Clicked(w, es, i, call.key, call.view, call.doc);
        AppendClicked(w, es, now.server, call.key, Rev(call.doc, Some(call.view)));
      }
    }
  }

  lemma ClickedStep(w: World, es: seq<Event>, e: Event)
    requires Initial(w) && AllClicked(w, es, RunFrom(w, es))
    ensures AllClicked(w, es + [e], Apply(RunFrom(w, es), e))
  {
    var now := RunFrom(w, es);
    AllClickedStays(w, es, e, now);
    match e
    case Ingest(key, doc) => AppendClicked(w, es + [e], now.server, key, Rev(doc, None));
    case Publish(key, _, doc) => AppendClicked(w, es + [e], now.server, key, Rev(doc, None));
    case At(i, a) =>
      if i < |now.clients| {
        if a.Handle? {
          HandleClicked(w, es + [e], now, i, a.call, a.governed, a.refused);
        } else {
          RunHonest(w, es);
          assert HonestClient(now.server, now.clients[i]);
          assert SavesClicked(w, es, i, now.clients[i]);
          ActClicked(w, es, i, a);
        }
      }
  }

  lemma ClickedNext(w: World, es: seq<Event>, e: Event)
    requires Initial(w) && AllClicked(w, es, RunFrom(w, es))
    ensures AllClicked(w, es + [e], RunFrom(w, es + [e]))
  {
    ClickedStep(w, es, e);
    assert (es + [e])[..|es|] == es;
  }

  lemma {:induction false} RunClicked(w: World, es: seq<Event>)
    requires Initial(w)
    ensures AllClicked(w, es, RunFrom(w, es))
  {
    if es != [] {
      var prefix, e := es[..|es| - 1], es[|es| - 1];
      assert prefix + [e] == es;
      RunClicked(w, prefix);
      ClickedNext(w, prefix, e);
    }
  }

  /** In every run, every revision saved from a form was sent by one click of its "Save": the form then said, field by
      field, what the revision says, its view was the author's, and its key the revision's. */
  lemma SavedAsTyped(w: World, es: seq<Event>, key: string, n: nat) returns (i: nat, k: nat)
    requires Initial(w)
    requires n < |Revisions(RunFrom(w, es).server, key)| && Revisions(RunFrom(w, es).server, key)[n].author.Some?
    ensures var rev := Revisions(RunFrom(w, es).server, key)[n];
            ClickedAt(w, es, i, k, key, rev.author.value, rev.doc)
  {
    RunClicked(w, es);
    var rev := Revisions(RunFrom(w, es).server, key)[n];
    assert RevClicked(w, es, key, rev);
    i :| Clicked(w, es, i, key, rev.author.value, rev.doc);
    k :| ClickedAt(w, es, i, k, key, rev.author.value, rev.doc);
  }

  /** The server's side, in every run: a save not answered yet and not refused is accepted exactly when the key has as
      many revisions as the version it was made on, and then its document is the next revision; any other leaves the
      store alone. A load is answered with the latest revision. */
  lemma HandledExactly(w: World, es: seq<Event>, i: nat, id: nat, governed: Option<string>)
    requires i < |RunFrom(w, es).clients|
    requires var c := RunFrom(w, es).clients[i]; id in c.calls && c.calls[id].reply.None?
    ensures var was, now := RunFrom(w, es), Apply(RunFrom(w, es), At(i, Handle(id, governed, None)));
            var call := was.clients[i].calls[id];
            var revs := if call.key in was.server then was.server[call.key] else [];
            && |now.clients| == |was.clients| && id in now.clients[i].calls
            && if call.Saving? then
                 if call.view.version == |revs|
                 then now.clients[i].calls[id].reply == Some(Accepted) &&
                      now.server == was.server[call.key := revs + [Rev(call.doc, Some(call.view))]]
                 else now.clients[i].calls[id].reply == Some(Conflict) && now.server == was.server
               else
                 && now.server == was.server
                 && now.clients[i].calls[id].reply.Some? && now.clients[i].calls[id].reply.value.Got?
                 && var view := now.clients[i].calls[id].reply.value.view;
                    && view.key == call.key && view.version == |revs| && view.governed == governed
                    && if revs == [] then view.doc == None else view.doc == Some(revs[|revs| - 1].doc)
  {
  }

  // ---------------------------------------------------------------- what a plain load puts into the form

  /** The field shows the recorded text, and is empty where nothing is recorded. */
  ghost predicate ShowsText(text: string, field: Option<string>) {
    match field
    case None => text == ""
    case Some(recorded) => text == recorded
  }

  /** The form shows the revision in view, and an empty form where there is none; a row policy that is not declared yet
      starts from the governed storage model and the two default selections, and a recorded "unknown" is left open. */
  ghost predicate FormShows(kind: Kind, draft: Draft, view: View) {
    match kind
    case Narrative =>
      && draft.NarrativeDraft?
      && if view.doc.Some? && view.doc.value.NarrativeDoc?
         then ShowsText(draft.nameText, view.doc.value.name) && ShowsText(draft.contextText, view.doc.value.context) &&
              ShowsText(draft.descriptionText, view.doc.value.description)
         else draft.nameText == draft.descriptionText == draft.contextText == ""
    case Temporal =>
      && draft.TemporalDraft?
      && draft.modelChoice != "unknown"
      && if view.doc.Some? && view.doc.value.TemporalDoc?
         then
           && var d := view.doc.value;
              && (d.model != "unknown" ==> draft.modelChoice == d.model)
              && (d.model == "unknown" ==> draft.modelChoice == "")
              && draft.currentChoice == d.current && draft.historicalChoice == d.historical
              && |draft.refTexts| == |d.refs|
              && forall n :: 0 <= n < |d.refs| ==> ShowsText(draft.refTexts[n], d.refs[n])
         else
           && (view.governed.Some? && view.governed.value != "unknown" ==> draft.modelChoice == view.governed.value)
           && (view.governed.None? || view.governed.value == "unknown" ==> draft.modelChoice == "")
           && draft.currentChoice == "current_record" && draft.historicalChoice == "explicit_only"
           && |draft.refTexts| == 5 && forall n :: 0 <= n < 5 ==> draft.refTexts[n] == ""
    case Serving =>
      && draft.ServingDraft?
      && if view.doc.Some? && view.doc.value.ServingDoc?
         then draft.eligibleText == Join(view.doc.value.eligible, "\n") &&
              draft.preferredText == Join(view.doc.value.preferred, "\n")
         else draft.eligibleText == draft.preferredText == ""
  }

  /** In every run, the answer to a plain load puts the answered revision on screen and into the form. */
  lemma LoadShows(w: World, es: seq<Event>, i: nat, id: nat)
    requires i < |RunFrom(w, es).clients|
    requires var c := RunFrom(w, es).clients[i];
             id in c.calls && c.calls[id].Loading? && c.calls[id].reply.Some? && c.calls[id].reply.value.Got?
    ensures var c := RunFrom(w, es).clients[i];
            var next := Apply(RunFrom(w, es), At(i, Arrive(id, true))).clients[i];
            var view := c.calls[id].reply.value.view;
            && next.editor.view == Some(view) && !next.editor.absent && next.editor.key == c.editor.key
            && FormShows(c.editor.kind, next.editor.draft, view)
  {
    SeedShows(RunFrom(w, es).clients[i].editor.kind, RunFrom(w, es).clients[i].calls[id].reply.value.view);
  }

  lemma SeedShows(kind: Kind, view: View)
    ensures FormShows(kind, Seed(kind, view), view)
  {
  }

  // ---------------------------------------------------------------- what the section says, since when

  datatype Flag = Editing | Conflicted | Absent

  predicate Up(e: Editor, flag: Flag) {
    match flag
    case Editing => e.editing
    case Conflicted => e.conflicted
    case Absent => e.absent
  }

  /** "Edit" is there to click, and is clicked. */
  ghost predicate Opens(e: Editor, a: Action) {
    a.EditClick? && e.kind != Serving && !e.editing && e.view.Some? && !e.absent
  }

  ghost predicate Closes(e: Editor, a: Action) {
    a.CancelClick? && e.kind != Serving && e.editing && e.view.Some? && !e.absent
  }

  /** The answer to a save, or to a load, reaches the client. */
  ghost predicate Hears(c: Client, a: Action, saving: bool, reply: Reply) {
    a.Arrive? && a.delivered && a.call in c.calls && c.calls[a.call].reply == Some(reply) &&
    c.calls[a.call].Saving? == saving
  }

  ghost predicate Raises(flag: Flag, c: Client, a: Action) {
    match flag
    case Editing => Opens(c.editor, a)
    case Conflicted => Hears(c, a, true, Conflict)
    case Absent => Hears(c, a, false, Refused(true))
  }

  ghost predicate Lowers(flag: Flag, c: Client, a: Action) {
    match flag
    case Editing => Closes(c.editor, a) || (Hears(c, a, true, Accepted) && c.editor.kind != Serving)
    case Conflicted => Opens(c.editor, a) || Closes(c.editor, a) || Hears(c, a, true, Accepted)
    case Absent => exists view :: Hears(c, a, false, Got(view))
  }

  lemma ClickFlags(c: Client, a: Action, flag: Flag)
    requires !a.Handle? && !a.Arrive?
    ensures Up(Act(c, a).editor, flag) <==> Raises(flag, c, a) || (Up(c.editor, flag) && !Lowers(flag, c, a))
  {
  }

  lemma ReplyFlags(c: Client, a: Action, flag: Flag)
    requires a.Arrive?
    ensures Up(Act(c, a).editor, flag) <==> Raises(flag, c, a) || (Up(c.editor, flag) && !Lowers(flag, c, a))
  {
    if a.call in c.calls && a.delivered && c.calls[a.call].reply.Some? {
      var reply := c.calls[a.call].reply.value;
      if reply.Got? && !c.calls[a.call].Saving? { assert Hears(c, a, false, Got(reply.view)); }
    }
  }

  /** What client `i` does in this event, if it does anything. */
  ghost predicate Does(w: World, e: Event, i: nat) { e.At? && e.client == i && i < |w.clients| && !e.action.Handle? }

  ghost predicate RaisedAt(w: World, es: seq<Event>, i: nat, flag: Flag, k: nat) {
    k < |es| && Does(RunFrom(w, es[..k]), es[k], i) && Raises(flag, RunFrom(w, es[..k]).clients[i], es[k].action)
  }

  ghost predicate LoweredAt(w: World, es: seq<Event>, i: nat, flag: Flag, k: nat) {
    k < |es| && Does(RunFrom(w, es[..k]), es[k], i) && Lowers(flag, RunFrom(w, es[..k]).clients[i], es[k].action)
  }

  /** Raised at event `k`, or up from the start, and not lowered from then on. */
  ghost predicate UpSince(w: World, es: seq<Event>, i: nat, flag: Flag, k: int)
    requires i < |w.clients|
  {
    && (if k == -1 then Up(w.clients[i].editor, flag) else k >= 0 && RaisedAt(w, es, i, flag, k))
    && forall j: nat :: k < j < |es| ==> !LoweredAt(w, es, i, flag, j)
  }

  lemma SameBefore(w: World, es: seq<Event>, e: Event, i: nat, flag: Flag, k: nat)
    requires k < |es|
    ensures RaisedAt(w, es + [e], i, flag, k) <==> RaisedAt(w, es, i, flag, k)
    ensures LoweredAt(w, es + [e], i, flag, k) <==> LoweredAt(w, es, i, flag, k)
  {
    assert (es + [e])[..k] == es[..k];
  }

  lemma AtTheEnd(w: World, es: seq<Event>, e: Event, i: nat, flag: Flag)
    requires i < |RunFrom(w, es).clients|
    ensures RaisedAt(w, es + [e], i, flag, |es|) <==>
              e.At? && e.client == i && !e.action.Handle? && Raises(flag, RunFrom(w, es).clients[i], e.action)
    ensures LoweredAt(w, es + [e], i, flag, |es|) <==>
              e.At? && e.client == i && !e.action.Handle? && Lowers(flag, RunFrom(w, es).clients[i], e.action)
  {
    assert (es + [e])[..|es|] == es;
  }

  lemma UpSinceGrows(w: World, es: seq<Event>, e: Event, i: nat, flag: Flag, k: int)
    requires i < |w.clients| && k < |es|
    ensures UpSince(w, es + [e], i, flag, k) <==>
              UpSince(w, es, i, flag, k) && !LoweredAt(w, es + [e], i, flag, |es|)
  {
    forall j: nat | j < |es|
      ensures RaisedAt(w, es + [e], i, flag, j) <==> RaisedAt(w, es, i, flag, j)
      ensures LoweredAt(w, es + [e], i, flag, j) <==> LoweredAt(w, es, i, flag, j)
    {
      SameBefore(w, es, e, i, flag, j);
    }
  }

  lemma FlagStep(w: World, e: Event, i: nat, flag: Flag)
    requires i < |w.clients|
    ensures var does := e.At? && e.client == i && !e.action.Handle?;
            var c := w.clients[i];
            && |Apply(w, e).clients| == |w.clients|
            && (Up(Apply(w, e).clients[i].editor, flag) <==>
                  (does && Raises(flag, c, e.action)) || (Up(c.editor, flag) && !(does && Lowers(flag, c, e.action))))
  {
    if e.At? && e.client == i && !e.action.Handle? {
      if e.action.Arrive? {
        ReplyFlags(w.clients[i], e.action, flag);
      } else {
        ClickFlags(w.clients[i], e.action, flag);
      }
    }
  }

  /** In every run: a form is being edited exactly since "Edit" was clicked with no cancel and no accepted save after it;
      a conflict is announced exactly since a 409 was heard, until the form is opened, closed or saved; and the section
      is gone exactly since a load met a 404, until another is answered. */
  lemma {:induction false} FlagsExactly(w: World, es: seq<Event>, i: nat, flag: Flag)
    requires i < |w.clients|
    ensures i < |RunFrom(w, es).clients|
    ensures Up(RunFrom(w, es).clients[i].editor, flag) <==> exists k: int :: UpSince(w, es, i, flag, k)
  {
    if es == [] {
      assert Up(w.clients[i].editor, flag) <==> UpSince(w, es, i, flag, -1);
    } else {
      var prefix, e := es[..|es| - 1], es[|es| - 1];
      assert es == prefix + [e];
      FlagsExactly(w, prefix, i, flag);
      FlagStep(RunFrom(w, prefix), e, i, flag);
      AtTheEnd(w, prefix, e, i, flag);
      forall k: int | k < |prefix|
        ensures UpSince(w, es, i, flag, k) <==>
                  UpSince(w, prefix, i, flag, k) && !LoweredAt(w, es, i, flag, |prefix|)
      {
        UpSinceGrows(w, prefix, e, i, flag, k);
      }
      assert RaisedAt(w, es, i, flag, |prefix|) <==> UpSince(w, es, i, flag, |prefix|);
    }
  }
}
