/** Runs of the connector panel, told by what happened in them: which sync each request is for, what the panel says
    after any run, and what a 409 leaves possible. */
module ConnectorRuns {
  import opened Options
  import opened Connector

  // ---------------------------------------------------------------- which sync a request is for

  /** The listed sync a search for `id` from the front meets. */
  ghost predicate FirstListed(syncs: seq<Sync>, i: nat, id: string) {
    i < |syncs| && syncs[i].id == id && forall j :: 0 <= j < i ==> syncs[j].id != id
  }

  lemma {:induction false} FindExactly(syncs: seq<Sync>, id: string)
    ensures Find(syncs, id).Some? <==> exists i: nat :: FirstListed(syncs, i, id)
    ensures forall i: nat :: FirstListed(syncs, i, id) ==> Find(syncs, id) == Some(syncs[i])
  {
    if syncs != [] && syncs[0].id != id {
      FindExactly(syncs[1..], id);
      forall i: nat | FirstListed(syncs, i, id) ensures Find(syncs, id) == Some(syncs[i]) {
        FirstListedTail(syncs, i, id);
      }
      if Find(syncs, id).Some? {
        var i: nat :| FirstListed(syncs[1..], i, id);
        FirstListedTail(syncs, i + 1, id);
      }
    } else if syncs != [] {
      assert FirstListed(syncs, 0, id);
    }
  }

  lemma FirstListedTail(syncs: seq<Sync>, i: nat, id: string)
    requires syncs != [] && syncs[0].id != id && 0 < i
    ensures FirstListed(syncs, i, id) <==> FirstListed(syncs[1..], i - 1, id)
  {
    if FirstListed(syncs, i, id) {
      forall j | 0 <= j < i - 1 ensures syncs[1..][j].id != id { assert syncs[1..][j] == syncs[j + 1]; }
    }
    if FirstListed(syncs[1..], i - 1, id) {
      forall j | 0 <= j < i ensures syncs[j].id != id { assert j > 0 ==> syncs[1..][j - 1] == syncs[j]; }
    }
  }

  /** Nothing awaited, and the picked id listed. */
  ghost predicate CanPreview(c: Client) {
    c.inflight == map[] && exists i: nat :: FirstListed(c.syncs, i, c.panel.selectedId)
  }

  ghost predicate CanPreviewAgain(c: Client) { c.inflight == map[] && c.panel.preview.Some? && c.panel.stale }

  ghost predicate CanRemap(c: Client) { c.inflight == map[] && c.panel.preview.Some? && !c.panel.stale }

  /** This one operation is awaited now, under a new ticket; the listed syncs and the pick are as they were. */
  ghost predicate Asks(was: Client, now: Client, op: Op) {
    && now.panel.seqNo == was.panel.seqNo + 1 && now.inflight == map[now.panel.seqNo := op]
    && now.syncs == was.syncs && now.panel.selectedId == was.panel.selectedId
  }

  /** In every run, "Preview import" asks for the first listed sync with the picked id, when nothing is awaited and
      there is one; otherwise it does nothing. */
  lemma PreviewOfThePicked(es: seq<Event>)
    ensures var was, now := Run(es).client, Run(es + [PreviewClick]).client;
            && (!CanPreview(was) ==> now == was)
            && (forall i: nat :: CanPreview(was) && FirstListed(was.syncs, i, was.panel.selectedId) ==>
                  Asks(was, now, Previewing(was.syncs[i])) && now.panel.preview.None?)
  {
    RunSnoc(es, PreviewClick);
    OneOperationInFlight(es);
    FindExactly(Run(es).client.syncs, Run(es).client.panel.selectedId);
  }

  /** "Run preview again" asks for the sync of the stale preview on screen, whichever is picked. */
  lemma PreviewOfTheShown(es: seq<Event>)
    ensures var was, now := Run(es).client, Run(es + [PreviewAgainClick]).client;
            if CanPreviewAgain(was)
            then Asks(was, now, Previewing(was.panel.preview.value.sync)) && now.panel.preview.None?
            else now == was
  {
    RunSnoc(es, PreviewAgainClick);
    OneOperationInFlight(es);
  }

  /** A remap patches the sync of the preview on screen, which stays there until the answer. */
  lemma RemapOfTheShown(es: seq<Event>, tag: string, mappedTo: string)
    ensures var was, now := Run(es).client, Run(es + [RemapClick(tag, mappedTo)]).client;
            if CanRemap(was)
            then Asks(was, now, Patching(was.panel.preview.value.sync, tag, mappedTo)) &&
                 now.panel.preview == was.panel.preview
            else now == was
  {
    RunSnoc(es, RemapClick(tag, mappedTo));
    OneOperationInFlight(es);
  }

  /** A pick takes the preview off the screen and touches nothing that is awaited or listed. */
  lemma PickClears(es: seq<Event>, id: string)
    ensures var was, now := Run(es).client, Run(es + [Select(id)]).client;
            && now.panel.selectedId == id && now.panel.preview.None? && !now.panel.confirming
            && now.inflight == was.inflight && now.syncs == was.syncs
  {
    RunSnoc(es, Select(id));
  }

  /** The new override: what the prior one says of every other tag, and `mappedTo` for this one. */
  ghost predicate Overrides(override: Option<map<string, string>>, prior: Option<map<string, string>>, tag: string,
                            mappedTo: string) {
    && override.Some? && tag in override.value && override.value[tag] == mappedTo
    && forall other :: other != tag ==>
         (other in override.value <==> prior.Some? && other in prior.value) &&
         (other in override.value ==> override.value[other] == prior.value[other])
  }

  /** A patch that landed: the sync's listed copies get the override, every other listed sync stays, and the preview
      now awaited is of the updated copy. */
  lemma PatchUpdates(es: seq<Event>, t: nat, target: string)
    requires AwaitsPatch(Run(es).client, t)
    ensures var was, now := Run(es).client, Run(es + [PatchReply(t, Some(target))]).client;
            var op := was.inflight[t];
            && now.panel == was.panel && now.inflight.Keys == {t} && now.inflight[t].Repreviewing?
            && now.inflight[t].sync.id == op.prior.id && now.inflight[t].sync.target == target
            && now.inflight[t].sync.integration == op.prior.integration
            && Overrides(now.inflight[t].sync.override, op.prior.override, op.tag, op.mappedTo)
            && |now.syncs| == |was.syncs|
            && forall i :: 0 <= i < |was.syncs| ==>
                 now.syncs[i] == if was.syncs[i].id == op.prior.id then now.inflight[t].sync else was.syncs[i]
  {
    RunSnoc(es, PatchReply(t, Some(target)));
    RunSafe(es);
  }

  /** The rows of a pull: one for each column found, all for the target. */
  lemma {:induction false} TranslatedExactly(target: string, found: seq<string>)
    ensures Translate(target, found) == multiset(seq(|found|, i requires 0 <= i < |found| => Row(target, found[i])))
  {
    var rows := seq(|found|, i requires 0 <= i < |found| => Row(target, found[i]));
    if found == [] {
      assert rows == [];
    } else {
      TranslatedExactly(target, found[1..]);
      var others := seq(|found[1..]|, i requires 0 <= i < |found[1..]| => Row(target, found[1..][i]));
      assert rows == [Row(target, found[0])] + others;
    }
  }

  /** A pull that found something lands as a preview of the sync that was asked for; one that failed or found nothing
      leaves no preview. */
  lemma ReplyShows(es: seq<Event>, t: nat, pull: Option<Pull>)
    requires AwaitsPreview(Run(es).client, t)
    ensures var was, now := Run(es).client, Run(es + [PreviewReply(t, pull)]).client;
            && now.inflight == map[] && now.syncs == was.syncs && now.panel.selectedId == was.panel.selectedId
            && if pull.Some? && pull.value.found != []
               then
                 && now.panel.preview.Some?
                 && var shown := now.panel.preview.value;
                    && shown.sync == was.inflight[t].sync
                    && shown.data.diff == Diff(pull.value.target, Translate(pull.value.target, pull.value.found),
                                               pull.value.columns)
                    && shown.data.snapshot.rows == shown.data.diff.rows
                    && shown.data.baseline.columns == shown.data.diff.columns
               else now.panel.preview.None?
  {
    RunSnoc(es, PreviewReply(t, pull));
    RunSafe(es);
    EmptyScreen(es);
    var was := Run(es).client;
    assert (was.inflight - {t}).Keys == {};
  }

  /** A patch that failed drops the preview it was for, and nothing is awaited. */
  lemma PatchFails(es: seq<Event>, t: nat)
    requires AwaitsPatch(Run(es).client, t)
    ensures var was, now := Run(es).client, Run(es + [PatchReply(t, None)]).client;
            now.inflight == map[] && now.panel.preview.None? && now.syncs == was.syncs &&
            now.panel.selectedId == was.panel.selectedId
  {
    RunSnoc(es, PatchReply(t, None));
    RunSafe(es);
    assert (Run(es).client.inflight - {t}).Keys == {};
  }

  /** While a first preview is awaited nothing is on screen. */
  lemma {:induction false} EmptyScreen(es: seq<Event>)
    ensures var c := Run(es).client;
            c.panel.seqNo in c.inflight && c.inflight[c.panel.seqNo].Previewing? ==> c.panel.preview.None?
  {
    if es != [] {
      var prefix, e := es[..|es| - 1], es[|es| - 1];
      EmptyScreen(prefix);
      RunSafe(prefix);
      EmptyScreenStep(Run(prefix).client, Run(prefix).history, e);
    }
  }

  lemma EmptyScreenStep(c: Client, h: History, e: Event)
    requires OneAtATime(c)
    requires c.panel.seqNo in c.inflight && c.inflight[c.panel.seqNo].Previewing? ==> c.panel.preview.None?
    ensures var next := React(c, h, e);
            next.panel.seqNo in next.inflight && next.inflight[next.panel.seqNo].Previewing? ==>
              next.panel.preview.None?
  {
    match e
    case PreviewReply(_, _) =>
    case PatchReply(_, _) =>
    case ImportReply(_, _) =>
    case _ =>
  }

  // ---------------------------------------------------------------- the picked sync and the previewed one

  /** A preview or remap of this sync is awaited. */
  ghost predicate AwaitedFor(c: Client, id: string) {
    exists t :: t in c.inflight && !c.inflight[t].Importing? && SyncId(c.inflight[t]) == id
  }

  function SyncId(op: Op): string {
    match op
    case Previewing(sync) => sync.id
    case Patching(prior, _, _) => prior.id
    case Repreviewing(sync) => sync.id
    case Importing(_, shown) => shown.sync.id
  }

  /** Event `k` is the run's last pick. */
  ghost predicate LastPick(es: seq<Event>, k: nat) {
    k < |es| && es[k].Select? && forall j :: k < j < |es| ==> !es[j].Select?
  }

  /** The last pick was made while a preview or remap of this sync was awaited. */
  ghost predicate PickedOver(es: seq<Event>, id: string) {
    exists k: nat :: LastPick(es, k) && AwaitedFor(Run(es[..k]).client, id)
  }

  lemma PickedOverGrows(es: seq<Event>, e: Event, id: string)
    ensures PickedOver(es + [e], id) <==> if e.Select? then AwaitedFor(Run(es).client, id) else PickedOver(es, id)
  {
    var all := es + [e];
    forall k | 0 <= k <= |es| ensures all[..k] == es[..k] {}
    assert es[..|es|] == es;
    if e.Select? {
      assert LastPick(all, |es|);
    } else {
      forall k: nat ensures LastPick(all, k) <==> LastPick(es, k) { assert k < |es| ==> all[k] == es[k]; }
    }
  }

  /** Of this sync the pick is current, or was made over an operation for it. */
  ghost predicate Follows(es: seq<Event>, id: string) { Run(es).client.panel.selectedId == id || PickedOver(es, id) }

  ghost predicate FollowsPick(es: seq<Event>) {
    var c := Run(es).client;
    && (!c.loaded ==> c.panel.preview.None? && c.inflight == map[])
    && (c.panel.preview.Some? ==> Follows(es, c.panel.preview.value.sync.id))
    && (forall t :: t in c.inflight && !c.inflight[t].Importing? ==> Follows(es, SyncId(c.inflight[t])))
  }

  /** The sync on screen was on screen or awaited before. */
  lemma ShownIdStep(c: Client, h: History, e: Event)
    requires OneAtATime(c)
    ensures var now := React(c, h, e).panel.preview;
            now.Some? ==>
              now == c.panel.preview || (e.PreviewReply? && AwaitsPreview(c, e.ticket) &&
                                         now.value.sync.id == SyncId(c.inflight[e.ticket]))
  {
  }

  /** The sync awaited was awaited before, on screen, or picked. */
  lemma AwaitedIdStep(c: Client, h: History, e: Event, t: nat)
    requires OneAtATime(c) && t in React(c, h, e).inflight && !React(c, h, e).inflight[t].Importing?
    ensures var id := SyncId(React(c, h, e).inflight[t]);
            || (t in c.inflight && !c.inflight[t].Importing? && SyncId(c.inflight[t]) == id)
            || (c.panel.preview.Some? && c.panel.preview.value.sync.id == id)
            || (e == PreviewClick && c.panel.selectedId == id)
  {
  }

  lemma PickStep(c: Client, h: History, e: Event)
    ensures e.Select? ==> React(c, h, e) == c.(panel := c.panel.OnSelect(e.id))
    ensures !e.Select? && c.loaded ==> React(c, h, e).loaded && React(c, h, e).panel.selectedId == c.panel.selectedId
  {
  }

  lemma UnlistedStep(c: Client, h: History, e: Event)
    requires OneAtATime(c) && !c.loaded && c.syncs == [] && c.panel.preview.None? && c.inflight == map[]
    ensures React(c, h, e).panel.preview.None? && React(c, h, e).inflight == map[]
  {
  }

  lemma {:induction false} RunFollowsPick(es: seq<Event>)
    ensures FollowsPick(es)
  {
    if es != [] {
      var prefix, e := es[..|es| - 1], es[|es| - 1];
      RunFollowsPick(prefix);
      assert es == prefix + [e];
      if Run(es).client.panel.preview.Some? { ShownFollows(prefix, e); }
      forall t | t in Run(es).client.inflight && !Run(es).client.inflight[t].Importing?
        ensures Follows(es, SyncId(Run(es).client.inflight[t]))
      {
        AwaitedFollows(prefix, e, t);
      }
      UnlistedFollows(prefix, e);
    }
  }

  lemma ShownFollows(prefix: seq<Event>, e: Event)
    requires FollowsPick(prefix) && Run(prefix + [e]).client.panel.preview.Some?
    ensures Follows(prefix + [e], Run(prefix + [e]).client.panel.preview.value.sync.id)
  {
    RunSafe(prefix);
    RunSnoc(prefix, e);
    ShownIdStep(Run(prefix).client, Run(prefix).history, e);
    FollowsStep(prefix, e, Run(prefix + [e]).client.panel.preview.value.sync.id);
  }

  lemma AwaitedFollows(prefix: seq<Event>, e: Event, t: nat)
    requires FollowsPick(prefix)
    requires t in Run(prefix + [e]).client.inflight && !Run(prefix + [e]).client.inflight[t].Importing?
    ensures Follows(prefix + [e], SyncId(Run(prefix + [e]).client.inflight[t]))
  {
    RunSafe(prefix);
    RunSnoc(prefix, e);
    AwaitedIdStep(Run(prefix).client, Run(prefix).history, e, t);
    PickStep(Run(prefix).client, Run(prefix).history, e);
    FollowsStep(prefix, e, SyncId(Run(prefix + [e]).client.inflight[t]));
  }

  lemma UnlistedFollows(prefix: seq<Event>, e: Event)
    requires FollowsPick(prefix)
    ensures var c := Run(prefix + [e]).client; !c.loaded ==> c.panel.preview.None? && c.inflight == map[]
  {
    RunSafe(prefix);
    RunSnoc(prefix, e);
    if !Run(prefix).client.loaded { UnlistedStep(Run(prefix).client, Run(prefix).history, e); }
  }

  /** A pick leaves nothing on screen, and whatever is awaited was awaited as it was made. */
  lemma FollowsStep(prefix: seq<Event>, e: Event, id: string)
    requires Run(prefix).client.loaded
    requires Follows(prefix, id)
    requires e.Select? ==> AwaitedFor(Run(prefix).client, id)
    ensures Follows(prefix + [e], id)
  {
    RunSnoc(prefix, e);
    PickStep(Run(prefix).client, Run(prefix).history, e);
    PickedOverGrows(prefix, e, id);
  }

  lemma {:induction false} PickStays(es: seq<Event>, k: nat)
    requires LastPick(es, k) && Run(es[..k]).client.loaded
    ensures Run(es).client.loaded && Run(es).client.panel.selectedId == es[k].id
  {
    var prefix, e := es[..|es| - 1], es[|es| - 1];
    PickStep(Run(prefix).client, Run(prefix).history, e);
    if k < |es| - 1 {
      assert prefix[..k] == es[..k];
      PickStays(prefix, k);
    }
  }

  /** The preview on screen is of a sync other than the picked one exactly when the last pick was of another sync
      and was made while a preview or remap of this one was awaited. */
  lemma PreviewOfAnother(es: seq<Event>)
    requires Run(es).client.panel.preview.Some?
    ensures var id := Run(es).client.panel.preview.value.sync.id;
            id != Run(es).client.panel.selectedId <==>
              exists k: nat :: LastPick(es, k) && es[k].id != id && AwaitedFor(Run(es[..k]).client, id)
  {
    RunFollowsPick(es);
    forall k: nat | LastPick(es, k) && AwaitedFor(Run(es[..k]).client, Run(es).client.panel.preview.value.sync.id)
      ensures Run(es).client.panel.selectedId == es[k].id
    {
      RunFollowsPick(es[..k]);
      PickStays(es, k);
    }
  }

  /** Such a run: "b" is picked while the preview of "a" is on its way, and the import posted is of "a". */
  lemma PostedAnother() returns (es: seq<Event>)
    ensures var w := Run(es);
            w.client.panel.selectedId == "b" && |w.history.posts| == 1 && w.history.posts[0].syncId == "a"
  {
    es := PickedWhileAwaited();
    var pull := Pull("deposits", ["accounts.id"], map[]);
    ReplyShows(es, 1, Some(pull));
    RunSnoc(es, PreviewReply(1, Some(pull)));
    es := es + [PreviewReply(1, Some(pull))];
    TwoClicksPost(es);
    es := es + [ApproveClick, ApproveClick];
  }

  lemma PickedWhileAwaited() returns (es: seq<Event>)
    ensures var c := Run(es).client;
            && c.inflight == map[1 := Previewing(Sync("a", "om", "deposits", None))] && c.panel.selectedId == "b"
            && c.panel.seqNo == 1 && !c.panel.stale && c.panel.imported.None? && !c.panel.confirming
    ensures Run(es).history.posts == []
  {
    var a, b := Sync("a", "om", "deposits", None), Sync("b", "om", "loans", None);
    es := [Loaded([a, b])];
    RunSnoc([], Loaded([a, b]));
    assert [] + es == es;
    assert Run(es).client == Client(FRESH.(selectedId := "a"), [a, b], true, map[]);
    assert Find([a, b], "a") == Some(a);
    RunSnoc(es, PreviewClick);
    es := es + [PreviewClick];
    RunSnoc(es, Select("b"));
    es := es + [Select("b")];
  }

  /** Nothing awaited, and a preview on screen that is neither stale nor imported nor asked about yet. */
  ghost predicate Approvable(c: Client) {
    c.inflight == map[] && c.panel.preview.Some? && !c.panel.stale && c.panel.imported.None? && !c.panel.confirming
  }

  /** The preview on screen was posted, its sync id and its two hashes, and is still there. */
  ghost predicate PostedShown(was: World, now: World) {
    && was.client.panel.preview.Some?
    && var shown := was.client.panel.preview.value;
       && now.history.posts == was.history.posts +
                               [Post(shown, shown.sync.id, shown.data.snapshot, shown.data.baseline, None)]
       && now.history.catalogs == was.history.catalogs && now.history.commits == was.history.commits
       && now.client.panel.preview == was.client.panel.preview
       && now.client.panel.selectedId == was.client.panel.selectedId
       && now.client.inflight == map[now.client.panel.seqNo := Importing(|was.history.posts|, shown)]
  }

  /** Two approve clicks post the preview on screen, once. */
  lemma TwoClicksPost(es: seq<Event>)
    requires Approvable(Run(es).client)
    ensures PostedShown(Run(es), Run(es + [ApproveClick, ApproveClick]))
  {
    OneOperationInFlight(es);
    RunSnoc(es, ApproveClick);
    RunSnoc(es + [ApproveClick], ApproveClick);
    TwoMore(es, ApproveClick, ApproveClick);
  }

  lemma TwoMore(es: seq<Event>, d: Event, e: Event)
    ensures es + [d] + [e] == es + [d, e]
  {
  }

  // ---------------------------------------------------------------- what the panel says, since when

  /** An event begins a first preview, a preview again or a remap. */
  ghost predicate Begins(w: World, e: Event) {
    match e
    case PreviewClick => CanPreview(w.client)
    case PreviewAgainClick => CanPreviewAgain(w.client)
    case RemapClick(_, _) => CanRemap(w.client)
    case _ => false
  }

  /** The server's answer to a post reaches the client. */
  ghost predicate Hears(w: World, e: Event, outcome: Outcome) {
    && e.ImportReply? && e.delivered && AwaitsImport(w.client, e.ticket)
    && var i := w.client.inflight[e.ticket].post;
       i < |w.history.posts| && w.history.posts[i].outcome == Some(outcome)
  }

  /** A preview, a patch or the preview after it fails. */
  ghost predicate FailsToPreview(w: World, e: Event) {
    match e
    case PreviewReply(t, pull) => AwaitsPreview(w.client, t) && (pull.None? || pull.value.found == [])
    case PatchReply(t, patched) => AwaitsPatch(w.client, t) && patched.None?
    case _ => false
  }

  /** An import's answer does not reach the client. */
  ghost predicate LosesAnswer(w: World, e: Event) {
    e.ImportReply? && !e.delivered && AwaitsImport(w.client, e.ticket)
  }

  /** The confirming click. */
  ghost predicate Posts(w: World, e: Event) {
    var p := w.client.panel;
    && e == ApproveClick && p.confirming && w.client.inflight == map[] && p.preview.Some? && !p.stale
    && p.imported.None?
  }

  ghost predicate StartsOver(w: World, e: Event) { e.Select? || Begins(w, e) }

  /** What the panel says beside the preview. */
  datatype Mark = Stale | Imported | PreviewFailed | ImportFailed

  predicate Says(p: Panel, mark: Mark) {
    match mark
    case Stale => p.stale
    case Imported => p.imported.Some?
    case PreviewFailed => p.previewError
    case ImportFailed => p.importError
  }

  ghost predicate Raises(mark: Mark, w: World, e: Event) {
    match mark
    case Stale => Hears(w, e, Conflict)
    case Imported => Hears(w, e, Ingested) || Hears(w, e, Held)
    case PreviewFailed => FailsToPreview(w, e)
    case ImportFailed => LosesAnswer(w, e)
  }

  /** Only an import's error outlives a remap, and a new post takes it away. */
  ghost predicate Lowers(mark: Mark, w: World, e: Event) {
    if mark == ImportFailed then (StartsOver(w, e) && !e.RemapClick?) || Posts(w, e) else StartsOver(w, e)
  }

  ghost predicate Since(es: seq<Event>, mark: Mark, k: nat) {
    k < |es| && Raises(mark, Run(es[..k]), es[k]) && forall j :: k < j < |es| ==> !Lowers(mark, Run(es[..j]), es[j])
  }

  ghost predicate MarkFollows(w: World, e: Event, mark: Mark) {
    Says(Apply(w, e).client.panel, mark) <==>
      Raises(mark, w, e) || (Says(w.client.panel, mark) && !Lowers(mark, w, e))
  }

  lemma PreviewMarks(w: World, e: Event, mark: Mark)
    requires (w.client.panel.Busy() <==> w.client.inflight != map[]) && (e.PreviewClick? || e.PreviewAgainClick?)
    ensures MarkFollows(w, e, mark)
  {
    FindExactly(w.client.syncs, w.client.panel.selectedId);
  }

  lemma ClickMarks(w: World, e: Event, mark: Mark)
    requires (w.client.panel.Busy() <==> w.client.inflight != map[])
    requires e.Select? || e.RemapClick? || e.ApproveClick? || e.CancelClick?
    ensures MarkFollows(w, e, mark)
  {
  }

  lemma ReplyMarks(w: World, e: Event, mark: Mark)
    requires OneAtATime(w.client) && (e.PreviewReply? || e.PatchReply?)
    ensures MarkFollows(w, e, mark)
  {
  }

  lemma AnswerMarks(w: World, e: Event, mark: Mark)
    requires OneAtATime(w.client) && e.ImportReply?
    ensures MarkFollows(w, e, mark)
  {
  }

  lemma MarkStep(w: World, e: Event, mark: Mark)
    requires OneAtATime(w.client) && (w.client.panel.Busy() <==> w.client.inflight != map[])
    ensures MarkFollows(w, e, mark)
  {
    if e.PreviewClick? || e.PreviewAgainClick? {
      PreviewMarks(w, e, mark);
    } else if e.PreviewReply? || e.PatchReply? {
      ReplyMarks(w, e, mark);
    } else if e.ImportReply? {
      AnswerMarks(w, e, mark);
    } else if e.Select? || e.RemapClick? || e.ApproveClick? || e.CancelClick? {
      ClickMarks(w, e, mark);
    }
  }

  lemma SinceGrows(es: seq<Event>, e: Event, mark: Mark)
    ensures (exists k: nat :: Since(es + [e], mark, k)) <==>
              Raises(mark, Run(es), e) || ((exists k: nat :: Since(es, mark, k)) && !Lowers(mark, Run(es), e))
  {
    var all := es + [e];
    forall k | 0 <= k <= |es| ensures all[..k] == es[..k] {}
    assert es[..|es|] == es;
    forall k: nat | k < |es| ensures Since(all, mark, k) <==> Since(es, mark, k) && !Lowers(mark, Run(es), e) {
      assert all[|es|] == e && all[k] == es[k];
      forall j | k < j < |es| ensures all[j] == es[j] && all[..j] == es[..j] {}
    }
    assert Raises(mark, Run(es), e) <==> Since(all, mark, |es|);
  }

  /** In every run: the preview is marked stale exactly when an import was answered by a 409, marked imported exactly
      when one was answered by a 200, and each error stands exactly when an operation of its kind failed, and nothing
      started over since. */
  lemma {:induction false} MarksExactly(es: seq<Event>, mark: Mark)
    ensures Says(Run(es).client.panel, mark) <==> exists k: nat :: Since(es, mark, k)
  {
    if es != [] {
      var prefix, e := es[..|es| - 1], es[|es| - 1];
      assert es == prefix + [e];
      MarksExactly(prefix, mark);
      SinceGrows(prefix, e, mark);
      RunSafe(prefix);
      OneOperationInFlight(prefix);
      MarkStep(Run(prefix), e, mark);
    }
  }

  // ---------------------------------------------------------------- the server's answer, and after a 409

  /** What the server makes of a post not handled yet: a 409 exactly when the rows or the catalog are not those shown;
      otherwise what was shown is committed if the pipeline lets it land, and the catalog becomes what that leaves. */
  lemma HandledExactly(es: seq<Event>, i: nat, target: string, found: seq<string>, leaves: Columns, lands: bool)
    requires i < |Run(es).history.posts| && Run(es).history.posts[i].outcome.None?
    ensures var was, now := Run(es).history, Run(es + [ServerHandles(i, target, found, leaves, lands)]).history;
            var diff := was.posts[i].shown.data.diff;
            var current := if target in was.catalogs then was.catalogs[target] else map[];
            var same := Translate(target, found) == diff.rows && current == diff.columns;
            && |now.posts| == |was.posts|
            && now.posts[i].outcome == Some(if !same then Conflict else if lands then Ingested else Held)
            && (forall j :: 0 <= j < |was.posts| && j != i ==> now.posts[j] == was.posts[j])
            && now.commits == was.commits + (if same && lands then [Commit(i, diff)] else [])
            && now.catalogs == if same && lands then was.catalogs[target := leaves] else was.catalogs
  {
    RunSnoc(es, ServerHandles(i, target, found, leaves, lands));
    RunSafe(es);
    assert TraceablePost(Run(es).history, Run(es).history.posts[i]);
    HandledStep(Run(es).client, Run(es).history, i, target, found, leaves, lands);
  }

  lemma HandledStep(c: Client, h: History, i: nat, target: string, found: seq<string>, leaves: Columns, lands: bool)
    requires i < |h.posts| && h.posts[i].outcome.None? && TraceablePost(h, h.posts[i])
    ensures var next := Record(c, h, ServerHandles(i, target, found, leaves, lands));
            var diff := h.posts[i].shown.data.diff;
            var current := if target in h.catalogs then h.catalogs[target] else map[];
            var same := Translate(target, found) == diff.rows && current == diff.columns;
            && |next.posts| == |h.posts|
            && next.posts[i].outcome == Some(if !same then Conflict else if lands then Ingested else Held)
            && (forall j :: 0 <= j < |h.posts| && j != i ==> next.posts[j] == h.posts[j])
            && next.commits == h.commits + (if same && lands then [Commit(i, diff)] else [])
            && next.catalogs == if same && lands then h.catalogs[target := leaves] else h.catalogs
  {
    var diff, now := h.posts[i].shown.data.diff, Met(h, target, found);
    if Against(now).rows == diff.rows && now.columns == diff.columns { HashesFixSource(diff, now); }
  }

  /** A fresh preview of the same sync, computed from this pull, can be approved. */
  ghost predicate PreviewedAgain(was: World, now: World, pull: Pull) {
    && Approvable(now.client) && was.client.panel.preview.Some?
    && now.history.posts == was.history.posts && now.history.catalogs == was.history.catalogs
    && var shown := now.client.panel.preview.value;
       && shown.sync == was.client.panel.preview.value.sync
       && shown.data.diff == Diff(pull.target, Translate(pull.target, pull.found), pull.columns)
       && shown.data.snapshot.rows == shown.data.diff.rows && shown.data.baseline.columns == pull.columns
  }

  /** One more post, for the sync of the preview that was on screen, of what this pull brought. */
  ghost predicate PostedAgain(was: World, now: World, pull: Pull) {
    && was.client.panel.preview.Some? && |now.history.posts| == |was.history.posts| + 1
    && now.history.catalogs == was.history.catalogs
    && var post := now.history.posts[|was.history.posts|];
       && post.syncId == was.client.panel.preview.value.sync.id && post.outcome.None?
       && post.shown.data.diff == Diff(pull.target, Translate(pull.target, pull.found), pull.columns)
       && post.snapshot.rows == post.shown.data.diff.rows && post.baseline.columns == pull.columns
       && now.client.inflight == map[now.client.panel.seqNo := Importing(|was.history.posts|, post.shown)]
  }

  /** What an answer to an import, or its loss, does to the panel: a 409 marks the preview stale, a 200 says which
      source the panel had named, a loss is an error; the first two disarm. */
  lemma AnswerHeard(es: seq<Event>, t: nat, delivered: bool)
    requires AwaitsImport(Run(es).client, t) && Run(es).client.inflight[t].post < |Run(es).history.posts|
    ensures var was, now := Run(es).client, Run(es + [ImportReply(t, delivered)]).client;
            Told(was, now, was.inflight[t].shown, Run(es).history.posts[was.inflight[t].post].outcome, delivered)
  {
    RunSnoc(es, ImportReply(t, delivered));
    RunSafe(es);
    AnswerStep(Run(es).client, Run(es).history, t, delivered);
  }

  ghost predicate Told(was: Client, now: Client, shown: Shown, answer: Option<Outcome>, delivered: bool) {
    if delivered && answer.None? then now == was
    else
      && now.inflight == map[] && now.syncs == was.syncs
      && now.panel == if !delivered then was.panel.(importBusy := false, importError := true)
                      else if answer.value.Conflict? then
                        was.panel.(importBusy := false, stale := true, confirming := false)
                      else
                        was.panel.(importBusy := false, imported := Some(shown.sync.target), confirming := false)
  }

  lemma AnswerStep(c: Client, h: History, t: nat, delivered: bool)
    requires OneAtATime(c) && AwaitsImport(c, t) && c.inflight[t].post < |h.posts|
    ensures Told(c, React(c, h, ImportReply(t, delivered)), c.inflight[t].shown, h.posts[c.inflight[t].post].outcome,
                 delivered)
  {
    assert (c.inflight - {t}).Keys == {};
  }

  /** Cancelling takes back the first approve click and nothing else; there is nothing to cancel once it is posted. */
  lemma CancelTakesBack(es: seq<Event>)
    ensures var was, now := Run(es), Run(es + [CancelClick]);
            && now.history.posts == was.history.posts && now.history.commits == was.history.commits
            && now.client == if was.client.inflight != map[] then was.client
                             else was.client.(panel := was.client.panel.(confirming := false))
  {
    RunSnoc(es, CancelClick);
    RunSafe(es);
    OneOperationInFlight(es);
  }

  /** The way out of a 409: run the preview again, approve it in two clicks, and the import posted carries the new
      response, for the same sync. */
  lemma FreshAfterConflict(es: seq<Event>, pull: Pull)
    requires CanPreviewAgain(Run(es).client) && pull.found != []
    ensures PostedAgain(Run(es), Run(es + [PreviewAgainClick, FreshReply(es, pull), ApproveClick, ApproveClick]), pull)
  {
    var two, last := es + [PreviewAgainClick, FreshReply(es, pull)], [ApproveClick, ApproveClick];
    FreshPreview(es, pull);
    TwoClicksPost(two);
    assert two + last == es + [PreviewAgainClick, FreshReply(es, pull), ApproveClick, ApproveClick];
    PostsTheFresh(Run(es), Run(two), Run(two + last), pull);
  }

  lemma PostsTheFresh(was: World, mid: World, now: World, pull: Pull)
    requires PreviewedAgain(was, mid, pull) && PostedShown(mid, now)
    ensures PostedAgain(was, now, pull)
  {
  }

  ghost function FreshReply(es: seq<Event>, pull: Pull): Event {
    PreviewReply(Run(es).client.panel.seqNo + 1, Some(pull))
  }

  /** The preview run again after a 409, answered. */
  lemma FreshPreview(es: seq<Event>, pull: Pull)
    requires CanPreviewAgain(Run(es).client) && pull.found != []
    ensures PreviewedAgain(Run(es), Run(es + [PreviewAgainClick, FreshReply(es, pull)]), pull)
  {
    var t := Run(es).client.panel.seqNo + 1;
    var one := es + [PreviewAgainClick];
    PreviewOfTheShown(es);
    NothingMarked(es);
    ReplyMarksNothing(one, t, pull);
    ReplyShows(one, t, Some(pull));
    TwoMore(es, PreviewAgainClick, PreviewReply(t, Some(pull)));
  }

  lemma ReplyMarksNothing(es: seq<Event>, t: nat, pull: Pull)
    requires AwaitsPreview(Run(es).client, t)
    ensures var was, now := Run(es), Run(es + [PreviewReply(t, Some(pull))]);
            && now.client.panel.stale == was.client.panel.stale
            && now.client.panel.imported == was.client.panel.imported
            && now.client.panel.confirming == was.client.panel.confirming
            && now.history.posts == was.history.posts && now.history.catalogs == was.history.catalogs
  {
    RunSnoc(es, PreviewReply(t, Some(pull)));
    ReplyKeepsMarks(Run(es).client, Run(es).history, t, pull);
    ReplyKeepsPosts(Run(es).client, Run(es).history, t, pull);
  }

  lemma ReplyKeepsMarks(c: Client, h: History, t: nat, pull: Pull)
    requires AwaitsPreview(c, t)
    ensures var now := React(c, h, PreviewReply(t, Some(pull))).panel;
            now.stale == c.panel.stale && now.imported == c.panel.imported && now.confirming == c.panel.confirming
  {
  }

  lemma ReplyKeepsPosts(c: Client, h: History, t: nat, pull: Pull)
    ensures var now := Record(c, h, PreviewReply(t, Some(pull))); now.posts == h.posts && now.catalogs == h.catalogs
  {
  }

  lemma NothingMarked(es: seq<Event>)
    requires CanPreviewAgain(Run(es).client)
    ensures var was, now := Run(es), Run(es + [PreviewAgainClick]);
            && !now.client.panel.stale && now.client.panel.imported.None? && !now.client.panel.confirming
            && now.history.posts == was.history.posts && now.history.catalogs == was.history.catalogs
  {
    RunSnoc(es, PreviewAgainClick);
    OneOperationInFlight(es);
  }
}
