/** The preview, remap, approve, import protocol of `ConnectorPanel.tsx`: the panel's handlers as
    functions of its state, the panel itself as a class, and every run of panel, network and server. */
module Connector {
  import opened Options

  // ---------------------------------------------------------------- what travels

  /** A translated row: the source it is for and everything else it says. */
  datatype Row = Row(source: string, content: string)

  /** The rows a pull translates to, order forgotten: the hash sorts them. */
  type Rows = multiset<Row>

  /** The local catalog of one source, as the preview's diff reads it. */
  type Columns = map<string, string>

  /** The two hashes of a preview. Collisions are excluded: a hash is the thing it was taken of. */
  datatype SnapshotHash = SnapshotHash(rows: Rows)
  datatype BaselineHash = BaselineHash(columns: Columns)

  datatype Sync = Sync(id: string, integration: string, target: string,
                       override: Option<map<string, string>>)

  /** What the server finds at one moment for a sync: the sync's target source, what the pull brings, and that
      source's catalog. */
  datatype Pull = Pull(target: string, found: seq<string>, columns: Columns)

  /** The diff a human reviews: what was pulled, for which source, against which local catalog. */
  datatype Diff = Diff(source: string, rows: Rows, columns: Columns)

  /** `read_openmetadata`: every row carries the target source. */
  function Translate(target: string, found: seq<string>): Rows {
    if found == [] then multiset{} else multiset{Row(target, found[0])} + Translate(target, found[1..])
  }

  function Against(pull: Pull): Diff { Diff(pull.target, Translate(pull.target, pull.found), pull.columns) }

  /** `build_preview`: an empty pull is an error, like a pull that fails. */
  function BuildPreview(pull: Option<Pull>): Option<Diff> {
    if pull.None? || pull.value.found == [] then None else Some(Against(pull.value))
  }

  /** There are rows, and all of them are for this source. */
  ghost predicate ForOneSource(diff: Diff) {
    diff.rows != multiset{} && forall r :: r in diff.rows ==> r.source == diff.source
  }

  lemma {:induction false} TranslatedForTarget(target: string, found: seq<string>)
    ensures forall r :: r in Translate(target, found) ==> r.source == target
    ensures Translate(target, found) == multiset{} <==> found == []
  {
    if found != [] {
      TranslatedForTarget(target, found[1..]);
      assert Row(target, found[0]) in Translate(target, found);
    }
  }

  lemma PreviewedForOneSource(pull: Option<Pull>)
    requires BuildPreview(pull).Some?
    ensures ForOneSource(BuildPreview(pull).value)
  {
    TranslatedForTarget(pull.value.target, pull.value.found);
  }

  /** Both hashes agreeing leaves no room for another source. */
  lemma HashesFixSource(shown: Diff, now: Pull)
    requires ForOneSource(shown)
    requires SnapshotHash(Against(now).rows) == SnapshotHash(shown.rows)
    requires BaselineHash(now.columns) == BaselineHash(shown.columns)
    ensures Against(now) == shown
  {
    TranslatedForTarget(now.target, now.found);
    var r :| r in shown.rows;
  }

  datatype PreviewData = PreviewData(diff: Diff, snapshot: SnapshotHash, baseline: BaselineHash)

  /** The `preview` state: the sync it was taken for and the response. `serial` numbers responses. */
  datatype Shown = Shown(sync: Sync, data: PreviewData, serial: nat)

  /** How the server answers an import: rows landed, an attempt held or rejected and nothing written, or a 409. */
  datatype Outcome = Ingested | Held | Conflict

  // ---------------------------------------------------------------- the panel's state and handlers

  datatype Panel = Panel(
    selectedId: string, preview: Option<Shown>,
    previewBusy: bool, previewError: bool, confirming: bool,
    importBusy: bool, importError: bool, stale: bool, imported: Option<string>, seqNo: nat)
  {
    predicate Busy() { previewBusy || importBusy }

    function OnSelect(id: string): Panel {
      this.(selectedId := id, preview := None, previewError := false, importError := false,
            stale := false, confirming := false, imported := None)
    }

    function PreviewStarts(): Panel {
      this.(seqNo := seqNo + 1, previewBusy := true, previewError := false, importError := false,
            stale := false, confirming := false, imported := None, preview := None)
    }

    function PreviewLands(ticket: nat, shown: Shown): Panel {
      if seqNo != ticket then this else this.(preview := Some(shown), previewBusy := false)
    }

    function PreviewFails(ticket: nat): Panel {
      if seqNo != ticket then this else this.(previewError := true, previewBusy := false)
    }

    function RemapStarts(): Panel {
      this.(seqNo := seqNo + 1, previewBusy := true, previewError := false, stale := false,
            confirming := false, imported := None)
    }

    function RemapFails(ticket: nat): Panel {
      if seqNo != ticket then this
      else this.(preview := None, previewError := true, previewBusy := false)
    }

    predicate CanApprove() { preview.Some? && !Busy() && !stale && imported.None? }

    function Arm(): Panel { this.(confirming := true) }

    function ImportStarts(): Panel {
      this.(seqNo := seqNo + 1, importBusy := true, importError := false)
    }

    function CancelConfirm(): Panel { this.(confirming := false) }

    function ImportLands(ticket: nat, source: string): Panel {
      if seqNo != ticket then this
      else this.(imported := Some(source), confirming := false, importBusy := false)
    }

    function ImportConflicts(ticket: nat): Panel {
      if seqNo != ticket then this
      else this.(stale := true, confirming := false, importBusy := false)
    }

    function ImportFails(ticket: nat): Panel {
      if seqNo != ticket then this else this.(importError := true, importBusy := false)
    }
  }

  const FRESH := Panel("", None, false, false, false, false, false, false, None, 0)

  function Find(syncs: seq<Sync>, id: string): (r: Option<Sync>)
    ensures r.Some? ==> r.value in syncs && r.value.id == id
  {
    if syncs == [] then None else if syncs[0].id == id then Some(syncs[0]) else Find(syncs[1..], id)
  }

  function Replace(syncs: seq<Sync>, updated: Sync): seq<Sync> {
    seq(|syncs|, i requires 0 <= i < |syncs| => if syncs[i].id == updated.id then updated else syncs[i])
  }

  /** `{ ...(prior.tag_map_override ?? {}), [tag]: mappedTo }`. */
  function Merge(override: Option<map<string, string>>, tag: string, mappedTo: string): map<string, string> {
    (if override.Some? then override.value else map[])[tag := mappedTo]
  }

  lemma {:induction false} FindReplaced(syncs: seq<Sync>, updated: Sync, id: string)
    ensures Find(Replace(syncs, updated), id) ==
              if id == updated.id && Find(syncs, id).Some? then Some(updated) else Find(syncs, id)
  {
    if syncs != [] {
      assert Replace(syncs, updated)[1..] == Replace(syncs[1..], updated);
      FindReplaced(syncs[1..], updated, id);
    }
  }

  // ---------------------------------------------------------------- the panel as an object

  /** What a handler asks of the network. */
  datatype Request =
    | NoRequest
    | RequestPreview(ticket: nat, sync: Sync)
    | RequestPatch(ticket: nat, prior: Sync, override: map<string, string>)
    | RequestImport(ticket: nat, shown: Shown)

  class ConnectorPanel {
    var syncs: seq<Sync>
    var selectedId: string
    var preview: Option<Shown>
    var previewBusy: bool
    var previewError: bool
    var confirming: bool
    var importBusy: bool
    var importError: bool
    var stale: bool
    var imported: Option<string>
    var seqNo: nat

    function State(): Panel
      reads this
    {
      Panel(selectedId, preview, previewBusy, previewError, confirming, importBusy, importError,
            stale, imported, seqNo)
    }

    constructor ()
      ensures State() == FRESH && syncs == []
    {
      syncs, selectedId, preview := [], "", None;
      previewBusy, previewError, confirming := false, false, false;
      importBusy, importError, stale, imported, seqNo := false, false, false, None, 0;
    }

    /** The list of syncs arrives: the first is selected unless one already is. */
    method List(list: seq<Sync>)
      modifies this
      ensures syncs == list
      ensures State() == var was := old(State());
                         was.(selectedId := if was.selectedId == "" && list != [] then list[0].id else was.selectedId)
    {
      syncs := list;
      if selectedId == "" && list != [] { selectedId := list[0].id; }
    }

    method OnSelect(id: string)
      modifies this
      ensures syncs == old(syncs)
      ensures State() == old(State()).OnSelect(id)
    {
      selectedId := id;
      preview := None;
      previewError := false;
      importError := false;
      stale := false;
      confirming := false;
      imported := None;
    }

    method RunPreview(sync: Sync) returns (request: Request)
      modifies this
      ensures syncs == old(syncs)
      ensures if old(State()).Busy() then State() == old(State()) && request == NoRequest
              else State() == old(State()).PreviewStarts() && request == RequestPreview(seqNo, sync)
    {
      if previewBusy || importBusy { return NoRequest; }
      seqNo := seqNo + 1;
      previewBusy := true;
      previewError := false;
      importError := false;
      stale := false;
      confirming := false;
      imported := None;
      preview := None;
      request := RequestPreview(seqNo, sync);
    }

    method PreviewResponse(ticket: nat, shown: Option<Shown>)
      modifies this
      ensures syncs == old(syncs)
      ensures State() == if shown.Some? then old(State()).PreviewLands(ticket, shown.value)
                         else old(State()).PreviewFails(ticket)
    {
      if shown.Some? {
        if seqNo == ticket { preview := shown; }
      } else {
        if seqNo == ticket { previewError := true; }
      }
      if seqNo == ticket { previewBusy := false; }
    }

    method Remap(tag: string, mappedTo: string) returns (request: Request)
      modifies this
      ensures syncs == old(syncs)
      ensures if old(State()).preview.None? || old(State()).Busy()
              then State() == old(State()) && request == NoRequest
              else State() == old(State()).RemapStarts() &&
                   var prior := old(State()).preview.value.sync;
                   request == RequestPatch(seqNo, prior, Merge(prior.override, tag, mappedTo))
    {
      if preview.None? || previewBusy || importBusy { return NoRequest; }
      var prior := preview.value.sync;
      seqNo := seqNo + 1;
      previewBusy := true;
      previewError := false;
      stale := false;
      confirming := false;
      imported := None;
      request := RequestPatch(seqNo, prior, Merge(prior.override, tag, mappedTo));
    }

    /** The re-preview is requested whatever the ticket says. */
    method PatchResponse(ticket: nat, updated: Option<Sync>) returns (request: Request)
      modifies this
      ensures updated.None? ==>
                State() == old(State()).RemapFails(ticket) && syncs == old(syncs) && request == NoRequest
      ensures updated.Some? ==>
                State() == old(State()) && request == RequestPreview(ticket, updated.value) &&
                syncs == if seqNo == ticket then Replace(old(syncs), updated.value) else old(syncs)
    {
      if updated.None? {
        RemapRejected(ticket);
        return NoRequest;
      }
      if seqNo == ticket { syncs := Replace(syncs, updated.value); }
      request := RequestPreview(ticket, updated.value);
    }

    method RepreviewResponse(ticket: nat, shown: Option<Shown>)
      modifies this
      ensures syncs == old(syncs)
      ensures State() == if shown.Some? then old(State()).PreviewLands(ticket, shown.value)
                         else old(State()).RemapFails(ticket)
    {
      if shown.None? {
        RemapRejected(ticket);
        return;
      }
      if seqNo == ticket {
        preview := shown;
        previewBusy := false;
      }
    }

    method RemapRejected(ticket: nat)
      modifies this
      ensures syncs == old(syncs)
      ensures State() == old(State()).RemapFails(ticket)
    {
      if seqNo != ticket { return; }
      preview := None;
      previewError := true;
      previewBusy := false;
    }

    method ApproveClick() returns (request: Request)
      modifies this
      ensures syncs == old(syncs)
      ensures var was := old(State());
              if !was.CanApprove() then State() == was && request == NoRequest
              else if !was.confirming then State() == was.Arm() && request == NoRequest
              else State() == was.ImportStarts() && request == RequestImport(seqNo, was.preview.value)
    {
      if preview.None? || previewBusy || importBusy || stale || imported.Some? { return NoRequest; }
      if !confirming {
        confirming := true;
        return NoRequest;
      }
      seqNo := seqNo + 1;
      importBusy := true;
      importError := false;
      request := RequestImport(seqNo, preview.value);
    }

    method CancelConfirm()
      modifies this
      ensures syncs == old(syncs)
      ensures State() == old(State()).CancelConfirm()
    {
      confirming := false;
    }

    method ImportResponse(ticket: nat, source: string, outcome: Option<Outcome>)
      modifies this
      ensures syncs == old(syncs)
      ensures State() == match outcome {
                           case None => old(State()).ImportFails(ticket)
                           case Some(Conflict) => old(State()).ImportConflicts(ticket)
                           case Some(_) => old(State()).ImportLands(ticket, source)
                         }
    {
      if seqNo != ticket { return; }
      match outcome {
        case Some(Conflict) =>
          stale := true;
          confirming := false;
        case Some(_) =>
          imported := Some(source);
          confirming := false;
        case None =>
          importError := true;
      }
      importBusy := false;
    }
  }

  // ---------------------------------------------------------------- panel, network and server

  /** An operation the client is waiting for. A remap is a patch, then a preview under one ticket. */
  datatype Op =
    | Previewing(sync: Sync)
    | Patching(prior: Sync, tag: string, mappedTo: string)
    | Repreviewing(sync: Sync)
    | Importing(post: nat, shown: Shown)

  /** What the browser holds: the panel, the listed syncs once they arrived, the operations it awaits. */
  datatype Client = Client(panel: Panel, syncs: seq<Sync>, loaded: bool, inflight: map<nat, Op>)

  /** An import the client posted, and what the server made of it once it was handled. */
  datatype Post = Post(shown: Shown, syncId: string, snapshot: SnapshotHash, baseline: BaselineHash,
                       outcome: Option<Outcome>)

  /** What the server's transaction ingested, for which post; `diff.source` is the catalog it went into. */
  datatype Commit = Commit(post: nat, diff: Diff)

  datatype Entry =
    | Arrived(shown: Shown)
    | RemapStarted(serial: nat)
    | PatchSeen(syncId: string, tag: string, mappedTo: string)
    | Posted(serial: nat)
    | SawSuccess(serial: nat)
    | SawConflict(serial: nat)

  /** The posts, commits and catalogs at the server, the responses counted so far, and everything in order. */
  datatype History = History(serial: nat, posts: seq<Post>, commits: seq<Commit>, log: seq<Entry>,
                             catalogs: map<string, Columns>)

  datatype World = World(client: Client, history: History)

  /** User clicks, responses arriving in any order and any number of times, and the server handling a
      post at any moment, even after the client gave up on it. A click on a control that is not there or is
      disabled does nothing: a stale preview can be run again, and cannot be remapped. */
  datatype Event =
    | Loaded(syncs: seq<Sync>)
    | Select(id: string)
    | PreviewClick
    | PreviewAgainClick
    | RemapClick(tag: string, mappedTo: string)
    | ApproveClick
    | CancelClick
    | PreviewReply(ticket: nat, pull: Option<Pull>)
    | PatchReply(ticket: nat, patched: Option<string>)
    | ImportReply(ticket: nat, delivered: bool)
    | ServerHandles(post: nat, target: string, found: seq<string>, leaves: Columns, lands: bool)
    | CatalogEdited(source: string, columns: Columns)

  const START := World(Client(FRESH, [], false, map[]), History(0, [], [], [], map[]))

  function Run(es: seq<Event>): World {
    if es == [] then START else Apply(Run(es[..|es| - 1]), es[|es| - 1])
  }

  function Apply(w: World, e: Event): World {
    World(React(w.client, w.history, e), Record(w.client, w.history, e))
  }

  predicate AwaitsPreview(c: Client, ticket: nat) {
    ticket in c.inflight && (c.inflight[ticket].Previewing? || c.inflight[ticket].Repreviewing?)
  }

  predicate AwaitsPatch(c: Client, ticket: nat) { ticket in c.inflight && c.inflight[ticket].Patching? }

  predicate AwaitsImport(c: Client, ticket: nat) { ticket in c.inflight && c.inflight[ticket].Importing? }

  /** What the client is told about an import: nothing yet, a lost connection, or the server's answer. */
  datatype Notice = Silence | Lost | Answer(outcome: Outcome)

  function NoticeFor(c: Client, h: History, ticket: nat, delivered: bool): Notice
    requires AwaitsImport(c, ticket)
  {
    var i := c.inflight[ticket].post;
    if !delivered then Lost
    else if i < |h.posts| && h.posts[i].outcome.Some? then Answer(h.posts[i].outcome.value)
    else Silence
  }

  /** A preview response: the diff together with the hashes of exactly the state it was computed from. */
  function Response(c: Client, ticket: nat, diff: Diff, serial: nat): Shown
    requires AwaitsPreview(c, ticket)
  {
    Shown(c.inflight[ticket].sync, PreviewData(diff, SnapshotHash(diff.rows), BaselineHash(diff.columns)), serial)
  }

  /** The server echoes the override it was sent; the other fields are whatever it holds by now. */
  function Patched(c: Client, ticket: nat, target: string): Sync
    requires AwaitsPatch(c, ticket)
  {
    var op := c.inflight[ticket];
    op.prior.(target := target, override := Some(Merge(op.prior.override, op.tag, op.mappedTo)))
  }

  function React(c: Client, h: History, e: Event): Client {
    var p := c.panel;
    match e
    case Loaded(syncs) => if c.loaded then c else FirstListing(c, syncs)
    case Select(id) => c.(panel := p.OnSelect(id))
    case PreviewClick =>
      var selected := Find(c.syncs, p.selectedId);
      if selected.Some? then StartPreview(c, selected.value) else c
    case PreviewAgainClick => if p.preview.Some? && p.stale then StartPreview(c, p.preview.value.sync) else c
    case RemapClick(tag, mappedTo) =>
      if p.preview.None? || p.Busy() || p.stale then c
      else Await(c, p.RemapStarts(), Patching(p.preview.value.sync, tag, mappedTo))
    case ApproveClick =>
      if !p.CanApprove() then c
      else if !p.confirming then c.(panel := p.Arm())
      else Await(c, p.ImportStarts(), Importing(|h.posts|, p.preview.value))
    case CancelClick => if p.confirming && !p.importBusy then c.(panel := p.CancelConfirm()) else c
    case PreviewReply(t, pull) =>
      var diff := BuildPreview(pull);
      if !AwaitsPreview(c, t) then c
      else if diff.Some? then Settle(c, t, p.PreviewLands(t, Response(c, t, diff.value, h.serial)))
      else Settle(c, t, if c.inflight[t].Previewing? then p.PreviewFails(t) else p.RemapFails(t))
    case PatchReply(t, target) =>
      if !AwaitsPatch(c, t) then c
      else if target.None? then Settle(c, t, p.RemapFails(t))
      else c.(syncs := if p.seqNo != t then c.syncs else Replace(c.syncs, Patched(c, t, target.value)),
              inflight := c.inflight[t := Repreviewing(Patched(c, t, target.value))])
    case ImportReply(t, delivered) =>
      if !AwaitsImport(c, t) then c
      else (match NoticeFor(c, h, t, delivered)
        case Silence => c
        case Lost => Settle(c, t, p.ImportFails(t))
        case Answer(Conflict) => Settle(c, t, p.ImportConflicts(t))
        case Answer(_) => Settle(c, t, p.ImportLands(t, c.inflight[t].shown.sync.target)))
    case ServerHandles(_, _, _, _, _) => c
    case CatalogEdited(_, _) => c
  }

  /** The object driven by one event does what the run model says. `loaded` and `inflight` are what the browser
      keeps beside the panel: whether the list has come, and the continuations waiting. */
  method Drive(panel: ConnectorPanel, loaded: bool, inflight: map<nat, Op>, h: History, e: Event)
    returns (loaded': bool, inflight': map<nat, Op>)
    modifies panel
    ensures Client(panel.State(), panel.syncs, loaded', inflight') ==
            React(old(Client(panel.State(), panel.syncs, loaded, inflight)), h, e)
  {
    loaded', inflight' := loaded, inflight;
    var c := Client(panel.State(), panel.syncs, loaded, inflight);
    match e
    case Loaded(syncs) =>
      if !loaded {
        panel.List(syncs);
        loaded' := true;
      }
    case Select(id) => panel.OnSelect(id);
    case PreviewClick =>
      var selected := Find(panel.syncs, panel.selectedId);
      if selected.Some? {
        var request := panel.RunPreview(selected.value);
        inflight' := Sent(inflight, request);
      }
    case PreviewAgainClick =>
      if panel.preview.Some? && panel.stale {
        var request := panel.RunPreview(panel.preview.value.sync);
        inflight' := Sent(inflight, request);
      }
    case RemapClick(tag, mappedTo) =>
      if !panel.stale {
        var request := panel.Remap(tag, mappedTo);
        if request.RequestPatch? { inflight' := inflight[request.ticket := Patching(request.prior, tag, mappedTo)]; }
      }
    case ApproveClick =>
      var request := panel.ApproveClick();
      if request.RequestImport? { inflight' := inflight[request.ticket := Importing(|h.posts|, request.shown)]; }
    case CancelClick =>
      if panel.confirming && !panel.importBusy { panel.CancelConfirm(); }
    case PreviewReply(t, pull) =>
      if AwaitsPreview(c, t) {
        var diff := BuildPreview(pull);
        var shown := if diff.Some? then Some(Response(c, t, diff.value, h.serial)) else None;
        if inflight[t].Previewing? {
          panel.PreviewResponse(t, shown);
        } else {
          panel.RepreviewResponse(t, shown);
        }
        inflight' := inflight - {t};
      }
    case PatchReply(t, target) =>
      if AwaitsPatch(c, t) {
        var updated := if target.Some? then Some(Patched(c, t, target.value)) else None;
        var request := panel.PatchResponse(t, updated);
        inflight' := if request.RequestPreview? then inflight[t := Repreviewing(request.sync)] else inflight - {t};
      }
    case ImportReply(t, delivered) =>
      if AwaitsImport(c, t) {
        var notice := NoticeFor(c, h, t, delivered);
        if !notice.Silence? {
          panel.ImportResponse(t, inflight[t].shown.sync.target, if notice.Lost? then None else Some(notice.outcome));
          inflight' := inflight - {t};
        }
      }
    case ServerHandles(_, _, _, _, _) =>
    case CatalogEdited(_, _) =>
  }

  function Sent(inflight: map<nat, Op>, request: Request): map<nat, Op> {
    if request.RequestPreview? then inflight[request.ticket := Previewing(request.sync)] else inflight
  }

  function FirstListing(c: Client, syncs: seq<Sync>): Client {
    var first := if syncs == [] then "" else syncs[0].id;
    c.(loaded := true, syncs := syncs,
       panel := c.panel.(selectedId := if c.panel.selectedId != "" then c.panel.selectedId else first))
  }

  function StartPreview(c: Client, sync: Sync): Client {
    if c.panel.Busy() then c else Await(c, c.panel.PreviewStarts(), Previewing(sync))
  }

  function Await(c: Client, p: Panel, op: Op): Client { c.(panel := p, inflight := c.inflight[p.seqNo := op]) }

  function Settle(c: Client, ticket: nat, p: Panel): Client { c.(panel := p, inflight := c.inflight - {ticket}) }

  /** What the event adds to the history the client leaves behind. */
  function NewEntries(c: Client, h: History, e: Event): (entries: seq<Entry>)
    ensures |entries| <= 1
  {
    var p := c.panel;
    match e
    case RemapClick(_, _) => if p.preview.None? || p.Busy() || p.stale then [] else [RemapStarted(h.serial)]
    case ApproveClick => if p.CanApprove() && p.confirming then [Posted(p.preview.value.serial)] else []
    case PreviewReply(t, pull) =>
      var diff := BuildPreview(pull);
      if AwaitsPreview(c, t) && diff.Some? && p.seqNo == t then [Arrived(Response(c, t, diff.value, h.serial))] else []
    case PatchReply(t, target) =>
      if AwaitsPatch(c, t) && target.Some? && p.seqNo == t
      then [PatchSeen(c.inflight[t].prior.id, c.inflight[t].tag, c.inflight[t].mappedTo)] else []
    case ImportReply(t, delivered) =>
      if !AwaitsImport(c, t) then []
      else (match NoticeFor(c, h, t, delivered)
        case Answer(Conflict) => [SawConflict(c.inflight[t].shown.serial)]
        case Answer(_) => [SawSuccess(c.inflight[t].shown.serial)]
        case _ => [])
    case _ => []
  }

  function Record(c: Client, h: History, e: Event): History {
    var told := h.(log := h.log + NewEntries(c, h, e));
    match e
    case ApproveClick =>
      if c.panel.CanApprove() && c.panel.confirming then Posting(told, c.panel.preview.value) else told
    case PreviewReply(t, pull) =>
      if AwaitsPreview(c, t) && BuildPreview(pull).Some? then told.(serial := h.serial + 1) else told
    case ServerHandles(i, target, found, leaves, lands) =>
      if i < |h.posts| && h.posts[i].outcome.None?
      then ImportSync(told, i, Met(h, target, found), leaves, lands)
      else told
    case CatalogEdited(source, columns) => told.(catalogs := h.catalogs[source := columns])
    case _ => told
  }

  function Posting(h: History, shown: Shown): History {
    h.(posts := h.posts + [Post(shown, shown.sync.id, shown.data.snapshot, shown.data.baseline, None)])
  }

  function CatalogOf(h: History, source: string): Columns { if source in h.catalogs then h.catalogs[source] else map[] }

  /** What an import meets: the sync's target and what the pull brings, as they are by then, and that source's
      catalog. */
  function Met(h: History, target: string, found: seq<string>): Pull { Pull(target, found, CatalogOf(h, target)) }

  /** `import_sync`: re-pull, compare both hashes, then ingest or answer 409. Ingestion leaves the catalog at `leaves`.
      The pipeline may hold or reject what it is given (`lands` is false); that too is answered with 200, and writes
      nothing. */
  function ImportSync(h: History, i: nat, now: Pull, leaves: Columns, lands: bool): History
    requires i < |h.posts|
  {
    var post := h.posts[i];
    if SnapshotHash(Against(now).rows) != post.snapshot || BaselineHash(now.columns) != post.baseline then
      h.(posts := h.posts[i := post.(outcome := Some(Conflict))])
    else if lands then
      h.(posts := h.posts[i := post.(outcome := Some(Ingested))], commits := h.commits + [Commit(i, Against(now))],
         catalogs := h.catalogs[now.target := leaves])
    else
      h.(posts := h.posts[i := post.(outcome := Some(Held))])
  }

  // ---------------------------------------------------------------- what every step keeps: the client

  /** One operation at most; each busy flag is up exactly while its operation is outstanding. */
  ghost predicate OneAtATime(c: Client) {
    && (forall t :: t in c.inflight ==> t == c.panel.seqNo)
    && (c.panel.previewBusy <==> c.panel.seqNo in c.inflight && !c.inflight[c.panel.seqNo].Importing?)
    && (c.panel.importBusy <==> c.panel.seqNo in c.inflight && c.inflight[c.panel.seqNo].Importing?)
  }

  predicate Remapping(c: Client) {
    c.panel.seqNo in c.inflight &&
    (c.inflight[c.panel.seqNo].Patching? || c.inflight[c.panel.seqNo].Repreviewing?)
  }

  ghost predicate ConfirmingIsLive(c: Client) {
    c.panel.confirming ==>
      c.panel.preview.Some? && !c.panel.previewBusy && !c.panel.stale && c.panel.imported.None?
  }

  predicate IsVerdict(entry: Entry) { entry.SawSuccess? || entry.SawConflict? }

  /** The response on screen cannot be approved: it was used up, or a remap is replacing it. */
  predicate Blocked(c: Client) { c.panel.imported.Some? || c.panel.stale || Remapping(c) }

  lemma OneAtATimeStep(c: Client, h: History, e: Event)
    requires OneAtATime(c)
    ensures OneAtATime(React(c, h, e))
  {
  }

  lemma ConfirmingStep(c: Client, h: History, e: Event)
    requires OneAtATime(c) && ConfirmingIsLive(c)
    ensures ConfirmingIsLive(React(c, h, e))
    ensures React(c, h, e).panel.confirming ==> React(c, h, e).panel.preview == c.panel.preview
    ensures React(c, h, e).panel.confirming && !c.panel.confirming ==> e == ApproveClick
  {
  }

  /** A preview changes only by being dropped or by a response landing. */
  lemma PreviewStep(c: Client, h: History, e: Event)
    requires OneAtATime(c)
    ensures var next := React(c, h, e);
            next.panel.preview.Some? && next.panel.preview != c.panel.preview ==>
              e.PreviewReply? && BuildPreview(e.pull).Some? && AwaitsPreview(c, e.ticket) &&
              next.panel.preview == Some(Response(c, e.ticket, BuildPreview(e.pull).value, h.serial))
  {
  }

  lemma BlockedStep(c: Client, h: History, e: Event)
    requires OneAtATime(c) && (c.panel.preview.Some? ==> c.panel.preview.value.serial < h.serial)
    ensures var next := React(c, h, e);
            next.panel.preview.Some? && next.panel.preview == c.panel.preview && Blocked(c) ==> Blocked(next)
  {
    match e
    case PreviewReply(_, _) =>
    case PatchReply(_, _) =>
    case ImportReply(_, _) =>
    case _ =>
  }

  lemma VerdictStep(c: Client, h: History, e: Event)
    requires OneAtATime(c) && NewEntries(c, h, e) != [] && IsVerdict(NewEntries(c, h, e)[0])
    ensures Blocked(React(c, h, e))
    ensures e.ImportReply? && AwaitsImport(c, e.ticket) &&
        NewEntries(c, h, e)[0].serial == c.inflight[e.ticket].shown.serial
    ensures React(c, h, e).inflight == map[]
  {
    assert e.ImportReply? && e.ticket == c.panel.seqNo;
    assert (c.inflight - {e.ticket}).Keys == {};
  }

  /** Outside a remap, the sync in the preview and the syncs being worked on are the listed ones. */
  ghost predicate SyncsCurrent(c: Client) {
    && (c.panel.preview.Some? && !Remapping(c) ==> Listed(c, c.panel.preview.value.sync))
    && (forall t :: t in c.inflight ==> OpListed(c, c.inflight[t]))
    && (!c.loaded ==> c.syncs == [])
  }

  ghost predicate OpListed(c: Client, op: Op) {
    match op
    case Previewing(sync) => Listed(c, sync)
    case Patching(prior, _, _) => Listed(c, prior)
    case Repreviewing(updated) => Listed(c, updated)
    case Importing(_, _) => true
  }

  ghost predicate Listed(c: Client, sync: Sync) { Find(c.syncs, sync.id) == Some(sync) }

  lemma PatchLandsListed(c: Client, h: History, ticket: nat, target: string)
    requires OneAtATime(c) && SyncsCurrent(c) && AwaitsPatch(c, ticket)
    ensures SyncsCurrent(React(c, h, PatchReply(ticket, Some(target))))
  {
    assert OpListed(c, c.inflight[ticket]);
    var updated := Patched(c, ticket, target);
    FindReplaced(c.syncs, updated, updated.id);
  }

  /** Apart from a patch landing and the first listing, no event touches the listed syncs. */
  lemma SyncsUntouched(c: Client, h: History, e: Event)
    requires !(e.PatchReply? && e.patched.Some?) && !(e.Loaded? && !c.loaded)
    ensures React(c, h, e).syncs == c.syncs && React(c, h, e).loaded == c.loaded
  {
  }

  lemma OpsStep(c: Client, h: History, e: Event, t: nat)
    requires OneAtATime(c) && SyncsCurrent(c) && t in React(c, h, e).inflight
    requires !(e.PatchReply? && e.patched.Some?) && !(e.Loaded? && !c.loaded)
    ensures OpListed(c, React(c, h, e).inflight[t])
  {
    assert t in c.inflight ==> OpListed(c, c.inflight[t]);
  }

  lemma RemapEnds(c: Client, h: History, e: Event)
    requires OneAtATime(c) && Remapping(c) && !Remapping(React(c, h, e)) && React(c, h, e).panel.preview.Some?
    ensures e.PreviewReply? && AwaitsPreview(c, e.ticket) && BuildPreview(e.pull).Some? &&
            React(c, h, e).panel.preview == Some(Response(c, e.ticket, BuildPreview(e.pull).value, h.serial))
  {
  }

  lemma SyncsStep(c: Client, h: History, e: Event)
    requires OneAtATime(c) && SyncsCurrent(c)
    ensures SyncsCurrent(React(c, h, e))
  {
    var next := React(c, h, e);
    if e.PatchReply? && e.patched.Some? {
      if AwaitsPatch(c, e.ticket) {
        PatchLandsListed(c, h, e.ticket, e.patched.value);
      }
    } else if e.Loaded? && !c.loaded {
      ListingStep(c, h, e);
    } else {
      SyncsUntouched(c, h, e);
      forall t | t in next.inflight ensures OpListed(next, next.inflight[t]) { OpsStep(c, h, e, t); }
      if next.panel.preview.Some? && !Remapping(next) {
        PreviewStep(c, h, e);
        if Remapping(c) {
          RemapEnds(c, h, e);
        }
        if e.PreviewReply? && AwaitsPreview(c, e.ticket) {
          assert OpListed(c, c.inflight[e.ticket]);
        }
      }
    }
  }

  lemma ListingStep(c: Client, h: History, e: Event)
    requires SyncsCurrent(c) && e.Loaded? && !c.loaded
    ensures SyncsCurrent(React(c, h, e))
  {
    if Remapping(c) {
      assert OpListed(c, c.inflight[c.panel.seqNo]);
    }
  }

  // ---------------------------------------------------------------- what every step keeps: the history

  /** The response really arrived, and its hashes are those of the diff it shows. */
  ghost predicate Genuine(h: History, shown: Shown) {
    && shown.serial < h.serial
    && Arrived(shown) in h.log
    && shown.data.snapshot == SnapshotHash(shown.data.diff.rows)
    && shown.data.baseline == BaselineHash(shown.data.diff.columns)
    && ForOneSource(shown.data.diff)
  }

  /** The post names one genuine response: its sync and both its hashes. */
  ghost predicate TraceablePost(h: History, post: Post) {
    && Genuine(h, post.shown)
    && post.syncId == post.shown.sync.id
    && post.snapshot == post.shown.data.snapshot
    && post.baseline == post.shown.data.baseline
  }

  ghost predicate Traceable(c: Client, h: History) {
    && (c.panel.preview.Some? ==> Genuine(h, c.panel.preview.value))
    && (forall i :: 0 <= i < |h.posts| ==> TraceablePost(h, h.posts[i]))
  }

  ghost predicate CommitsMatch(h: History) {
    forall c :: c in h.commits ==> c.post < |h.posts| && c.diff == h.posts[c.post].shown.data.diff
  }

  /** Histories only grow, and a post keeps everything but its outcome. */
  lemma Grows(c: Client, h: History, e: Event)
    ensures var next := Record(c, h, e);
            next.log == h.log + NewEntries(c, h, e) && h.serial <= next.serial && |h.posts| <= |next.posts| &&
            forall i :: 0 <= i < |h.posts| ==> h.posts[i] == next.posts[i].(outcome := h.posts[i].outcome)
  {
  }

  lemma GenuineStays(h: History, next: History, shown: Shown)
    requires h.log <= next.log && h.serial <= next.serial && Genuine(h, shown)
    ensures Genuine(next, shown)
  {
    var i :| 0 <= i < |h.log| && h.log[i] == Arrived(shown);
    assert next.log[i] == Arrived(shown);
  }

  lemma PreviewGenuine(c: Client, h: History, e: Event)
    requires OneAtATime(c) && Traceable(c, h)
    ensures var p := React(c, h, e).panel.preview; p.Some? ==> Genuine(Record(c, h, e), p.value)
  {
    var p, next := React(c, h, e).panel.preview, Record(c, h, e);
    if p.Some? {
      Grows(c, h, e);
      PreviewStep(c, h, e);
      if p == c.panel.preview {
        GenuineStays(h, next, p.value);
      } else {
        assert next.log[|h.log|] == Arrived(p.value);
        PreviewedForOneSource(e.pull);
      }
    }
  }

  lemma PostGenuine(c: Client, h: History, e: Event, i: nat)
    requires Traceable(c, h) && i < |Record(c, h, e).posts|
    ensures TraceablePost(Record(c, h, e), Record(c, h, e).posts[i])
  {
    var next := Record(c, h, e);
    Grows(c, h, e);
    if i < |h.posts| {
      assert TraceablePost(h, h.posts[i]);
      GenuineStays(h, next, h.posts[i].shown);
    } else {
      GenuineStays(h, next, c.panel.preview.value);
    }
  }

  lemma TraceableStep(c: Client, h: History, e: Event)
    requires OneAtATime(c) && Traceable(c, h)
    ensures Traceable(React(c, h, e), Record(c, h, e))
  {
    PreviewGenuine(c, h, e);
    forall i | 0 <= i < |Record(c, h, e).posts|
      ensures TraceablePost(Record(c, h, e), Record(c, h, e).posts[i])
    {
      PostGenuine(c, h, e, i);
    }
  }

  lemma CommitsStep(c: Client, h: History, e: Event)
    requires Traceable(c, h) && CommitsMatch(h)
    ensures CommitsMatch(Record(c, h, e))
  {
    Grows(c, h, e);
    if e.ServerHandles? && |h.commits| < |Record(c, h, e).commits| {
      assert TraceablePost(h, h.posts[e.post]);
      HashesFixSource(h.posts[e.post].shown.data.diff, Met(h, e.target, e.found));
    }
  }

  /** The client saw this response's import succeed or go stale. */
  ghost predicate Spent(log: seq<Entry>, serial: nat) {
    exists i :: 0 <= i < |log| && IsVerdict(log[i]) && log[i].serial == serial
  }

  ghost predicate Outdated(log: seq<Entry>, serial: nat) {
    exists i :: 0 <= i < |log| && log[i].RemapStarted? && serial < log[i].serial
  }

  /** Numbers in the history are numbers of responses that arrived. */
  ghost predicate Numbered(h: History) {
    forall i :: 0 <= i < |h.log| ==>
      match h.log[i] {
        case Arrived(shown) => shown.serial < h.serial
        case RemapStarted(serial) => serial <= h.serial
        case SawSuccess(serial) => serial < h.serial
        case SawConflict(serial) => serial < h.serial
        case _ => true
      }
  }

  /** A used-up response is on screen only where it cannot be approved; one that predates a remap only
      while that remap is under way; and what is being imported is neither. */
  ghost predicate OldBlocked(c: Client, h: History) {
    && (c.panel.preview.Some? && Spent(h.log, c.panel.preview.value.serial) ==> Blocked(c))
    && (c.panel.preview.Some? && Outdated(h.log, c.panel.preview.value.serial) ==> Remapping(c))
  }

  ghost predicate PendingFresh(c: Client, h: History) {
    forall t :: t in c.inflight && c.inflight[t].Importing? ==>
      c.inflight[t].shown.serial < h.serial && !Spent(h.log, c.inflight[t].shown.serial)
  }

  lemma NumberedStep(c: Client, h: History, e: Event)
    requires PendingFresh(c, h) && Numbered(h)
    ensures Numbered(Record(c, h, e))
  {
    Grows(c, h, e);
  }

  lemma SpentGrows(log: seq<Entry>, entries: seq<Entry>, serial: nat)
    requires |entries| <= 1
    ensures Spent(log + entries, serial) <==>
              Spent(log, serial) || (entries != [] && IsVerdict(entries[0]) && entries[0].serial == serial)
    ensures Outdated(log + entries, serial) <==>
              Outdated(log, serial) || (entries != [] && entries[0].RemapStarted? && serial < entries[0].serial)
  {
    var all := log + entries;
    if Spent(log, serial) {
      var i :| 0 <= i < |log| && IsVerdict(log[i]) && log[i].serial == serial;
      assert all[i] == log[i];
    }
    if Outdated(log, serial) {
      var i :| 0 <= i < |log| && log[i].RemapStarted? && serial < log[i].serial;
      assert all[i] == log[i];
    }
    if entries != [] {
      assert all[|log|] == entries[0];
    }
  }

  lemma FreshIsNeither(h: History)
    requires Numbered(h)
    ensures !Spent(h.log, h.serial) && !Outdated(h.log, h.serial)
  {
  }

  lemma RemappingStep(c: Client, h: History, e: Event)
    requires OneAtATime(c) && (c.panel.preview.Some? ==> c.panel.preview.value.serial < h.serial)
    ensures var next := React(c, h, e);
            next.panel.preview.Some? && next.panel.preview == c.panel.preview && Remapping(c) ==> Remapping(next)
  {
    match e
    case PreviewReply(_, _) =>
    case PatchReply(_, _) =>
    case ImportReply(_, _) =>
    case _ =>
  }

  lemma RemapStartStep(c: Client, h: History, e: Event)
    ensures NewEntries(c, h, e) != [] && NewEntries(c, h, e)[0].RemapStarted? ==> Remapping(React(c, h, e))
  {
  }

  lemma OldBlockedStep(c: Client, h: History, e: Event)
    requires OneAtATime(c) && Traceable(c, h) && Numbered(h) && OldBlocked(c, h)
    ensures OldBlocked(React(c, h, e), Record(c, h, e))
  {
    var p, entries := React(c, h, e).panel.preview, NewEntries(c, h, e);
    if p.Some? {
      SpentGrows(h.log, entries, p.value.serial);
      Grows(c, h, e);
      PreviewStep(c, h, e);
      FreshIsNeither(h);
      BlockedStep(c, h, e);
      RemappingStep(c, h, e);
      RemapStartStep(c, h, e);
      if entries != [] && IsVerdict(entries[0]) {
        VerdictStep(c, h, e);
      }
    }
  }

  lemma PendingStep(c: Client, h: History, e: Event)
    requires OneAtATime(c)
    ensures var next := React(c, h, e);
            forall t :: t in next.inflight && next.inflight[t].Importing? ==>
              (t in c.inflight && next.inflight[t] == c.inflight[t]) ||
              (c.panel.CanApprove() && next.inflight[t].shown == c.panel.preview.value)
  {
  }

  lemma PendingFreshStep(c: Client, h: History, e: Event)
    requires OneAtATime(c) && Traceable(c, h) && OldBlocked(c, h) && PendingFresh(c, h)
    ensures PendingFresh(React(c, h, e), Record(c, h, e))
  {
    var next, entries := React(c, h, e), NewEntries(c, h, e);
    Grows(c, h, e);
    PendingStep(c, h, e);
    forall t | t in next.inflight && next.inflight[t].Importing?
      ensures next.inflight[t].shown.serial < h.serial && !Spent(h.log + entries, next.inflight[t].shown.serial)
    {
      SpentGrows(h.log, entries, next.inflight[t].shown.serial);
      if entries != [] && IsVerdict(entries[0]) {
        VerdictStep(c, h, e);
      }
    }
  }

  /** What may come before what: nothing is posted after it was outdated by a remap or used up, no
      response is used up twice, and responses are numbered as they arrive. */
  predicate MayPrecede(a: Entry, b: Entry) {
    && (a.RemapStarted? && b.Posted? ==> a.serial <= b.serial)
    && (IsVerdict(a) && (IsVerdict(b) || b.Posted?) ==> a.serial != b.serial)
    && (a.Arrived? && b.Arrived? ==> a.shown.serial < b.shown.serial)
    && (a.Arrived? && b.RemapStarted? ==> a.shown.serial < b.serial)
  }

  ghost predicate OrderedHistory(log: seq<Entry>) {
    forall i, j :: 0 <= i < j < |log| ==> MayPrecede(log[i], log[j])
  }

  lemma NewEntryFits(c: Client, h: History, e: Event, i: nat)
    requires OneAtATime(c) && Numbered(h) && OldBlocked(c, h) && PendingFresh(c, h)
    requires i < |h.log| && NewEntries(c, h, e) != []
    ensures MayPrecede(h.log[i], NewEntries(c, h, e)[0])
  {
    var a, b := h.log[i], NewEntries(c, h, e)[0];
    if b.Posted? {
      assert !Spent(h.log, b.serial) && !Outdated(h.log, b.serial);
    }
    if IsVerdict(b) {
      VerdictStep(c, h, e);
      assert !Spent(h.log, b.serial);
    }
  }

  lemma HistoryStep(c: Client, h: History, e: Event)
    requires OneAtATime(c) && Numbered(h) && OldBlocked(c, h) && PendingFresh(c, h) && OrderedHistory(h.log)
    ensures OrderedHistory(Record(c, h, e).log)
  {
    var log := Record(c, h, e).log;
    Grows(c, h, e);
    forall i, j | 0 <= i < j < |log| ensures MayPrecede(log[i], log[j]) {
      assert log[i] == h.log[i];
      if j == |h.log| {
        NewEntryFits(c, h, e, i);
      }
    }
  }

  /** The latest value the client saw patched in for this tag of this sync. */
  function LastChoice(log: seq<Entry>, syncId: string, tag: string): Option<string> {
    if log == [] then None
    else
      var last := log[|log| - 1];
      if last.PatchSeen? && last.syncId == syncId && last.tag == tag then Some(last.mappedTo)
      else LastChoice(log[..|log| - 1], syncId, tag)
  }

  ghost predicate ChoiceKept(syncs: seq<Sync>, id: string, tag: string, mappedTo: string) {
    var sync := Find(syncs, id);
    sync.Some? && sync.value.override.Some? && tag in sync.value.override.value &&
    sync.value.override.value[tag] == mappedTo
  }

  ghost predicate ChoicesKept(syncs: seq<Sync>, log: seq<Entry>) {
    forall id, tag :: LastChoice(log, id, tag).Some? ==> ChoiceKept(syncs, id, tag, LastChoice(log, id, tag).value)
  }

  lemma PatchedChoices(c: Client, log: seq<Entry>, ticket: nat, target: string)
    requires SyncsCurrent(c) && ChoicesKept(c.syncs, log) && AwaitsPatch(c, ticket)
    ensures var op := c.inflight[ticket];
            ChoicesKept(Replace(c.syncs, Patched(c, ticket, target)),
                log + [PatchSeen(op.prior.id, op.tag, op.mappedTo)])
  {
    var op := c.inflight[ticket];
    assert OpListed(c, op);
    var longer := log + [PatchSeen(op.prior.id, op.tag, op.mappedTo)];
    assert longer[..|longer| - 1] == log;
    forall id, tag | LastChoice(longer, id, tag).Some?
      ensures ChoiceKept(Replace(c.syncs, Patched(c, ticket, target)), id, tag, LastChoice(longer, id, tag).value)
    {
      FindReplaced(c.syncs, Patched(c, ticket, target), id);
      if !(id == op.prior.id && tag == op.tag) {
        assert LastChoice(longer, id, tag) == LastChoice(log, id, tag);
        assert ChoiceKept(c.syncs, id, tag, LastChoice(log, id, tag).value);
      }
    }
  }

  lemma OtherEntryKeepsChoices(log: seq<Entry>, entries: seq<Entry>, id: string, tag: string)
    requires |entries| <= 1 && (entries != [] ==> !entries[0].PatchSeen?)
    ensures LastChoice(log + entries, id, tag) == LastChoice(log, id, tag)
  {
    if entries == [] {
      assert log + entries == log;
    } else {
      assert (log + entries)[..|log|] == log;
    }
  }

  lemma SyncsStayUnlessPatched(c: Client, h: History, e: Event)
    requires OneAtATime(c) && SyncsCurrent(c)
    ensures var entries := NewEntries(c, h, e);
            if entries != [] && entries[0].PatchSeen?
            then e.PatchReply? && e.patched.Some? && AwaitsPatch(c, e.ticket) &&
                 React(c, h, e).syncs == Replace(c.syncs, Patched(c, e.ticket, e.patched.value)) &&
                 entries[0] == PatchSeen(c.inflight[e.ticket].prior.id, c.inflight[e.ticket].tag,
                     c.inflight[e.ticket].mappedTo)
            else React(c, h, e).syncs == c.syncs || c.syncs == []
  {
  }

  lemma ChoicesStep(c: Client, h: History, e: Event)
    requires OneAtATime(c) && SyncsCurrent(c) && ChoicesKept(c.syncs, h.log)
    ensures ChoicesKept(React(c, h, e).syncs, Record(c, h, e).log)
  {
    var syncs, entries := React(c, h, e).syncs, NewEntries(c, h, e);
    Grows(c, h, e);
    SyncsStayUnlessPatched(c, h, e);
    if entries != [] && entries[0].PatchSeen? {
      PatchedChoices(c, h.log, e.ticket, e.patched.value);
      assert entries == [entries[0]];
    } else {
      forall id, tag | LastChoice(h.log + entries, id, tag).Some?
        ensures ChoiceKept(syncs, id, tag, LastChoice(h.log + entries, id, tag).value)
      {
        OtherEntryKeepsChoices(h.log, entries, id, tag);
        assert ChoiceKept(c.syncs, id, tag, LastChoice(h.log, id, tag).value);
      }
    }
  }

  // ---------------------------------------------------------------- every run

  ghost predicate Safe(w: World) {
    var c, h := w.client, w.history;
    && OneAtATime(c) && ConfirmingIsLive(c) && SyncsCurrent(c)
    && Traceable(c, h) && CommitsMatch(h) && Numbered(h) && OldBlocked(c, h) && PendingFresh(c, h)
    && OrderedHistory(h.log) && ChoicesKept(c.syncs, h.log)
  }

  lemma SafeStep(w: World, e: Event)
    requires Safe(w)
    ensures Safe(Apply(w, e))
  {
    var c, h := w.client, w.history;
    OneAtATimeStep(c, h, e);
    ConfirmingStep(c, h, e);
    SyncsStep(c, h, e);
    TraceableStep(c, h, e);
    CommitsStep(c, h, e);
    NumberedStep(c, h, e);
    OldBlockedStep(c, h, e);
    PendingFreshStep(c, h, e);
    HistoryStep(c, h, e);
    ChoicesStep(c, h, e);
  }

  lemma {:induction false} RunSafe(es: seq<Event>)
    ensures Safe(Run(es))
  {
    if es != [] {
      RunSafe(es[..|es| - 1]);
      SafeStep(Run(es[..|es| - 1]), es[|es| - 1]);
    }
  }

  /** At most one operation is in flight, so the flags are never both up and never stuck, and no response
      is ever turned away by its ticket. */
  lemma OneOperationInFlight(es: seq<Event>)
    ensures var c := Run(es).client;
            && |c.inflight| <= 1
            && !(c.panel.previewBusy && c.panel.importBusy)
            && (c.panel.Busy() <==> c.inflight != map[])
            && (forall t :: t in c.inflight ==>
                  (t == c.panel.seqNo && (c.panel.importBusy <==> c.inflight[t].Importing?)))
  {
    RunSafe(es);
    var c := Run(es).client;
    if c.inflight != map[] {
      var t :| t in c.inflight;
      assert c.inflight.Keys == {t};
    }
  }

  /** The panel after each prefix of the run: before the first event, after one, and so on. */
  function Panels(es: seq<Event>): (ps: seq<Panel>)
    ensures |ps| == |es| + 1
  {
    if es == [] then [START.client.panel] else Panels(es[..|es| - 1]) + [Run(es).client.panel]
  }

  lemma {:induction false} PanelAfter(es: seq<Event>, k: nat)
    requires k <= |es|
    ensures Panels(es)[k] == Run(es[..k]).client.panel
  {
    if k == |es| {
      assert es[..k] == es;
    } else {
      PanelAfter(es[..|es| - 1], k);
      assert es[..|es| - 1][..k] == es[..k];
    }
  }

  lemma RunSnoc(es: seq<Event>, e: Event)
    ensures Run(es + [e]) == Apply(Run(es), e)
    ensures Panels(es + [e]) == Panels(es) + [Run(es + [e]).client.panel]
  {
    assert (es + [e])[..|es|] == es;
  }

  /** From event `i`, an approve click that was not yet a confirming one, to the end of the run, this
      preview stayed on screen and the panel kept asking for confirmation. */
  ghost predicate HeldSince(es: seq<Event>, panels: seq<Panel>, i: nat, preview: Option<Shown>)
    requires |panels| == |es| + 1
  {
    && i < |es| && es[i] == ApproveClick && !panels[i].confirming
    && (forall k :: i <= k <= |es| ==> panels[k].preview == preview)
    && (forall k :: i < k <= |es| ==> panels[k].confirming)
  }

  lemma HeldLonger(es: seq<Event>, panels: seq<Panel>, e: Event, after: Panel, i: nat, preview: Option<Shown>)
    requires |panels| == |es| + 1 && HeldSince(es, panels, i, preview)
    requires after.preview == preview && after.confirming
    ensures HeldSince(es + [e], panels + [after], i, preview)
  {
  }

  lemma ConfirmingAfter(prefix: seq<Event>, e: Event)
    requires Run(prefix + [e]).client.panel.confirming
    ensures var was, now := Run(prefix).client.panel, Run(prefix + [e]).client.panel;
            && now.preview.Some? && now.preview == was.preview
            && (!was.confirming ==> e == ApproveClick)
  {
    RunSnoc(prefix, e);
    RunSafe(prefix);
    ConfirmingStep(Run(prefix).client, Run(prefix).history, e);
  }

  /** The confirming state goes back to one approve click, and the preview has not changed since. */
  lemma {:induction false} ArmedByOneClick(es: seq<Event>) returns (i: nat)
    requires Run(es).client.panel.confirming
    ensures HeldSince(es, Panels(es), i, Run(es).client.panel.preview) && Run(es).client.panel.preview.Some?
  {
    var prefix, e := es[..|es| - 1], es[|es| - 1];
    var now := Run(es).client.panel;
    assert es == prefix + [e];
    ConfirmingAfter(prefix, e);
    RunSnoc(prefix, e);
    if Run(prefix).client.panel.confirming {
      i := ArmedByOneClick(prefix);
      HeldLonger(prefix, Panels(prefix), e, now, i, now.preview);
    } else {
      i := |prefix|;
      PanelAfter(prefix, |prefix|);
      assert prefix[..|prefix|] == prefix;
      JustArmed(prefix, Panels(prefix), now);
    }
  }

  lemma JustArmed(prefix: seq<Event>, panels: seq<Panel>, now: Panel)
    requires |panels| == |prefix| + 1 && !panels[|prefix|].confirming && now.confirming
    requires panels[|prefix|].preview == now.preview
    ensures HeldSince(prefix + [ApproveClick], panels + [now], |prefix|, now.preview)
  {
  }

  /** The file's promise. Whatever happens around it, the step that posts an import posts the sync id and
      the two hashes of one response that arrived for that sync; and that response, diff included, was on
      screen without interruption from the first approve click to the confirming one. */
  lemma PostedWasReviewed(es: seq<Event>, e: Event) returns (i: nat)
    requires |Apply(Run(es), e).history.posts| > |Run(es).history.posts|
    ensures var w, posts := Run(es), Apply(Run(es), e).history.posts;
            && e == ApproveClick && w.client.panel.preview.Some?
            && Genuine(w.history, w.client.panel.preview.value)
            && var shown := w.client.panel.preview.value;
               posts == w.history.posts +
                        [Post(shown, shown.sync.id, shown.data.snapshot, shown.data.baseline, None)]
    ensures HeldSince(es, Panels(es), i, Run(es).client.panel.preview)
  {
    var w := Run(es);
    RunSafe(es);
    PostStep(w.client, w.history, e);
    i := ArmedByOneClick(es);
  }

  lemma PostStep(c: Client, h: History, e: Event)
    requires |Record(c, h, e).posts| > |h.posts|
    ensures e == ApproveClick && c.panel.confirming && c.panel.preview.Some?
    ensures var shown := c.panel.preview.value;
            Record(c, h, e).posts ==
            h.posts + [Post(shown, shown.sync.id, shown.data.snapshot, shown.data.baseline, None)]
  {
  }

  /** What the server commits is the diff that was shown, in the source that diff was computed for. */
  lemma CommittedWasShown(es: seq<Event>, c: Commit)
    requires c in Run(es).history.commits
    ensures var h := Run(es).history;
            c.post < |h.posts| && TraceablePost(h, h.posts[c.post]) && c.diff == h.posts[c.post].shown.data.diff
  {
    RunSafe(es);
  }

  /** Event `i` brought this response, computed from `pull`, for the copy of the sync the client had listed. */
  ghost predicate BroughtBy(es: seq<Event>, i: nat, shown: Shown, pull: Pull) {
    && i < |es| && es[i].PreviewReply? && es[i].pull == Some(pull)
    && shown.data.diff == Against(pull)
    && Listed(Run(es[..i]).client, shown.sync)
  }

  /** Every response in the history was brought by an event of the run. */
  lemma {:induction false} ArrivedBy(es: seq<Event>, shown: Shown) returns (i: nat, pull: Pull)
    requires Arrived(shown) in Run(es).history.log
    ensures BroughtBy(es, i, shown, pull)
  {
    var prefix, e := es[..|es| - 1], es[|es| - 1];
    if Arrived(shown) in Run(prefix).history.log {
      i, pull := ArrivedBy(prefix, shown);
      assert prefix[..i] == es[..i];
    } else {
      RunSafe(prefix);
      ArrivalStep(Run(prefix).client, Run(prefix).history, e, shown);
      i, pull := |prefix|, e.pull.value;
    }
  }

  lemma ArrivalStep(c: Client, h: History, e: Event, shown: Shown)
    requires SyncsCurrent(c) && Arrived(shown) in Record(c, h, e).log && Arrived(shown) !in h.log
    ensures e.PreviewReply? && e.pull.Some? && shown.data.diff == Against(e.pull.value) && Listed(c, shown.sync)
  {
    Grows(c, h, e);
    assert OpListed(c, c.inflight[e.ticket]);
  }

  /** The panel names the target of its own copy of the sync, from the listing or from the last patch. A commit
      goes into the source so named exactly when that copy was current as the preview was computed; what
      happens to the target afterwards does not matter. */
  lemma CommittedTarget(es: seq<Event>, c: Commit) returns (i: nat, pull: Pull)
    requires c in Run(es).history.commits
    ensures c.post < |Run(es).history.posts|
    ensures var shown := Run(es).history.posts[c.post].shown;
            && BroughtBy(es, i, shown, pull)
            && c.diff.source == pull.target
            && var copy := Find(Run(es[..i]).client.syncs, shown.sync.id);
               copy.Some? && (c.diff.source == shown.sync.target <==> copy.value.target == pull.target)
  {
    CommittedWasShown(es, c);
    i, pull := ArrivedBy(es, Run(es).history.posts[c.post].shown);
  }

  /** Listing a sync and previewing it. */
  lemma PreviewedRun(sync: Sync, pull: Pull) returns (es: seq<Event>)
    requires sync.id == "s" && pull.found != []
    ensures var shown := ShownFor(sync, pull);
            Run(es) == World(Client(FRESH.(selectedId := "s", preview := Some(shown), seqNo := 1), [sync], true, map[]),
                             History(1, [], [], [Arrived(shown)], map[]))
  {
    var listed := FRESH.(selectedId := "s");
    es := [Loaded([sync])];
    RunSnoc([], Loaded([sync]));
    assert [] + es == es;
    assert Run(es) == World(Client(listed, [sync], true, map[]), START.history);
    assert Find([sync], "s") == Some(sync);
    RunSnoc(es, PreviewClick);
    es := es + [PreviewClick];
    assert Run(es) == World(Client(listed.PreviewStarts(), [sync], true, map[1 := Previewing(sync)]), START.history);
    RunSnoc(es, PreviewReply(1, Some(pull)));
    es := es + [PreviewReply(1, Some(pull))];
    assert map[1 := Previewing(sync)] - {1} == map[];
    assert [] + [Arrived(ShownFor(sync, pull))] == [Arrived(ShownFor(sync, pull))];
  }

  function ShownFor(sync: Sync, pull: Pull): Shown {
    var diff := Against(pull);
    Shown(sync, PreviewData(diff, SnapshotHash(diff.rows), BaselineHash(diff.columns)), 0)
  }

  function PostOf(shown: Shown, outcome: Option<Outcome>): Post {
    Post(shown, shown.sync.id, shown.data.snapshot, shown.data.baseline, outcome)
  }

  /** The panel waiting for its first import, and what the server has of it. */
  function FirstPosted(sync: Sync, shown: Shown): World {
    var p := FRESH.(selectedId := "s", preview := Some(shown), seqNo := 2, confirming := true, importBusy := true);
    World(Client(p, [sync], true, map[2 := Importing(0, shown)]),
          History(1, [PostOf(shown, None)], [], [Arrived(shown), Posted(0)], map[]))
  }

  /** And approving it, in two clicks. */
  lemma PostedRun(sync: Sync, pull: Pull) returns (es: seq<Event>)
    requires sync.id == "s" && pull.found != []
    ensures Run(es) == FirstPosted(sync, ShownFor(sync, pull))
  {
    es := PreviewedRun(sync, pull);
    var shown, w := ShownFor(sync, pull), Run(es);
    var armed := w.(client := w.client.(panel := w.client.panel.(confirming := true)));
    RunSnoc(es, ApproveClick);
    es := es + [ApproveClick];
    assert w.history.log + [] == w.history.log;
    assert Run(es) == armed;
    RunSnoc(es, ApproveClick);
    es := es + [ApproveClick];
    assert [Arrived(shown)] + [Posted(0)] == [Arrived(shown), Posted(0)];
    assert [] + [PostOf(shown, None)] == [PostOf(shown, None)];
  }

  /** A run in which the client's copy was out of date: the panel says "deposits" from preview to approval, and
      the rows, reviewed as shown, go into "loans". */
  lemma OldCopyMisnamesTarget() returns (es: seq<Event>)
    ensures var h := Run(es).history;
            |h.commits| == 1 && h.commits[0].post < |h.posts| && h.commits[0].diff.rows != multiset{} &&
            h.commits[0].diff.source != h.posts[h.commits[0].post].shown.sync.target
  {
    var sync, pull := Sync("s", "om", "deposits", None), Pull("loans", ["accounts.id"], map[]);
    es := PostedRun(sync, pull);
    var before, handling := Run(es).history, ServerHandles(0, "loans", ["accounts.id"], map[], true);
    RunSnoc(es, handling);
    es := es + [handling];
    assert Met(before, "loans", ["accounts.id"]) == pull;
    assert Run(es).history.commits == before.commits + [Commit(0, Against(pull))];
    TranslatedForTarget("loans", ["accounts.id"]);
    assert "loans"[0] != "deposits"[0];
  }

  // ---------------------------------------------------------------- one response, two commits

  /** Event `k` of the run made commit `p`, against the catalog as it stood, and left the catalog as it says. */
  ghost predicate MadeBy(es: seq<Event>, k: nat, p: nat, c: Commit) {
    && k < |es| && es[k].ServerHandles? && es[k].target == c.diff.source
    && |Run(es[..k]).history.commits| == p
    && CatalogOf(Run(es[..k]).history, c.diff.source) == c.diff.columns
    && CatalogOf(Run(es[..k + 1]).history, c.diff.source) == es[k].leaves
    && |Run(es[..k + 1]).history.commits| == p + 1
  }

  lemma CommitMade(w: World, e: Event)
    ensures var before, after := w.history, Apply(w, e).history;
            || after.commits == before.commits
            || (&& e.ServerHandles? && |after.commits| == |before.commits| + 1
                && after.commits[..|before.commits|] == before.commits
                && var c := after.commits[|before.commits|];
                   && e.target == c.diff.source && CatalogOf(before, e.target) == c.diff.columns
                   && CatalogOf(after, e.target) == e.leaves)
  {
  }

  lemma {:induction false} MadeByEvent(es: seq<Event>, p: nat) returns (k: nat)
    requires p < |Run(es).history.commits|
    ensures MadeBy(es, k, p, Run(es).history.commits[p])
  {
    var n := |es| - 1;
    var prefix, e := es[..n], es[n];
    CommitMade(Run(prefix), e);
    if p < |Run(prefix).history.commits| {
      k := MadeByEvent(prefix, p);
      assert prefix[..k] == es[..k] && prefix[..k + 1] == es[..k + 1];
      assert Run(es).history.commits[p] == Run(prefix).history.commits[p];
    } else {
      k := n;
      assert es[..k + 1] == es;
    }
  }

  lemma {:induction false} CommitsGrow(es: seq<Event>, k: nat)
    requires k <= |es|
    ensures |Run(es[..k]).history.commits| <= |Run(es).history.commits|
  {
    if k == |es| {
      assert es[..k] == es;
    } else {
      var prefix := es[..|es| - 1];
      CommitsGrow(prefix, k);
      assert prefix[..k] == es[..k];
      CommitMade(Run(prefix), es[|es| - 1]);
    }
  }

  /** Event `j` brought the source's catalog to `columns`, from something else. */
  ghost predicate Brings(es: seq<Event>, j: nat, source: string, columns: Columns) {
    && j < |es| && CatalogOf(Run(es[..j]).history, source) != columns
    && CatalogOf(Run(es[..j + 1]).history, source) == columns
  }

  lemma BroughtBack(es: seq<Event>, source: string, columns: Columns, lo: nat, hi: nat) returns (j: nat)
    requires lo <= hi <= |es| && CatalogOf(Run(es[..lo]).history, source) != columns
    requires CatalogOf(Run(es[..hi]).history, source) == columns
    ensures lo <= j < hi && Brings(es, j, source, columns)
  {
    var there := Standing(es, source, columns);
    j := LastChange(there, lo, hi);
    StandingAt(es, j, source, columns);
  }

  /** After which prefixes of the run the source's catalog stood at `columns`. */
  ghost function Standing(es: seq<Event>, source: string, columns: Columns): (r: seq<bool>)
    ensures |r| == |es| + 1
    ensures forall k :: 0 <= k <= |es| ==> r[k] == (CatalogOf(Run(es[..k]).history, source) == columns)
  {
    seq(|es| + 1, k requires 0 <= k <= |es| => CatalogOf(Run(es[..k]).history, source) == columns)
  }

  lemma StandingAt(es: seq<Event>, j: nat, source: string, columns: Columns)
    requires j < |es| && !Standing(es, source, columns)[j] && Standing(es, source, columns)[j + 1]
    ensures Brings(es, j, source, columns)
  {
  }

  lemma {:induction false} LastChange(there: seq<bool>, lo: nat, hi: nat) returns (j: nat)
    requires lo <= hi < |there| && !there[lo] && there[hi]
    ensures lo <= j < hi && !there[j] && there[j + 1]
  {
    if there[hi - 1] { j := LastChange(there, lo, hi - 1); } else { j := hi - 1; }
  }

  /** A second commit of one response needs the catalog to stand at the baseline that was shown: either the first one
      left it there, or some event in between brought it back. */
  lemma SecondCommit(es: seq<Event>, p: nat, q: nat) returns (a: nat, b: nat)
    requires var h := Run(es).history;
             && p < q < |h.commits| && h.commits[p].post < |h.posts| && h.commits[q].post < |h.posts|
             && h.posts[h.commits[p].post].shown == h.posts[h.commits[q].post].shown
    ensures var h := Run(es).history;
            var diff := h.posts[h.commits[p].post].shown.data.diff;
            && a < b && MadeBy(es, a, p, h.commits[p]) && MadeBy(es, b, q, h.commits[q])
            && h.commits[p].diff == h.commits[q].diff == diff
            && CatalogOf(Run(es[..b]).history, diff.source) == diff.columns
            && (es[a].leaves != diff.columns ==> exists j :: a < j < b && Brings(es, j, diff.source, diff.columns))
  {
    var h := Run(es).history;
    assert h.commits[p] in h.commits && h.commits[q] in h.commits;
    CommittedWasShown(es, h.commits[p]);
    CommittedWasShown(es, h.commits[q]);
    a := MadeByEvent(es, p);
    b := MadeByEvent(es, q);
    MadeInOrder(es, a, p, h.commits[p], b, q, h.commits[q]);
    var diff := h.commits[p].diff;
    if es[a].leaves != diff.columns {
      var j := BroughtBack(es, diff.source, diff.columns, a + 1, b);
    }
  }

  lemma CommitsOrdered(es: seq<Event>, i: nat, j: nat)
    requires i <= |es| && j <= |es|
    ensures i <= j ==> |Run(es[..i]).history.commits| <= |Run(es[..j]).history.commits|
  {
    if i <= j {
      CommitsGrow(es[..j], i);
      assert es[..j][..i] == es[..i];
    }
  }

  lemma MadeInOrder(es: seq<Event>, a: nat, p: nat, c: Commit, b: nat, q: nat, d: Commit)
    requires MadeBy(es, a, p, c) && MadeBy(es, b, q, d) && p < q
    ensures a < b
  {
    CommitsOrdered(es, b + 1, a + 1);
  }

  /** Such a run: the answer to the first import is lost, the catalog is put back by hand, and the confirming click
      posts the same response again. */
  lemma CommittedTwice() returns (es: seq<Event>)
    ensures var h := Run(es).history;
            && |h.commits| == 2 && |h.posts| == 2 && h.commits[0].post == 0 && h.commits[1].post == 1
            && h.posts[0].shown == h.posts[1].shown
  {
    var sync, pull := Sync("s", "om", "deposits", None), Pull("deposits", ["accounts.id"], map[]);
    es := PostedRun(sync, pull);
    es := LostAnswer(es, sync, pull);
    es := PostsAgain(es, sync, pull);
    var before := Run(es).history;
    var handling := ServerHandles(1, "deposits", ["accounts.id"], map["accounts.id" := "pii"], true);
    RunSnoc(es, handling);
    es := es + [handling];
    assert Met(before, "deposits", ["accounts.id"]) == pull;
    assert Run(es).history == ImportSync(before, 1, pull, map["accounts.id" := "pii"], true) by {
      assert before.log + [] == before.log;
    }
  }

  lemma PostsAgain(es: seq<Event>, sync: Sync, pull: Pull) returns (more: seq<Event>)
    requires var shown, w := ShownFor(sync, pull), Run(es);
             && w.client.panel.CanApprove() && w.client.panel.confirming && w.client.panel.preview == Some(shown)
             && w.history.posts == [PostOf(shown, Some(Ingested))] && w.history.commits == [Commit(0, Against(pull))]
    ensures var shown, h := ShownFor(sync, pull), Run(more).history;
            && h.posts == [PostOf(shown, Some(Ingested)), PostOf(shown, None)]
            && h.commits == [Commit(0, Against(pull))] && CatalogOf(h, "deposits") == map[]
  {
    RunSnoc(es, ApproveClick);
    more := es + [ApproveClick];
    var before := Run(more).history;
    RunSnoc(more, CatalogEdited("deposits", map[]));
    more := more + [CatalogEdited("deposits", map[])];
    assert Run(more).history.posts == before.posts && Run(more).history.commits == before.commits;
  }

  lemma LostAnswer(es: seq<Event>, sync: Sync, pull: Pull) returns (more: seq<Event>)
    requires pull == Pull("deposits", ["accounts.id"], map[])
    requires Run(es) == FirstPosted(sync, ShownFor(sync, pull))
    ensures var shown, w := ShownFor(sync, pull), Run(more);
            && w.client.panel.CanApprove() && w.client.panel.confirming && w.client.panel.preview == Some(shown)
            && w.history.posts == [PostOf(shown, Some(Ingested))] && w.history.commits == [Commit(0, Against(pull))]
  {
    var handling := ServerHandles(0, "deposits", ["accounts.id"], map["accounts.id" := "pii"], true);
    var before := Run(es).history;
    RunSnoc(es, handling);
    more := es + [handling];
    assert Met(before, "deposits", ["accounts.id"]) == pull;
    assert Run(more).history.posts == [PostOf(ShownFor(sync, pull), Some(Ingested))];
    assert Run(more).client == Run(es).client;
    RunSnoc(more, ImportReply(2, false));
    more := more + [ImportReply(2, false)];
  }

  /** Once a remap starts, no response that arrived before it is ever posted again. */
  lemma RemapOutdatesPreviews(es: seq<Event>, i: nat, j: nat, k: nat)
    requires i < j < k < |Run(es).history.log|
    requires var log := Run(es).history.log; log[i].Arrived? && log[j].RemapStarted? && log[k].Posted?
    ensures var log := Run(es).history.log; log[k].serial != log[i].shown.serial
  {
    RunSafe(es);
    var log := Run(es).history.log;
    assert MayPrecede(log[i], log[j]) && MayPrecede(log[j], log[k]);
  }

  /** One response backs at most one import seen to succeed, and none after a 409 or a success. */
  lemma UsedUpOnce(es: seq<Event>, i: nat, j: nat)
    requires i < j < |Run(es).history.log|
    requires var log := Run(es).history.log; IsVerdict(log[i]) && (IsVerdict(log[j]) || log[j].Posted?)
    ensures var log := Run(es).history.log; log[i].serial != log[j].serial
  {
    RunSafe(es);
    assert MayPrecede(Run(es).history.log[i], Run(es).history.log[j]);
  }

  /** A tag choice the client saw accepted stays in its override of that sync until the same tag is
      remapped again. */
  lemma SeenChoiceStays(es: seq<Event>, id: string, tag: string)
    requires LastChoice(Run(es).history.log, id, tag).Some?
    ensures ChoiceKept(Run(es).client.syncs, id, tag, LastChoice(Run(es).history.log, id, tag).value)
  {
    RunSafe(es);
  }
}
