/** Optimistic-concurrency editing: the catalog narrative panel and the two dataset policy sections, any
    number of them against one compare-and-swap server. */
module CasEditing {
  import opened Options
  import opened Text

  // ---------------------------------------------------------------- documents, drafts and views

  datatype Kind = Narrative | Temporal | Serving

  /** What a revision holds. */
  datatype Doc =
    | NarrativeDoc(name: Option<string>, description: Option<string>, context: Option<string>,
                   domains: seq<string>)
    | TemporalDoc(model: string, current: string, historical: string, refs: seq<Option<string>>,
                  tieBreaks: seq<string>)
    | ServingDoc(eligible: seq<string>, preferred: seq<string>)

  /** What the form holds. The five column refs of a row policy are kept in the order of the form. */
  datatype Draft =
    | NarrativeDraft(nameText: string, descriptionText: string, contextText: string)
    | TemporalDraft(modelChoice: string, currentChoice: string, historicalChoice: string, refTexts: seq<string>)
    | ServingDraft(eligibleText: string, preferredText: string)

  /** A GET response: the key it was asked for, the pointer version (0: nothing declared yet), the
      current revision, and the governed storage model, which only the row policy reads. */
  datatype View = View(key: string, version: nat, doc: Option<Doc>, governed: Option<string>)

  /** `text.trim() || undefined`. */
  function Typed(text: string): Option<string> { if Trim(text) == "" then None else Some(Trim(text)) }

  function OrEmpty(text: Option<string>): string { if text.Some? then text.value else "" }

  function Lines(text: string): seq<string> { NonEmpty(TrimAll(Split(text, '\n'))) }

  function TrimAll(parts: seq<string>): seq<string> {
    seq(|parts|, i requires 0 <= i < |parts| => Trim(parts[i]))
  }

  function NonEmpty(parts: seq<string>): seq<string> {
    if parts == [] then [] else (if parts[0] == "" then [] else [parts[0]]) + NonEmpty(parts[1..])
  }

  /** What a plain load puts into the form. */
  function Seed(kind: Kind, view: View): Draft {
    match kind
    case Narrative =>
      if view.doc.Some? && view.doc.value.NarrativeDoc? then
        var d := view.doc.value;
        NarrativeDraft(OrEmpty(d.name), OrEmpty(d.description), OrEmpty(d.context))
      else NarrativeDraft("", "", "")
    case Temporal =>
      if view.doc.Some? && view.doc.value.TemporalDoc? then
        var d := view.doc.value;
        TemporalDraft(Known(d.model), d.current, d.historical,
                      seq(|d.refs|, i requires 0 <= i < |d.refs| => OrEmpty(d.refs[i])))
      else
        TemporalDraft(Known(OrEmpty(view.governed)), "current_record", "explicit_only", ["", "", "", "", ""])
    case Serving =>
      if view.doc.Some? && view.doc.value.ServingDoc? then
        ServingDraft(Join(view.doc.value.eligible, "\n"), Join(view.doc.value.preferred, "\n"))
      else ServingDraft("", "")
  }

  /** A recorded `unknown` is nobody's answer and seeds nothing. */
  function Known(model: string): string { if model == "unknown" then "" else model }

  function Domains(doc: Option<Doc>): seq<string> {
    if doc.Some? && doc.value.NarrativeDoc? then doc.value.domains else []
  }

  /** The body of the PUT: typed fields from the form, the business domains from the loaded revision, and
      for a row policy no tie-breaks at all. */
  function Build(draft: Draft, view: View): Doc {
    match draft
    case NarrativeDraft(name, description, context) =>
      NarrativeDoc(Typed(name), Typed(description), Typed(context), Domains(view.doc))
    case TemporalDraft(model, current, historical, refs) =>
      TemporalDoc(model, current, historical, seq(|refs|, i requires 0 <= i < |refs| => Typed(refs[i])), [])
    case ServingDraft(eligible, preferred) => ServingDoc(Lines(eligible), Lines(preferred))
  }

  // ---------------------------------------------------------------- the editor's state and handlers

  /** `key` names what is edited: fixed for a narrative or a row policy, three form fields for a serving
      policy, where "" stands for a blank entity. */
  datatype Editor = Editor(kind: Kind, key: string, view: Option<View>, absent: bool, editing: bool,
                           conflicted: bool, busy: bool, draft: Draft)
  {
    function Loads(got: View, keepDraft: bool): Editor {
      this.(view := Some(got), absent := false, draft := if keepDraft then draft else Seed(kind, got))
    }

    function LoadRefused(notFound: bool): Editor {
      if !notFound then this
      else this.(absent := true, view := if kind.Serving? then None else view)
    }

    /** A serving policy without an entity is not asked for; its view is dropped instead. */
    predicate Blank(asked: string) { kind.Serving? && asked == "" }

    function DropsView(): Editor { this.(view := None) }

    /** The section is drawn at all. */
    predicate OnScreen() { view.Some? && !absent }

    /** Its fields are there to type into. */
    predicate FormOpen() { OnScreen() && (kind.Serving? || editing) }

    predicate CanSave() { FormOpen() && !busy && (draft.TemporalDraft? ==> draft.modelChoice != "") }

    function SaveStarts(): Editor { this.(busy := true) }

    function SaveLands(): Editor {
      this.(conflicted := false, editing := if kind.Serving? then editing else false)
    }

    function SaveConflicts(): Editor { this.(conflicted := true) }

    function SaveEnds(): Editor { this.(busy := false) }

    function Edit(): Editor { this.(conflicted := false, editing := true) }

    function Cancel(): Editor { this.(conflicted := false, editing := false) }

    function Types(text: Draft): Editor { this.(draft := text) }

    function Rekey(k: string): Editor { this.(key := k) }
  }

  // ---------------------------------------------------------------- the editor as an object

  datatype Request =
    | NoRequest
    | RequestLoad(key: string, keepDraft: bool)
    | RequestSave(key: string, expected: nat, doc: Doc)

  class PolicyEditor {
    const kind: Kind
    var key: string
    var view: Option<View>
    var absent: bool
    var editing: bool
    var conflicted: bool
    var busy: bool
    var draft: Draft

    function State(): Editor
      reads this
    {
      Editor(kind, key, view, absent, editing, conflicted, busy, draft)
    }

    constructor (kind: Kind, key: string, draft: Draft)
      ensures State() == Editor(kind, key, None, false, false, false, false, draft)
    {
      this.kind, this.key, this.draft := kind, key, draft;
      view, absent, editing, conflicted, busy := None, false, false, false, false;
    }

    method Load(keepDraft: bool, asked: string) returns (request: Request)
      modifies this
      ensures State() == if old(State()).Blank(asked) then old(State()).DropsView() else old(State())
      ensures request == if old(State()).Blank(asked) then NoRequest else RequestLoad(asked, keepDraft)
    {
      if kind.Serving? && asked == "" {
        view := None;
        return NoRequest;
      }
      request := RequestLoad(asked, keepDraft);
    }

    method LoadResponse(got: View, keepDraft: bool)
      modifies this
      ensures State() == old(State()).Loads(got, keepDraft)
    {
      view := Some(got);
      absent := false;
      if keepDraft { return; }
      draft := Seed(kind, got);
    }

    method LoadError(notFound: bool)
      modifies this
      ensures State() == old(State()).LoadRefused(notFound)
    {
      if notFound {
        absent := true;
        if kind.Serving? { view := None; }
      }
    }

    method Save() returns (request: Request)
      modifies this
      ensures if !old(State()).CanSave() then State() == old(State()) && request == NoRequest
              else State() == old(State()).SaveStarts() &&
                   request == RequestSave(old(key), old(view).value.version, Build(old(draft), old(view).value))
    {
      if view.None? || busy || absent { return NoRequest; }
      if !kind.Serving? && !editing { return NoRequest; }
      if draft.TemporalDraft? && draft.modelChoice == "" { return NoRequest; }
      busy := true;
      request := RequestSave(key, view.value.version, Build(draft, view.value));
    }

    /** Success reloads plainly; a conflict reloads and keeps the draft. */
    method SaveResponse(saved: string, conflict: bool) returns (request: Request)
      modifies this
      ensures var was := if conflict then old(State()).SaveConflicts() else old(State()).SaveLands();
              State() == (if was.Blank(saved) then was.DropsView() else was) &&
              request == (if was.Blank(saved) then NoRequest else RequestLoad(saved, conflict))
    {
      if conflict {
        conflicted := true;
      } else {
        if !kind.Serving? { editing := false; }
        conflicted := false;
      }
      request := Load(conflict, saved);
    }

    /** The `finally` of `save`. */
    method Finish()
      modifies this
      ensures State() == old(State()).SaveEnds()
    {
      busy := false;
    }

    method Edit()
      modifies this
      ensures State() == old(State()).Edit()
    {
      conflicted := false;
      editing := true;
    }

    method Type(text: Draft)
      modifies this
      ensures State() == old(State()).Types(text)
    {
      draft := text;
    }

    method SetKey(k: string)
      modifies this
      ensures State() == old(State()).Rekey(k)
    {
      key := k;
    }

    method Cancel() returns (request: Request)
      modifies this
      ensures State() == var was := old(State()).Cancel(); if was.Blank(was.key) then was.DropsView() else was
      ensures request == if old(State()).Blank(key) then NoRequest else RequestLoad(key, false)
    {
      editing := false;
      conflicted := false;
      request := Load(false, key);
    }
  }

  // ---------------------------------------------------------------- clients and server

  datatype Reply = Got(view: View) | Accepted | Conflict | Refused(notFound: bool)

  /** A request under way. `saving` marks the load a save waits for; `lost` is the view whose save lost. */
  datatype Call =
    | Loading(key: string, saving: bool, reply: Option<Reply>)
    | Reloading(key: string, lost: View, reply: Option<Reply>)
    | Saving(key: string, view: View, doc: Doc, reply: Option<Reply>)

  datatype Client = Client(editor: Editor, calls: map<nat, Call>, next: nat)

  /** A revision, and the view its author had in front of them; `None` when it was not written from one of these
      forms: by the upload path, which advances a narrative's pointer under a row lock without having read it, or by
      another caller of the PUT route. */
  datatype Rev = Rev(doc: Doc, author: Option<View>)

  datatype World = World(clients: seq<Client>, server: map<string, seq<Rev>>)

  datatype Action =
    | LoadClick | EditClick | CancelClick | SaveClick
    | Type(text: Draft) | SetKey(key: string)
    | Handle(call: nat, governed: Option<string>, refused: Option<bool>)
    | Arrive(call: nat, delivered: bool)

  datatype Event =
    | At(client: nat, action: Action)
    | Ingest(key: string, doc: Doc)
    | Publish(key: string, expected: nat, doc: Doc)

  function Revisions(server: map<string, seq<Rev>>, key: string): seq<Rev> {
    if key in server then server[key] else []
  }

  function CurrentView(server: map<string, seq<Rev>>, key: string, governed: Option<string>): View {
    var revs := Revisions(server, key);
    View(key, |revs|, if revs == [] then None else Some(revs[|revs| - 1].doc), governed)
  }

  function Append(server: map<string, seq<Rev>>, key: string, rev: Rev): map<string, seq<Rev>> {
    server[key := Revisions(server, key) + [rev]]
  }

  /** The server's side of one request: a read of the current pointer, or a compare-and-swap of it. */
  function Answer(server: map<string, seq<Rev>>, call: Call, governed: Option<string>, refused: Option<bool>): Reply {
    if refused.Some? then Refused(refused.value)
    else if !call.Saving? then Got(CurrentView(server, call.key, governed))
    else if call.view.version == |Revisions(server, call.key)| then Accepted
    else Conflict
  }

  function Send(c: Client, call: Call): Client { c.(calls := c.calls[c.next := call], next := c.next + 1) }

  function SendLoad(c: Client, asked: string, follow: Call): Client {
    if c.editor.Blank(asked) then
      c.(editor := var dropped := c.editor.DropsView();
                   if follow.Loading? && !follow.saving then dropped else dropped.SaveEnds())
    else Send(c, follow)
  }

  /** A response reaches the client; an undelivered one is an error that is neither 404 nor 409. */
  function Receive(c: Client, id: nat, delivered: bool): Client {
    if id !in c.calls || (delivered && c.calls[id].reply.None?) then c
    else
      var call := c.calls[id];
      Continue(c.(calls := c.calls - {id}), call, if delivered then call.reply.value else Refused(false))
  }

  function Continue(c: Client, call: Call, reply: Reply): Client {
    match call
    case Loading(_, saving, _) => Loaded(c, reply, false, saving)
    case Reloading(_, _, _) => Loaded(c, reply, true, true)
    case Saving(key, view, _, _) => Saved(c, reply, key, view)
  }

  function Loaded(c: Client, reply: Reply, keepDraft: bool, saving: bool): Client {
    var e := match reply {
               case Got(view) => c.editor.Loads(view, keepDraft)
               case Refused(notFound) => c.editor.LoadRefused(notFound)
               case _ => c.editor
             };
    c.(editor := if saving then e.SaveEnds() else e)
  }

  function Saved(c: Client, reply: Reply, key: string, view: View): Client {
    match reply
    case Accepted => SendLoad(c.(editor := c.editor.SaveLands()), key, Loading(key, true, None))
    case Conflict => SendLoad(c.(editor := c.editor.SaveConflicts()), key, Reloading(key, view, None))
    case _ => c.(editor := c.editor.SaveEnds())
  }

  function Act(c: Client, a: Action): Client {
    var e := c.editor;
    match a
    case LoadClick => SendLoad(c, e.key, Loading(e.key, false, None))
    case EditClick => if e.kind.Serving? || e.editing || !e.OnScreen() then c else c.(editor := e.Edit())
    case CancelClick =>
      if e.kind.Serving? || !e.FormOpen() then c
      else SendLoad(c.(editor := e.Cancel()), e.key, Loading(e.key, false, None))
    case SaveClick =>
      if !e.CanSave() then c
      else Send(c.(editor := e.SaveStarts()), Saving(e.key, e.view.value, Build(e.draft, e.view.value), None))
    case Type(text) => if e.FormOpen() && SameForm(e.kind, text) then c.(editor := e.Types(text)) else c
    case SetKey(key) => if e.kind.Serving? then c.(editor := e.Rekey(key)) else c
    case Handle(_, _, _) => c
    case Arrive(id, delivered) => Receive(c, id, delivered)
  }

  /** The object driven by one action does what the run model says. `calls` and `next` are what the browser keeps
      beside it: the continuations waiting, and the next request's number. */
  method Drive(editor: PolicyEditor, calls: map<nat, Call>, next: nat, a: Action)
    returns (calls': map<nat, Call>, next': nat)
    modifies editor
    ensures Client(editor.State(), calls', next') == Act(old(Client(editor.State(), calls, next)), a)
  {
    calls', next' := calls, next;
    var e := editor.State();
    match a
    case LoadClick =>
      var request := editor.Load(false, editor.key);
      if request.RequestLoad? { calls', next' := calls[next := Loading(request.key, false, None)], next + 1; }
    case EditClick =>
      if !e.kind.Serving? && !e.editing && e.OnScreen() { editor.Edit(); }
    case CancelClick =>
      if !e.kind.Serving? && e.FormOpen() {
        var request := editor.Cancel();
        if request.RequestLoad? { calls', next' := calls[next := Loading(request.key, false, None)], next + 1; }
      }
    case SaveClick =>
      var request := editor.Save();
      if request.RequestSave? {
        calls', next' := calls[next := Saving(request.key, e.view.value, request.doc, None)], next + 1;
      }
    case Type(text) =>
      if e.FormOpen() && SameForm(e.kind, text) { editor.Type(text); }
    case SetKey(key) =>
      if e.kind.Serving? { editor.SetKey(key); }
    case Handle(_, _, _) =>
    case Arrive(id, delivered) =>
      if id in calls && (delivered ==> calls[id].reply.Some?) {
        var reply := if delivered then calls[id].reply.value else Refused(false);
        calls', next' := DriveReply(editor, calls - {id}, next, calls[id], reply);
      }
  }

  method DriveReply(editor: PolicyEditor, calls: map<nat, Call>, next: nat, call: Call, reply: Reply)
    returns (calls': map<nat, Call>, next': nat)
    modifies editor
    ensures Client(editor.State(), calls', next') == Continue(old(Client(editor.State(), calls, next)), call, reply)
  {
    calls', next' := calls, next;
    if call.Saving? {
      if reply.Accepted? || reply.Conflict? {
        var request := editor.SaveResponse(call.key, reply.Conflict?);
        if request.RequestLoad? {
          var follow := if reply.Conflict? then Reloading(call.key, call.view, None) else Loading(call.key, true, None);
          calls', next' := calls[next := follow], next + 1;
        } else {
          editor.Finish();
        }
      } else {
        editor.Finish();
      }
      return;
    }
    match reply {
      case Got(view) => editor.LoadResponse(view, call.Reloading?);
      case Refused(notFound) => editor.LoadError(notFound);
      case _ =>
    }
    if call.Reloading? || call.saving { editor.Finish(); }
  }

  predicate SameForm(kind: Kind, draft: Draft) {
    match kind
    case Narrative => draft.NarrativeDraft?
    case Temporal => draft.TemporalDraft?
    case Serving => draft.ServingDraft?
  }

  function HandleCall(w: World, i: nat, id: nat, governed: Option<string>, refused: Option<bool>): World
    requires i < |w.clients|
  {
    var c := w.clients[i];
    if id !in c.calls || c.calls[id].reply.Some? then w
    else
      var call := c.calls[id];
      var reply := Answer(w.server, call, governed, refused);
      World(w.clients[i := c.(calls := c.calls[id := call.(reply := Some(reply))])],
            if reply.Accepted? then Append(w.server, call.key, Rev(call.doc, Some(call.view))) else w.server)
  }

  function Apply(w: World, e: Event): World {
    match e
    case Ingest(key, doc) => if doc.NarrativeDoc? then w.(server := Append(w.server, key, Rev(doc, None))) else w
    case Publish(key, expected, doc) =>
      if expected == |Revisions(w.server, key)| then w.(server := Append(w.server, key, Rev(doc, None))) else w
    case At(i, a) =>
      if i >= |w.clients| then w
      else if a.Handle? then HandleCall(w, i, a.call, a.governed, a.refused)
      else w.(clients := w.clients[i := Act(w.clients[i], a)])
  }

  function RunFrom(w: World, es: seq<Event>): World {
    if es == [] then w else Apply(RunFrom(w, es[..|es| - 1]), es[|es| - 1])
  }

  /** Any number of freshly mounted editors and an empty store. */
  ghost predicate Initial(w: World) {
    && w.server == map[]
    && forall i :: 0 <= i < |w.clients| ==>
         var c := w.clients[i];
         c.calls == map[] && c.editor.view.None? && !c.editor.busy && SameForm(c.editor.kind, c.editor.draft)
  }

  // ---------------------------------------------------------------- what every step keeps

  function DocAt(server: map<string, seq<Rev>>, key: string, version: nat): Option<Doc>
    requires version <= |Revisions(server, key)|
  {
    if version == 0 then None else Some(Revisions(server, key)[version - 1].doc)
  }

  /** The view is what the store held under its key at its version; revisions are never rewritten. */
  ghost predicate TrueView(server: map<string, seq<Rev>>, v: View) {
    v.version <= |Revisions(server, v.key)| && v.doc == DocAt(server, v.key, v.version)
  }

  /** A saved document was built on this view, and only a serving policy can be saved under another key. */
  ghost predicate BuiltOn(doc: Doc, key: string, v: View) {
    && (doc.NarrativeDoc? ==> doc.domains == Domains(v.doc))
    && (doc.TemporalDoc? ==> doc.tieBreaks == [])
    && (!doc.ServingDoc? ==> v.key == key)
  }

  ghost predicate HonestCall(server: map<string, seq<Rev>>, call: Call) {
    && (call.reply.Some? && call.reply.value.Got? ==>
          TrueView(server, call.reply.value.view) && call.reply.value.view.key == call.key)
    && match call {
         case Loading(_, _, _) => true
         case Reloading(key, lost, reply) =>
           lost.key == key ==>
             lost.version < |Revisions(server, key)| &&
             (reply.Some? && reply.value.Got? ==> lost.version < reply.value.view.version)
         case Saving(key, view, doc, reply) =>
           TrueView(server, view) && BuiltOn(doc, key, view) &&
           (reply == Some(Conflict) && view.key == key ==> view.version < |Revisions(server, key)|)
       }
  }

  /** Outside serving policies the key never changes, so everything is about the editor's own key. */
  ghost predicate OwnKey(c: Client) {
    && SameForm(c.editor.kind, c.editor.draft)
    && (!c.editor.kind.Serving? ==>
          (c.editor.view.Some? ==> c.editor.view.value.key == c.editor.key) &&
          forall id :: id in c.calls ==> c.calls[id].key == c.editor.key)
  }

  ghost predicate HonestClient(server: map<string, seq<Rev>>, c: Client) {
    && (c.editor.view.Some? ==> TrueView(server, c.editor.view.value))
    && (forall id :: id in c.calls ==> HonestCall(server, c.calls[id]))
    && OwnKey(c)
  }

  ghost predicate HonestRev(server: map<string, seq<Rev>>, key: string, n: nat)
    requires n < |Revisions(server, key)|
  {
    var rev := Revisions(server, key)[n];
    rev.author.Some? ==>
      rev.author.value.version == n && TrueView(server, rev.author.value) &&
      BuiltOn(rev.doc, key, rev.author.value)
  }

  ghost predicate HonestServer(server: map<string, seq<Rev>>) {
    forall key, n :: 0 <= n < |Revisions(server, key)| ==> HonestRev(server, key, n)
  }

  ghost predicate Honest(w: World) {
    && HonestServer(w.server)
    && forall i :: 0 <= i < |w.clients| ==> HonestClient(w.server, w.clients[i])
  }

  /** The store only grows. */
  ghost predicate Extends(server: map<string, seq<Rev>>, later: map<string, seq<Rev>>) {
    forall key :: Revisions(server, key) <= Revisions(later, key)
  }

  lemma TrueViewStays(server: map<string, seq<Rev>>, later: map<string, seq<Rev>>, v: View)
    requires Extends(server, later) && TrueView(server, v)
    ensures TrueView(later, v)
  {
    assert Revisions(server, v.key) <= Revisions(later, v.key);
  }

  lemma HonestCallStays(server: map<string, seq<Rev>>, later: map<string, seq<Rev>>, call: Call)
    requires Extends(server, later) && HonestCall(server, call)
    ensures HonestCall(later, call)
  {
    assert Revisions(server, call.key) <= Revisions(later, call.key);
    if call.reply.Some? && call.reply.value.Got? {
      TrueViewStays(server, later, call.reply.value.view);
    }
    if call.Saving? {
      TrueViewStays(server, later, call.view);
    }
  }

  lemma HonestClientStays(server: map<string, seq<Rev>>, later: map<string, seq<Rev>>, c: Client)
    requires Extends(server, later) && HonestClient(server, c)
    ensures HonestClient(later, c)
  {
    if c.editor.view.Some? {
      TrueViewStays(server, later, c.editor.view.value);
    }
    forall id | id in c.calls ensures HonestCall(later, c.calls[id]) {
      HonestCallStays(server, later, c.calls[id]);
    }
  }

  lemma AppendHonest(server: map<string, seq<Rev>>, key: string, rev: Rev)
    requires HonestServer(server)
    requires rev.author.Some? ==>
               rev.author.value.version == |Revisions(server, key)| && TrueView(server, rev.author.value) &&
               BuiltOn(rev.doc, key, rev.author.value)
    ensures Extends(server, Append(server, key, rev)) && HonestServer(Append(server, key, rev))
  {
    var later := Append(server, key, rev);
    assert Extends(server, later);
    forall k, n | 0 <= n < |Revisions(later, k)| ensures HonestRev(later, k, n) {
      var before := Revisions(server, k);
      assert before <= Revisions(later, k);
      var r := Revisions(later, k)[n];
      if n < |before| {
        assert HonestRev(server, k, n) && r == before[n];
      }
      if r.author.Some? {
        TrueViewStays(server, later, r.author.value);
      }
    }
  }

  lemma SendHonest(server: map<string, seq<Rev>>, c: Client, call: Call)
    requires HonestClient(server, c) && HonestCall(server, call)
    requires !c.editor.kind.Serving? ==> call.key == c.editor.key
    ensures HonestClient(server, Send(c, call))
  {
  }

  lemma SendLoadHonest(server: map<string, seq<Rev>>, c: Client, asked: string, follow: Call)
    requires HonestClient(server, c) && HonestCall(server, follow) && follow.key == asked
    requires !c.editor.kind.Serving? ==> asked == c.editor.key
    ensures HonestClient(server, SendLoad(c, asked, follow))
  {
    if !c.editor.Blank(asked) {
      SendHonest(server, c, follow);
    }
  }

  /** What a client does on its own keeps it honest: it sends what it holds. */
  lemma ActHonest(server: map<string, seq<Rev>>, c: Client, a: Action)
    requires HonestClient(server, c) && !a.Handle? && !a.Arrive?
    ensures HonestClient(server, Act(c, a))
  {
    var e := c.editor;
    match a
    case LoadClick => SendLoadHonest(server, c, e.key, Loading(e.key, false, None));
    case CancelClick =>
      SendLoadHonest(server, c.(editor := e.Cancel()), e.key, Loading(e.key, false, None));
    case SaveClick =>
      if e.CanSave() {
        SendHonest(server, c.(editor := e.SaveStarts()),
            Saving(e.key, e.view.value, Build(e.draft, e.view.value), None));
      }
    case _ =>
  }

  lemma LoadedHonest(server: map<string, seq<Rev>>, c: Client, reply: Reply, keepDraft: bool, saving: bool)
    requires HonestClient(server, c)
    requires reply.Got? ==> TrueView(server, reply.view) &&
                            (!c.editor.kind.Serving? ==> reply.view.key == c.editor.key)
    ensures HonestClient(server, Loaded(c, reply, keepDraft, saving))
  {
  }

  lemma SavedHonest(server: map<string, seq<Rev>>, c: Client, reply: Reply, key: string, view: View)
    requires HonestClient(server, c)
    requires !c.editor.kind.Serving? ==> key == c.editor.key
    requires reply.Conflict? && view.key == key ==> view.version < |Revisions(server, key)|
    ensures HonestClient(server, Saved(c, reply, key, view))
  {
    if reply.Accepted? {
      SendLoadHonest(server, c.(editor := c.editor.SaveLands()), key, Loading(key, true, None));
    } else if reply.Conflict? {
      SendLoadHonest(server, c.(editor := c.editor.SaveConflicts()), key, Reloading(key, view, None));
    }
  }

  lemma ReceiveHonest(server: map<string, seq<Rev>>, c: Client, id: nat, delivered: bool)
    requires HonestClient(server, c)
    ensures HonestClient(server, Receive(c, id, delivered))
  {
    if id in c.calls && (delivered ==> c.calls[id].reply.Some?) {
      var call := c.calls[id];
      assert HonestCall(server, call);
      var reply := if delivered then call.reply.value else Refused(false);
      var rest := c.(calls := c.calls - {id});
      assert HonestClient(server, rest);
      match call
      case Loading(_, saving, _) => LoadedHonest(server, rest, reply, false, saving);
      case Reloading(_, _, _) => LoadedHonest(server, rest, reply, true, true);
      case Saving(key, view, _, _) => SavedHonest(server, rest, reply, key, view);
    }
  }

  lemma AnswerHonest(server: map<string, seq<Rev>>, call: Call, governed: Option<string>, refused: Option<bool>)
    requires HonestCall(server, call)
    ensures HonestCall(server, call.(reply := Some(Answer(server, call, governed, refused))))
  {
  }

  lemma HandleHonest(w: World, i: nat, id: nat, governed: Option<string>, refused: Option<bool>)
    requires Honest(w) && i < |w.clients|
    ensures Honest(HandleCall(w, i, id, governed, refused)) 
    ensures Extends(w.server, HandleCall(w, i, id, governed, refused).server)
  {
    var next, c := HandleCall(w, i, id, governed, refused), w.clients[i];
    assert HonestClient(w.server, c);
    if id in c.calls && c.calls[id].reply.None? {
      var call := c.calls[id];
      AnswerHonest(w.server, call, governed, refused);
      if Answer(w.server, call, governed, refused).Accepted? {
        AppendHonest(w.server, call.key, Rev(call.doc, Some(call.view)));
      }
      forall j | 0 <= j < |w.clients| ensures HonestClient(next.server, next.clients[j]) {
        assert HonestClient(w.server, w.clients[j]);
        assert HonestClient(w.server, next.clients[j]);
        HonestClientStays(w.server, next.server, next.clients[j]);
      }
    }
  }

  lemma WrittenElsewhere(w: World, key: string, doc: Doc)
    requires Honest(w)
    ensures var next := w.(server := Append(w.server, key, Rev(doc, None)));
            Honest(next) && Extends(w.server, next.server)
  {
    var server := Append(w.server, key, Rev(doc, None));
    AppendHonest(w.server, key, Rev(doc, None));
    forall j | 0 <= j < |w.clients| ensures HonestClient(server, w.clients[j]) {
      HonestClientStays(w.server, server, w.clients[j]);
    }
  }

  lemma HonestStep(w: World, e: Event)
    requires Honest(w)
    ensures Honest(Apply(w, e)) && Extends(w.server, Apply(w, e).server)
  {
    var next := Apply(w, e);
    match e
    case Ingest(key, doc) => WrittenElsewhere(w, key, doc);
    case Publish(key, _, doc) => WrittenElsewhere(w, key, doc);
    case At(i, a) =>
      if i < |w.clients| {
        assert HonestClient(w.server, w.clients[i]);
        if a.Handle? {
          HandleHonest(w, i, a.call, a.governed, a.refused);
        } else if a.Arrive? {
          ReceiveHonest(w.server, w.clients[i], a.call, a.delivered);
        } else {
          ActHonest(w.server, w.clients[i], a);
        }
      }
  }

  lemma {:induction false} RunHonest(w: World, es: seq<Event>)
    requires Initial(w)
    ensures Honest(RunFrom(w, es))
  {
    if es == [] {
    } else {
      RunHonest(w, es[..|es| - 1]);
      HonestStep(RunFrom(w, es[..|es| - 1]), es[|es| - 1]);
    }
  }

  // ---------------------------------------------------------------- no update is lost

  /** The view shows this revision of this key. */
  ghost predicate Shows(server: map<string, seq<Rev>>, v: View, key: string, n: nat)
    requires n <= |Revisions(server, key)|
  {
    v.key == key && v.version == n && v.doc == DocAt(server, key, n)
  }

  /** The save replaced a revision that its author's view did not show. */
  ghost predicate Overwrites(server: map<string, seq<Rev>>, key: string, n: nat)
    requires n < |Revisions(server, key)| && Revisions(server, key)[n].author.Some?
  {
    n > 0 && !Shows(server, Revisions(server, key)[n].author.value, key, n)
  }

  /** An accepted save overwrites a revision its author did not have in view exactly when it went out under another
      key than the view was loaded for and there was a revision under that key. Only a serving policy can. */
  lemma SaveReplacesWhatWasLoaded(w: World, es: seq<Event>, key: string, n: nat)
    requires Initial(w)
    requires n < |Revisions(RunFrom(w, es).server, key)| && Revisions(RunFrom(w, es).server, key)[n].author.Some?
    ensures var server := RunFrom(w, es).server;
            var rev := Revisions(server, key)[n];
            var author := rev.author.value;
            && author.version == n && TrueView(server, author)
            && (Overwrites(server, key, n) <==> author.key != key && author.version > 0)
            && (!rev.doc.ServingDoc? ==> Shows(server, author, key, n))
  {
    RunHonest(w, es);
    assert HonestRev(RunFrom(w, es).server, key, n);
  }

  /** Over any stretch of UI saves the business domains are those of the revision it started from. */
  lemma {:induction false} DomainsCarried(w: World, es: seq<Event>, key: string, m: nat, n: nat)
    requires Initial(w)
    requires m <= n <= |Revisions(RunFrom(w, es).server, key)|
    requires forall k :: m <= k < n ==>
               var rev := Revisions(RunFrom(w, es).server, key)[k]; rev.author.Some? && rev.doc.NarrativeDoc?
    ensures var server := RunFrom(w, es).server; Domains(DocAt(server, key, n)) == Domains(DocAt(server, key, m))
    decreases n
  {
    if m < n {
      DomainsCarried(w, es, key, m, n - 1);
      SaveReplacesWhatWasLoaded(w, es, key, n - 1);
      RunHonest(w, es);
      assert HonestRev(RunFrom(w, es).server, key, n - 1);
    }
  }

  /** A row policy saved from the form keeps the tie-breaks of the one it replaces only if there were none. */
  lemma TieBreaksErased(w: World, es: seq<Event>, key: string, n: nat)
    requires Initial(w) && 0 < n < |Revisions(RunFrom(w, es).server, key)|
    requires var revs := Revisions(RunFrom(w, es).server, key);
             revs[n].author.Some? && revs[n].doc.TemporalDoc? && revs[n - 1].doc.TemporalDoc?
    ensures var revs := Revisions(RunFrom(w, es).server, key);
            revs[n].doc.tieBreaks == revs[n - 1].doc.tieBreaks <==> revs[n - 1].doc.tieBreaks == []
  {
    RunHonest(w, es);
    assert HonestRev(RunFrom(w, es).server, key, n);
  }

  // ---------------------------------------------------------------- the draft after a conflict

  predicate InSave(call: Call) { call.Saving? || call.Reloading? || (call.Loading? && call.saving) }

  /** One save at a time: the busy flag is up exactly while one of its requests is outstanding. */
  ghost predicate OneSave(c: Client) {
    && (forall id :: id in c.calls ==> id < c.next)
    && (c.editor.busy <==> exists id :: id in c.calls && InSave(c.calls[id]))
    && (forall i, j :: i in c.calls && j in c.calls && InSave(c.calls[i]) && InSave(c.calls[j]) ==> i == j)
  }

  lemma OneSaveAct(c: Client, a: Action)
    requires OneSave(c) && !a.Arrive?
    ensures OneSave(Act(c, a))
  {
    var next := Act(c, a);
    forall id | id in c.calls && InSave(c.calls[id]) ensures id in next.calls && next.calls[id] == c.calls[id] {}
    if a.SaveClick? && c.editor.CanSave() {
      assert InSave(next.calls[c.next]);
    }
  }

  /** A call that is over is taken off; if it was the save's, no call of a save is left. */
  lemma CallOver(c: Client, id: nat)
    requires OneSave(c) && id in c.calls
    ensures var rest := c.calls - {id};
            && (forall j :: j in rest ==> j < c.next && rest[j] == c.calls[j])
            && (InSave(c.calls[id]) ==> forall j :: j in rest ==> !InSave(rest[j]))
            && (!InSave(c.calls[id]) ==> (c.editor.busy <==> exists j :: j in rest && InSave(rest[j])))
  {
    var rest := c.calls - {id};
    if !InSave(c.calls[id]) && c.editor.busy {
      var j :| j in c.calls && InSave(c.calls[j]);
      assert j in rest && InSave(rest[j]);
    }
  }

  lemma OneSaveLoaded(c: Client, id: nat, reply: Reply, keepDraft: bool)
    requires OneSave(c) && id in c.calls && !c.calls[id].Saving?
    ensures OneSave(Loaded(c.(calls := c.calls - {id}), reply, keepDraft, InSave(c.calls[id])))
  {
    CallOver(c, id);
  }

  lemma OneSaveSaved(c: Client, id: nat, reply: Reply)
    requires OneSave(c) && id in c.calls && c.calls[id].Saving?
    ensures OneSave(Saved(c.(calls := c.calls - {id}), reply, c.calls[id].key, c.calls[id].view))
  {
    CallOver(c, id);
    var next := Saved(c.(calls := c.calls - {id}), reply, c.calls[id].key, c.calls[id].view);
    if c.next in next.calls {
      assert InSave(next.calls[c.next]);
    }
  }

  lemma OneSaveReceive(c: Client, id: nat, delivered: bool)
    requires OneSave(c)
    ensures OneSave(Receive(c, id, delivered))
  {
    if id in c.calls && (delivered ==> c.calls[id].reply.Some?) {
      var call := c.calls[id];
      var reply := if delivered then call.reply.value else Refused(false);
      if call.Saving? {
        OneSaveSaved(c, id, reply);
      } else {
        OneSaveLoaded(c, id, reply, call.Reloading?);
      }
    }
  }

  lemma OneSaveHandled(w: World, i: nat, id: nat, governed: Option<string>, refused: Option<bool>)
    requires i < |w.clients| && OneSave(w.clients[i])
    ensures OneSave(HandleCall(w, i, id, governed, refused).clients[i])
  {
    var c, next := w.clients[i], HandleCall(w, i, id, governed, refused).clients[i];
    assert c.calls.Keys == next.calls.Keys;
    assert forall j :: j in c.calls ==> InSave(next.calls[j]) == InSave(c.calls[j]);
  }

  lemma {:induction false} RunOneSave(w: World, es: seq<Event>)
    requires Initial(w)
    ensures |RunFrom(w, es).clients| == |w.clients|
    ensures forall i :: 0 <= i < |w.clients| ==> OneSave(RunFrom(w, es).clients[i])
  {
    if es != [] {
      var e := es[|es| - 1];
      RunOneSave(w, es[..|es| - 1]);
      var before := RunFrom(w, es[..|es| - 1]);
      if e.At? && e.client < |before.clients| {
        if e.action.Handle? {
          OneSaveHandled(before, e.client, e.action.call, e.action.governed, e.action.refused);
        } else if e.action.Arrive? {
          OneSaveReceive(before.clients[e.client], e.action.call, e.action.delivered);
        } else {
          OneSaveAct(before.clients[e.client], e.action);
        }
      }
    }
  }

  /** Every draft-keeping reload under way follows the save that lost on this view, under this key. */
  ghost predicate OnlyReload(c: Client, key: string, lost: View) {
    forall id :: id in c.calls && c.calls[id].Reloading? ==> c.calls[id].key == key && c.calls[id].lost == lost
  }

  /** The client hears of a 409: its words are untouched, no save is left outstanding, and the reload under
      way is the draft-keeping one. */
  lemma ConflictKeepsDraft(w: World, es: seq<Event>, i: nat, id: nat)
    requires Initial(w) && i < |RunFrom(w, es).clients|
    requires var c := RunFrom(w, es).clients[i];
             id in c.calls && c.calls[id].Saving? && c.calls[id].reply == Some(Conflict)
    ensures var c := RunFrom(w, es).clients[i];
            var next := Apply(RunFrom(w, es), At(i, Arrive(id, true))).clients[i];
            && next.editor.draft == c.editor.draft && next.editor.conflicted && NoSave(next)
            && OnlyReload(next, c.calls[id].key, c.calls[id].view)
            && (next.editor.Blank(c.calls[id].key) ||
                (c.next in next.calls && next.calls[c.next] == Reloading(c.calls[id].key, c.calls[id].view, None)))
  {
    RunOneSave(w, es);
    var c := RunFrom(w, es).clients[i];
    assert OneSave(c);
    var next := Receive(c, id, true);
    forall j | j in next.calls && j != c.next ensures !InSave(next.calls[j]) {
      assert j in c.calls && next.calls[j] == c.calls[j];
    }
  }

  /** When that reload arrives, the anchor and the comparison copy move past the version that lost, to a
      revision the store really holds, and the draft stays. */
  lemma ReloadAdvancesAnchor(w: World, es: seq<Event>, i: nat, id: nat)
    requires Initial(w) && i < |RunFrom(w, es).clients|
    requires var c := RunFrom(w, es).clients[i];
             id in c.calls && c.calls[id].Reloading? && c.calls[id].lost.key == c.calls[id].key &&
             c.calls[id].reply.Some? && c.calls[id].reply.value.Got?
    ensures var server, c := RunFrom(w, es).server, RunFrom(w, es).clients[i];
            var next := Apply(RunFrom(w, es), At(i, Arrive(id, true))).clients[i];
            && next.editor.draft == c.editor.draft && !next.editor.busy
            && next.editor.view == Some(c.calls[id].reply.value.view)
            && TrueView(server, next.editor.view.value)
            && next.editor.view.value.version > c.calls[id].lost.version
  {
    RunHonest(w, es);
    assert HonestClient(RunFrom(w, es).server, RunFrom(w, es).clients[i]);
  }

  predicate NoSave(c: Client) { forall id :: id in c.calls ==> !c.calls[id].Saving? }

  /** A request that can still end in the form being overwritten: a plain load, or a save that was accepted or may
      yet be, since a plain load follows it. A version the store has passed can only lose. */
  predicate Threat(server: map<string, seq<Rev>>, e: Editor, call: Call) {
    match call
    case Loading(_, _, reply) => reply.None? || reply.value.Got?
    case Reloading(_, _, _) => false
    case Saving(key, view, _, reply) =>
      !e.Blank(key) && (reply == Some(Accepted) || (reply.None? && view.version >= |Revisions(server, key)|))
  }

  predicate Threatened(server: map<string, seq<Rev>>, c: Client) {
    exists id :: id in c.calls && Threat(server, c.editor, c.calls[id])
  }

  /** Client `i` neither saves, cancels nor asks for a load; it may type, and anything else may happen. */
  predicate Waits(es: seq<Event>, i: nat) {
    forall k :: 0 <= k < |es| && es[k].At? && es[k].client == i ==>
      !es[k].action.SaveClick? && !es[k].action.CancelClick? && !es[k].action.LoadClick?
  }

  /** The event is the author typing into the open form. */
  predicate TypesIn(c: Client, e: Event, i: nat) {
    e.At? && e.client == i && e.action.Type? && c.editor.FormOpen() && SameForm(c.editor.kind, e.action.text)
  }

  /** What the author typed last, or else the draft the run started with. */
  function LastTyped(w: World, es: seq<Event>, i: nat): Draft
    requires i < |w.clients|
  {
    if es == [] then w.clients[i].editor.draft
    else
      var n := |es| - 1;
      ClientsStay(w, es[..n]);
      if TypesIn(RunFrom(w, es[..n]).clients[i], es[n], i) then es[n].action.text else LastTyped(w, es[..n], i)
  }

  lemma {:induction false} ClientsStay(w: World, es: seq<Event>)
    ensures |RunFrom(w, es).clients| == |w.clients|
  {
    if es != [] { ClientsStay(w, es[..|es| - 1]); }
  }

  /** The view moved on from the one that lost, to a revision the store holds. */
  ghost predicate Past(server: map<string, seq<Rev>>, v: View, key: string, lost: View) {
    v.key == key && TrueView(server, v) && (lost.key == key ==> v.version > lost.version)
  }

  /** No save of the client's own is outstanding. */
  lemma QuietStep(c: Client, a: Action)
    requires NoSave(c) && !a.SaveClick?
    ensures NoSave(Act(c, a))
  {
  }

  lemma QuietHandled(w: World, i: nat, j: nat, id: nat, governed: Option<string>, refused: Option<bool>)
    requires i < |w.clients| && j < |w.clients| && NoSave(w.clients[i])
    ensures NoSave(HandleCall(w, j, id, governed, refused).clients[i])
  {
  }

  lemma NoMoreCalls(server: map<string, seq<Rev>>, c: Client, next: Client)
    requires !Threatened(server, c) && next.editor.kind == c.editor.kind
    requires forall id :: id in next.calls ==>
        next.calls[id].Reloading? || (id in c.calls && next.calls[id] == c.calls[id])
    ensures !Threatened(server, next)
  {
    forall id | id in next.calls ensures !Threat(server, next.editor, next.calls[id]) {
      assert id in c.calls ==> !Threat(server, c.editor, c.calls[id]);
    }
  }

  /** The answer neither seeds the form nor starts a plain load. */
  predicate Harmless(e: Editor, call: Call, reply: Reply) {
    (call.Loading? ==> !reply.Got?) && (call.Saving? && reply.Accepted? ==> e.Blank(call.key))
  }

  lemma UnthreatenedReply(server: map<string, seq<Rev>>, c: Client, call: Call, reply: Reply)
    requires !Threatened(server, c) && Harmless(c.editor, call, reply)
    ensures !Threatened(server, Continue(c, call, reply)) && Continue(c, call, reply).editor.draft == c.editor.draft
  {
    NoMoreCalls(server, c, Continue(c, call, reply));
  }

  lemma UnthreatenedArrival(server: map<string, seq<Rev>>, c: Client, id: nat, delivered: bool)
    requires !Threatened(server, c)
    ensures !Threatened(server, Receive(c, id, delivered)) && Receive(c, id, delivered).editor.draft == c.editor.draft
  {
    if id in c.calls && (delivered ==> c.calls[id].reply.Some?) {
      var call, rest := c.calls[id], c.(calls := c.calls - {id});
      assert !Threat(server, c.editor, call);
      NoMoreCalls(server, c, rest);
      UnthreatenedReply(server, rest, call, if delivered then call.reply.value else Refused(false));
    }
  }

  lemma UnthreatenedStep(server: map<string, seq<Rev>>, c: Client, a: Action)
    requires !Threatened(server, c) && !a.Handle? && !a.SaveClick? && !a.CancelClick? && !a.LoadClick?
    ensures !Threatened(server, Act(c, a))
    ensures Act(c, a).editor.draft ==
            if a.Type? && c.editor.FormOpen() && SameForm(c.editor.kind, a.text) then a.text else c.editor.draft
  {
    if a.Arrive? {
      UnthreatenedArrival(server, c, a.call, a.delivered);
    } else {
      NoMoreCalls(server, c, Act(c, a));
    }
  }

  lemma StaleStaysStale(server: map<string, seq<Rev>>, later: map<string, seq<Rev>>, c: Client)
    requires !Threatened(server, c) && Extends(server, later)
    ensures !Threatened(later, c)
  {
    forall id | id in c.calls ensures !Threat(later, c.editor, c.calls[id]) {
      assert !Threat(server, c.editor, c.calls[id]);
      assert Revisions(server, c.calls[id].key) <= Revisions(later, c.calls[id].key);
    }
  }

  lemma AppendExtends(server: map<string, seq<Rev>>, key: string, rev: Rev)
    ensures Extends(server, Append(server, key, rev))
  {
  }

  lemma ServerGrows(w: World, e: Event)
    ensures Extends(w.server, Apply(w, e).server)
  {
    match e
    case Ingest(key, doc) => AppendExtends(w.server, key, Rev(doc, None));
    case Publish(key, _, doc) => AppendExtends(w.server, key, Rev(doc, None));
    case At(i, a) =>
      if i < |w.clients| && a.Handle? && a.call in w.clients[i].calls {
        var call := w.clients[i].calls[a.call];
        if call.Saving? { AppendExtends(w.server, call.key, Rev(call.doc, Some(call.view))); }
      }
  }

  /** Handling a request of one's own that is no threat does not make it one. */
  lemma UnthreatenedHandled(w: World, i: nat, j: nat, id: nat, governed: Option<string>, refused: Option<bool>)
    requires i < |w.clients| && j < |w.clients| && !Threatened(w.server, w.clients[i])
    ensures var next := HandleCall(w, j, id, governed, refused).clients[i];
            !Threatened(w.server, next) && next.editor == w.clients[i].editor
  {
    var c, next := w.clients[i], HandleCall(w, j, id, governed, refused).clients[i];
    forall k | k in next.calls ensures !Threat(w.server, next.editor, next.calls[k]) {
      assert k in c.calls && !Threat(w.server, c.editor, c.calls[k]);
    }
  }

  lemma UnthreatenedEvent(w: World, e: Event, i: nat)
    requires i < |w.clients| && !Threatened(w.server, w.clients[i]) && Waits([e], i)
    ensures i < |Apply(w, e).clients| && !Threatened(Apply(w, e).server, Apply(w, e).clients[i])
    ensures Apply(w, e).clients[i].editor.draft ==
            if TypesIn(w.clients[i], e, i) then e.action.text else w.clients[i].editor.draft
  {
    var next := Apply(w, e);
    assert [e][0] == e;
    if e.At? && e.client < |w.clients| {
      if e.action.Handle? {
        UnthreatenedHandled(w, i, e.client, e.action.call, e.action.governed, e.action.refused);
      } else if e.client == i {
        UnthreatenedStep(w.server, w.clients[i], e.action);
      }
    }
    ServerGrows(w, e);
    StaleStaysStale(w.server, next.server, next.clients[i]);
  }

  lemma ReloadStep(server: map<string, seq<Rev>>, c: Client, a: Action, key: string, lost: View)
    requires HonestClient(server, c) && NoSave(c) && !Threatened(server, c) && OnlyReload(c, key, lost)
    requires !a.Handle? && !a.SaveClick? && !a.CancelClick? && !a.LoadClick?
    ensures OnlyReload(Act(c, a), key, lost)
    ensures var now := Act(c, a).editor.view;
            now == c.editor.view || now.None? || Past(server, now.value, key, lost)
  {
    if a.Arrive? && a.call in c.calls {
      assert HonestCall(server, c.calls[a.call]) && !Threat(server, c.editor, c.calls[a.call]);
    }
  }

  lemma ReloadHandled(w: World, i: nat, j: nat, id: nat, governed: Option<string>, refused: Option<bool>, key: string,
                      lost: View)
    requires i < |w.clients| && j < |w.clients| && OnlyReload(w.clients[i], key, lost)
    ensures OnlyReload(HandleCall(w, j, id, governed, refused).clients[i], key, lost)
  {
  }

  lemma {:induction false} UnthreatenedRun(w: World, es: seq<Event>, i: nat)
    requires i < |w.clients| && !Threatened(w.server, w.clients[i]) && Waits(es, i)
    ensures var next := RunFrom(w, es);
            |next.clients| == |w.clients| && !Threatened(next.server, next.clients[i]) &&
            next.clients[i].editor.draft == LastTyped(w, es, i)
  {
    ClientsStay(w, es);
    if es != [] {
      var n := |es| - 1;
      var prefix, e := es[..n], es[n];
      ClientsStay(w, prefix);
      UnthreatenedRun(w, prefix, i);
      assert Waits([e], i) by { assert [e][0] == es[n]; }
      UnthreatenedEvent(RunFrom(w, prefix), e, i);
    }
  }

  /** The view is the one it was, gone, or past the one that lost. */
  ghost predicate AnchorHolds(before: Client, now: World, i: nat, key: string, lost: View)
    requires i < |now.clients|
  {
    var v := now.clients[i].editor.view;
    && OnlyReload(now.clients[i], key, lost)
    && (v == before.editor.view || v.None? || Past(now.server, v.value, key, lost))
  }

  /** The client waits, and nothing it waits for can overwrite the form. */
  ghost predicate Undisturbed(w: World, i: nat)
    requires i < |w.clients|
  {
    NoSave(w.clients[i]) && !Threatened(w.server, w.clients[i])
  }

  lemma QuietEvent(w: World, e: Event, i: nat)
    requires i < |w.clients| && NoSave(w.clients[i]) && Waits([e], i)
    ensures i < |Apply(w, e).clients| && NoSave(Apply(w, e).clients[i])
  {
    assert [e][0] == e;
    if e.At? && e.client < |w.clients| {
      if e.action.Handle? {
        QuietHandled(w, i, e.client, e.action.call, e.action.governed, e.action.refused);
      } else if e.client == i {
        QuietStep(w.clients[i], e.action);
      }
    }
  }

  lemma AnchorStep(before: Client, w: World, e: Event, i: nat, key: string, lost: View)
    requires Honest(w) && i < |w.clients| && Undisturbed(w, i)
    requires AnchorHolds(before, w, i, key, lost) && Waits([e], i)
    ensures i < |Apply(w, e).clients| && AnchorHolds(before, Apply(w, e), i, key, lost)
  {
    var next := Apply(w, e);
    ServerGrows(w, e);
    var was := w.clients[i].editor.view;
    if was.Some? && Past(w.server, was.value, key, lost) {
      TrueViewStays(w.server, next.server, was.value);
    }
    if e.At? && e.client < |w.clients| {
      if e.action.Handle? {
        ReloadHandled(w, i, e.client, e.action.call, e.action.governed, e.action.refused, key, lost);
      } else if e.client == i {
        assert [e][0] == e;
        ReloadStep(w.server, w.clients[i], e.action, key, lost);
      }
    }
  }

  lemma {:induction false} AnchorRun(w: World, more: seq<Event>, i: nat, key: string, lost: View)
    requires Honest(w) && i < |w.clients| && Undisturbed(w, i)
    requires OnlyReload(w.clients[i], key, lost) && Waits(more, i)
    ensures Honest(RunFrom(w, more)) && i < |RunFrom(w, more).clients|
    ensures Undisturbed(RunFrom(w, more), i) && AnchorHolds(w.clients[i], RunFrom(w, more), i, key, lost)
  {
    UnthreatenedRun(w, more, i);
    if more != [] {
      var n := |more| - 1;
      var init, e := more[..n], more[n];
      AnchorRun(w, init, i, key, lost);
      assert Waits([e], i) by { assert [e][0] == more[n]; }
      HonestStep(RunFrom(w, init), e);
      QuietEvent(RunFrom(w, init), e, i);
      AnchorStep(w.clients[i], RunFrom(w, init), e, i, key, lost);
    }
  }

  lemma {:induction false} RunConcat(w: World, es: seq<Event>, more: seq<Event>)
    ensures RunFrom(w, es + more) == RunFrom(RunFrom(w, es), more)
  {
    if more == [] {
      assert es + more == es;
    } else {
      RunConcat(w, es, more[..|more| - 1]);
      assert (es + more)[..|es + more| - 1] == es + more[..|more| - 1];
    }
  }

  /** From the moment the client hears of a 409, in every continuation without a save, cancel or load of its own and
      with no plain load outstanding, the draft is what its author typed last, and the anchor is the one that lost,
      gone, or past it; and once past it, it never falls back. */
  lemma AfterConflict(w: World, es: seq<Event>, i: nat, id: nat, more: seq<Event>, still: seq<Event>)
    requires Initial(w) && i < |RunFrom(w, es).clients|
    requires var c := RunFrom(w, es).clients[i];
             id in c.calls && c.calls[id].Saving? && c.calls[id].reply == Some(Conflict) &&
             !Threatened(RunFrom(w, es).server, c)
    requires Waits(more, i) && Waits(still, i)
    ensures var heard := es + [At(i, Arrive(id, true))];
            var lost, key := RunFrom(w, es).clients[i].calls[id].view, RunFrom(w, es).clients[i].calls[id].key;
            var start, now, later := RunFrom(w, heard), RunFrom(w, heard + more), RunFrom(w, heard + more + still);
            && i < |start.clients| && i < |now.clients| && i < |later.clients|
            && now.clients[i].editor.draft == LastTyped(start, more, i)
            && AnchorHolds(start.clients[i], now, i, key, lost)
            && AnchorHolds(now.clients[i], later, i, key, lost)
  {
    var e := At(i, Arrive(id, true));
    var heard := es + [e];
    var c := RunFrom(w, es).clients[i];
    assert heard[..|es|] == es;
    ConflictKeepsDraft(w, es, i, id);
    UnthreatenedStep(RunFrom(w, es).server, c, Arrive(id, true));
    assert Undisturbed(RunFrom(w, heard), i);
    RunHonest(w, heard);
    RunConcat(w, heard, more);
    RunConcat(w, heard + more, still);
    UnthreatenedRun(RunFrom(w, heard), more, i);
    AnchorRun(RunFrom(w, heard), more, i, c.calls[id].key, c.calls[id].view);
    AnchorRun(RunFrom(w, heard + more), still, i, c.calls[id].key, c.calls[id].view);
  }

  /** Some other text than this one, in the same form. */
  function Another(draft: Draft): (other: Draft)
    ensures other != draft
    ensures forall kind :: SameForm(kind, other) == SameForm(kind, draft)
  {
    match draft
    case NarrativeDraft(name, _, _) => draft.(nameText := name + "x")
    case TemporalDraft(model, _, _, _) => draft.(modelChoice := model + "x")
    case ServingDraft(eligible, _) => draft.(eligibleText := eligible + "x")
  }

  lemma Extend(w: World, es: seq<Event>, e: Event)
    ensures RunFrom(w, es + [e]) == Apply(RunFrom(w, es), e)
  {
    assert (es + [e])[..|es|] == es;
  }

  /** One more step of a run whose end is known. */
  lemma Then(w: World, es: seq<Event>, now: World, i: nat, a: Action, c: Client)
    requires RunFrom(w, es) == now && i < |now.clients| && !a.Handle? && Act(now.clients[i], a) == c
    ensures RunFrom(w, es + [At(i, a)]) == now.(clients := now.clients[i := c])
  {
    Extend(w, es, At(i, a));
  }

  lemma ThenHandled(w: World, es: seq<Event>, now: World, i: nat, id: nat, call: Call)
    requires RunFrom(w, es) == now && i < |now.clients| && now.clients[i].calls == map[id := call] && call.reply.None?
    ensures var reply := Answer(now.server, call, None, None);
            RunFrom(w, es + [At(i, Handle(id, None, None))]) ==
            World(now.clients[i := now.clients[i].(calls := map[id := call.(reply := Some(reply))])],
                  if reply.Accepted? then Append(now.server, call.key, Rev(call.doc, Some(call.view))) else now.server)
  {
    Extend(w, es, At(i, Handle(id, None, None)));
    assert map[id := call][id := call.(reply := Some(Answer(now.server, call, None, None)))] ==
           map[id := call.(reply := Some(Answer(now.server, call, None, None)))];
  }

  lemma TypedLast(w: World, es: seq<Event>, e: Event, i: nat)
    requires i < |w.clients|
    ensures i < |RunFrom(w, es).clients|
    ensures LastTyped(w, es + [e], i) == if TypesIn(RunFrom(w, es).clients[i], e, i) then e.action.text
        else LastTyped(w, es, i)
  {
    ClientsStay(w, es);
    assert (es + [e])[..|es|] == es;
  }

  /** Opening the form, if need be, and typing into it. */
  lemma TypesAnother(w: World, i: nat, text: Draft) returns (es: seq<Event>)
    requires i < |w.clients| && w.clients[i].editor.OnScreen() && SameForm(w.clients[i].editor.kind, text)
    ensures Waits(es, i) && LastTyped(w, es, i) == text
    ensures var next := RunFrom(w, es);
            && i < |next.clients| && next.server == w.server
            && next.clients[i].calls == w.clients[i].calls && next.clients[i].editor.kind == w.clients[i].editor.kind
  {
    var opening, typing := At(i, EditClick), At(i, Type(text));
    Opens(w, i);
    Extend(w, [], opening);
    assert [] + [opening] == [opening];
    Types(Apply(w, opening), i, text);
    Extend(w, [opening], typing);
    TypedLast(w, [opening], typing, i);
    es := [opening] + [typing];
  }

  lemma Opens(w: World, i: nat)
    requires i < |w.clients| && w.clients[i].editor.OnScreen()
    ensures var next := Apply(w, At(i, EditClick));
            && i < |next.clients| && next.server == w.server && next.clients[i].editor.FormOpen()
            && next.clients[i].calls == w.clients[i].calls && next.clients[i].editor.kind == w.clients[i].editor.kind
  {
  }

  lemma Types(w: World, i: nat, text: Draft)
    requires i < |w.clients| && w.clients[i].editor.FormOpen() && SameForm(w.clients[i].editor.kind, text)
    ensures var next := Apply(w, At(i, Type(text)));
            && i < |next.clients| && next.server == w.server
            && next.clients[i].calls == w.clients[i].calls && next.clients[i].editor.kind == w.clients[i].editor.kind
  {
  }

  /** A plain load that is not refused seeds the form. */
  lemma LoadLands(w: World, i: nat, id: nat)
    requires i < |w.clients| && id in w.clients[i].calls && w.clients[i].calls[id].Loading?
    requires Threat(w.server, w.clients[i].editor, w.clients[i].calls[id])
    ensures var call, kind := w.clients[i].calls[id], w.clients[i].editor.kind;
            var view := if call.reply.Some? then call.reply.value.view else CurrentView(w.server, call.key, None);
            var handled := Apply(w, At(i, Handle(id, None, None)));
            var next := Apply(handled, At(i, Arrive(id, true)));
            i < |next.clients| && next.clients[i].editor.draft == Seed(kind, view)
  {
    var call := w.clients[i].calls[id];
    var view := if call.reply.Some? then call.reply.value.view else CurrentView(w.server, call.key, None);
    var handled := Apply(w, At(i, Handle(id, None, None)));
    assert handled.clients[i].calls[id] == Loading(call.key, call.saving, Some(Got(view)));
    assert handled.clients[i].editor == w.clients[i].editor;
  }

  lemma LoadTakesDraft(w: World, i: nat, id: nat) returns (es: seq<Event>)
    requires i < |w.clients| && id in w.clients[i].calls && w.clients[i].calls[id].Loading?
    requires Threat(w.server, w.clients[i].editor, w.clients[i].calls[id]) && w.clients[i].editor.OnScreen()
    ensures Waits(es, i) && !DraftIsTyped(w, es, i)
  {
    var call, kind := w.clients[i].calls[id], w.clients[i].editor.kind;
    var view := if call.reply.Some? then call.reply.value.view else CurrentView(w.server, call.key, None);
    SeedFits(kind, view);
    es := TypesAnother(w, i, Another(Seed(kind, view)));
    var handling, arriving := At(i, Handle(id, None, None)), At(i, Arrive(id, true));
    LoadLands(RunFrom(w, es), i, id);
    Extend(w, es, handling);
    TypedLast(w, es, handling, i);
    Extend(w, es + [handling], arriving);
    TypedLast(w, es + [handling], arriving, i);
    es := es + [handling] + [arriving];
  }

  /** Nothing of the kind happened to the client: it is as it was, and nothing was typed. */
  ghost predicate Untouched(w: World, es: seq<Event>, i: nat)
    requires i < |w.clients|
  {
    Waits(es, i) && i < |RunFrom(w, es).clients| && RunFrom(w, es).clients[i] == w.clients[i] &&
    LastTyped(w, es, i) == w.clients[i].editor.draft
  }

  /** Other callers publish under the key until the store has reached the version. */
  lemma {:induction false} CatchesUp(w: World, i: nat, key: string, version: nat, doc: Doc) returns (es: seq<Event>)
    requires i < |w.clients| && version >= |Revisions(w.server, key)|
    ensures Untouched(w, es, i) && |Revisions(RunFrom(w, es).server, key)| == version
    decreases version
  {
    if version == |Revisions(w.server, key)| {
      es := [];
    } else {
      es := CatchesUp(w, i, key, version - 1, doc);
      var publishing := Publish(key, version - 1, doc);
      Extend(w, es, publishing);
      TypedLast(w, es, publishing, i);
      es := es + [publishing];
    }
  }

  /** The client after it heard that its save was accepted: a plain load is out. */
  lemma AcceptedReloads(server: map<string, seq<Rev>>, c: Client, id: nat)
    requires id in c.calls && c.calls[id].Saving? && c.calls[id].reply == Some(Accepted)
    requires !c.editor.Blank(c.calls[id].key) && c.editor.OnScreen()
    ensures var next := Act(c, Arrive(id, true));
            && next.editor.draft == c.editor.draft && next.editor.OnScreen()
            && c.next in next.calls && next.calls[c.next] == Loading(c.calls[id].key, true, None)
            && Threat(server, next.editor, next.calls[c.next])
  {
  }

  lemma AcceptedTakesDraft(w: World, i: nat, id: nat) returns (es: seq<Event>)
    requires i < |w.clients| && id in w.clients[i].calls && w.clients[i].calls[id].Saving?
    requires w.clients[i].calls[id].reply == Some(Accepted) && !w.clients[i].editor.Blank(w.clients[i].calls[id].key)
    requires w.clients[i].editor.OnScreen()
    ensures Waits(es, i) && !DraftIsTyped(w, es, i)
  {
    var c, arriving := w.clients[i], At(i, Arrive(id, true));
    var next := Apply(w, arriving);
    AcceptedReloads(w.server, c, id);
    assert next.clients[i] == Act(c, Arrive(id, true)) && next.server == w.server;
    var more := LoadTakesDraft(next, i, c.next);
    Extend(w, [], arriving);
    assert [] + [arriving] == [arriving];
    TypedLast(w, [], arriving, i);
    LongerRun(w, [arriving], more, i);
    es := [arriving] + more;
  }

  lemma WaitsLonger(es: seq<Event>, more: seq<Event>, i: nat)
    requires Waits(es, i) && Waits(more, i)
    ensures Waits(es + more, i)
  {
    forall k | 0 <= k < |es + more| && (es + more)[k].At? && (es + more)[k].client == i
      ensures !(es + more)[k].action.SaveClick? && !(es + more)[k].action.CancelClick? &&
          !(es + more)[k].action.LoadClick?
    {
      assert (es + more)[k] == if k < |es| then es[k] else more[k - |es|];
    }
  }

  lemma LastOff(es: seq<Event>, more: seq<Event>)
    requires more != []
    ensures var init, e := more[..|more| - 1], more[|more| - 1]; es + more == (es + init) + [e] && more == init + [e]
  {
  }

  /** What was typed over two stretches, when the first left the draft as last typed. */
  lemma {:induction false} TypedLonger(w: World, es: seq<Event>, more: seq<Event>, i: nat)
    requires i < |w.clients| && i < |RunFrom(w, es).clients| && DraftIsTyped(w, es, i)
    ensures LastTyped(w, es + more, i) == LastTyped(RunFrom(w, es), more, i)
  {
    if more == [] {
      assert es + more == es;
    } else {
      var init, e := more[..|more| - 1], more[|more| - 1];
      TypedLonger(w, es, init, i);
      RunConcat(w, es, init);
      LastOff(es, more);
      TypedLast(w, es + init, e, i);
      TypedLast(RunFrom(w, es), init, e, i);
    }
  }

  lemma LongerRun(w: World, es: seq<Event>, more: seq<Event>, i: nat)
    requires i < |w.clients| && i < |RunFrom(w, es).clients| && DraftIsTyped(w, es, i)
    requires Waits(es, i) && Waits(more, i) && !DraftIsTyped(RunFrom(w, es), more, i)
    ensures Waits(es + more, i) && !DraftIsTyped(w, es + more, i)
  {
    RunConcat(w, es, more);
    TypedLonger(w, es, more, i);
    WaitsLonger(es, more, i);
  }

  lemma Accepts(w: World, i: nat, id: nat)
    requires i < |w.clients| && id in w.clients[i].calls && w.clients[i].calls[id].Saving?
    requires var call := w.clients[i].calls[id];
             call.reply.None? && call.view.version == |Revisions(w.server, call.key)|
    ensures var call, next := w.clients[i].calls[id], Apply(w, At(i, Handle(id, None, None)));
            && i < |next.clients| && next.clients[i].editor == w.clients[i].editor && id in next.clients[i].calls
            && next.clients[i].calls[id] == Saving(call.key, call.view, call.doc, Some(Accepted))
  {
  }

  /** A save under way that may still be accepted: it is, and the reload that follows takes what was typed since. */
  lemma SaveTakesDraft(w: World, i: nat, id: nat) returns (es: seq<Event>)
    requires i < |w.clients| && id in w.clients[i].calls && w.clients[i].calls[id].Saving?
    requires Threat(w.server, w.clients[i].editor, w.clients[i].calls[id]) && w.clients[i].calls[id].reply.None?
    requires w.clients[i].editor.OnScreen()
    ensures Waits(es, i) && !DraftIsTyped(w, es, i)
  {
    var call := w.clients[i].calls[id];
    var handling := At(i, Handle(id, None, None));
    es := CatchesUp(w, i, call.key, call.view.version, call.doc);
    var w1 := RunFrom(w, es);
    Accepts(w1, i, id);
    var more := AcceptedTakesDraft(Apply(w1, handling), i, id);
    Extend(w, es, handling);
    TypedLast(w, es, handling, i);
    LongerRun(w, es + [handling], more, i);
    es := es + [handling] + more;
  }

  /** Any threat can take the author's words, whatever they are. */
  lemma ThreatTakesDraft(w: World, i: nat, id: nat) returns (es: seq<Event>)
    requires i < |w.clients| && id in w.clients[i].calls &&
        Threat(w.server, w.clients[i].editor, w.clients[i].calls[id])
    requires w.clients[i].editor.OnScreen()
    ensures Waits(es, i) && !DraftIsTyped(w, es, i)
  {
    var call := w.clients[i].calls[id];
    if call.Loading? {
      es := LoadTakesDraft(w, i, id);
    } else if call.reply.None? {
      es := SaveTakesDraft(w, i, id);
    } else {
      es := AcceptedTakesDraft(w, i, id);
    }
  }

  lemma SeedFits(kind: Kind, view: View)
    ensures SameForm(kind, Seed(kind, view))
  {
  }

  /** Until the next Save, Cancel or Load, whatever else happens, the draft is what its author typed last when nothing
      under way threatens it; and for a section on screen only then. */
  lemma DraftSafeIffUnthreatened(w: World, i: nat)
    requires i < |w.clients|
    ensures !Threatened(w.server, w.clients[i]) ==> forall es :: Waits(es, i) ==> DraftIsTyped(w, es, i)
    ensures w.clients[i].editor.OnScreen() ==>
              ((forall es :: Waits(es, i) ==> DraftIsTyped(w, es, i)) <==> !Threatened(w.server, w.clients[i]))
  {
    var c := w.clients[i];
    if !Threatened(w.server, c) {
      forall es | Waits(es, i) ensures DraftIsTyped(w, es, i) { UnthreatenedRun(w, es, i); }
    } else if c.editor.OnScreen() {
      var id :| id in c.calls && Threat(w.server, c.editor, c.calls[id]);
      var es := ThreatTakesDraft(w, i, id);
      assert !DraftIsTyped(w, es, i);
    }
  }

  ghost predicate DraftIsTyped(w: World, es: seq<Event>, i: nat)
    requires i < |w.clients|
  {
    i < |RunFrom(w, es).clients| && RunFrom(w, es).clients[i].editor.draft == LastTyped(w, es, i)
  }

  // ---------------------------------------------------------------- two runs that lose something

  function FreshServing(key: string): Client {
    Client(Editor(Serving, key, None, false, false, false, false, ServingDraft("", "")), map[], 0)
  }

  function Undeclared(key: string): View { View(key, 0, None, None) }

  /** Nothing was declared for the need; the client declared `text`, and the server has accepted it. */
  function Declared(key: string, text: string): Client {
    Client(Editor(Serving, key, Some(Undeclared(key)), false, false, false, true, ServingDraft(text, "")),
           map[1 := Saving(key, Undeclared(key), ServingDoc(Lines(text), Lines("")), Some(Accepted))], 2)
  }

  /** And has read its own declaration back. */
  function ReadBack(key: string, text: string, kept: Draft): Client {
    var view := View(key, 1, Some(ServingDoc(Lines(text), Lines(""))), None);
    Client(Editor(Serving, key, Some(view), false, false, false, false, kept), map[], 3)
  }

  lemma Declares(w: World, i: nat, key: string, text: string) returns (es: seq<Event>)
    requires i < |w.clients| && w.clients[i] == FreshServing(key) && key != "" && Revisions(w.server, key) == []
    ensures RunFrom(w, es) == World(w.clients[i := Declared(key, text)], w.server[key := [FirstRev(key, text)]])
  {
    var es1 := Asks(w, i, key);
    var w1 := RunFrom(w, es1);
    var es2 := SavesFirst(w1, i, key, text);
    RunConcat(w, es1, es2);
    assert w1.clients[i := Declared(key, text)] == w.clients[i := Declared(key, text)];
    es := es1 + es2;
  }

  function FirstRev(key: string, text: string): Rev { Rev(ServingDoc(Lines(text), Lines("")), Some(Undeclared(key))) }

  /** The need was asked about, and nothing was declared. */
  function Asked(key: string): Client {
    Client(Editor(Serving, key, Some(Undeclared(key)), false, false, false, false, ServingDraft("", "")), map[], 1)
  }

  lemma SavesFirst(w: World, i: nat, key: string, text: string) returns (es: seq<Event>)
    requires i < |w.clients| && w.clients[i] == Asked(key) && Revisions(w.server, key) == []
    ensures RunFrom(w, es) == World(w.clients[i := Declared(key, text)], w.server[key := [FirstRev(key, text)]])
  {
    var view, doc := Undeclared(key), ServingDoc(Lines(text), Lines(""));
    var c := Asked(key);
    var c1 := c.(editor := c.editor.(draft := ServingDraft(text, "")));
    var call := Saving(key, view, doc, None);
    var c2 := Client(c1.editor.(busy := true), map[1 := call], 2);
    Then(w, [], w, i, Type(ServingDraft(text, "")), c1);
    var w1 := w.(clients := w.clients[i := c1]);
    es := [] + [At(i, Type(ServingDraft(text, "")))];
    Then(w, es, w1, i, SaveClick, c2);
    var w2 := w1.(clients := w1.clients[i := c2]);
    es := es + [At(i, SaveClick)];
    ThenHandled(w, es, w2, i, 1, call);
    assert [] + [FirstRev(key, text)] == [FirstRev(key, text)];
    es := es + [At(i, Handle(1, None, None))];
    assert w2.clients[i := Declared(key, text)] == w.clients[i := Declared(key, text)];
  }

  lemma Asks(w: World, i: nat, key: string) returns (es: seq<Event>)
    requires i < |w.clients| && w.clients[i] == FreshServing(key) && key != "" && Revisions(w.server, key) == []
    ensures RunFrom(w, es) == w.(clients := w.clients[i := Asked(key)])
  {
    var c, call := FreshServing(key), Loading(key, false, None);
    var c1 := Client(c.editor, map[0 := call], 1);
    Then(w, [], w, i, LoadClick, c1);
    var w1 := w.(clients := w.clients[i := c1]);
    es := [] + [At(i, LoadClick)];
    ThenHandled(w, es, w1, i, 0, call);
    es := es + [At(i, Handle(0, None, None))];
    var c2 := c1.(calls := map[0 := Loading(key, false, Some(Got(Undeclared(key))))]);
    var w2 := w1.(clients := w1.clients[i := c2]);
    assert c2.calls - {0} == map[];
    Then(w, es, w2, i, Arrive(0, true), Asked(key));
    es := es + [At(i, Arrive(0, true))];
    assert w2.clients[i := Asked(key)] == w.clients[i := Asked(key)];
  }

  /** The server's answer has come, and the reload that follows it is out. */
  function Reading(key: string, text: string): Client {
    Client(Declared(key, text).editor, map[2 := Loading(key, true, None)], 3)
  }

  lemma HearsAccepted(key: string, text: string)
    requires key != ""
    ensures Act(Declared(key, text), Arrive(1, true)) == Reading(key, text)
  {
    assert Declared(key, text).calls - {1} == map[];
  }

  lemma HearsView(key: string, text: string, view: View)
    requires view == View(key, 1, Some(ServingDoc(Lines(text), Lines(""))), None)
    ensures var c := Reading(key, text).(calls := map[2 := Loading(key, true, Some(Got(view)))]);
            Act(c, Arrive(2, true)) == ReadBack(key, text, Seed(Serving, view))
  {
    var calls := map[2 := Loading(key, true, Some(Got(view)))];
    assert calls - {2} == map[];
  }

  lemma ReadsBack(w: World, i: nat, key: string, text: string) returns (es: seq<Event>, kept: Draft)
    requires i < |w.clients| && w.clients[i] == Declared(key, text) && key != ""
    requires Revisions(w.server, key) == [FirstRev(key, text)]
    ensures kept.ServingDraft? && RunFrom(w, es) == w.(clients := w.clients[i := ReadBack(key, text, kept)])
  {
    var view := View(key, 1, Some(ServingDoc(Lines(text), Lines(""))), None);
    kept := Seed(Serving, view);
    HearsAccepted(key, text);
    Then(w, [], w, i, Arrive(1, true), Reading(key, text));
    var w1 := w.(clients := w.clients[i := Reading(key, text)]);
    es := [] + [At(i, Arrive(1, true))];
    ThenHandled(w, es, w1, i, 2, Loading(key, true, None));
    es := es + [At(i, Handle(2, None, None))];
    var c2 := Reading(key, text).(calls := map[2 := Loading(key, true, Some(Got(view)))]);
    var w2 := w1.(clients := w1.clients[i := c2]);
    HearsView(key, text, view);
    Then(w, es, w2, i, Arrive(2, true), ReadBack(key, text, kept));
    es := es + [At(i, Arrive(2, true))];
    assert w2.clients[i := ReadBack(key, text, kept)] == w.clients[i := ReadBack(key, text, kept)];
  }

  /** Its author then turns the key fields to another need and saves. */
  lemma Rekeyed(w: World, i: nat, key: string, text: string, kept: Draft, other: string) returns (es: seq<Event>)
    requires i < |w.clients| && w.clients[i] == ReadBack(key, text, kept) && |Revisions(w.server, other)| == 1 &&
        kept.ServingDraft?
    ensures var view := w.clients[i].editor.view;
            RunFrom(w, es).server == Append(w.server, other, Rev(Build(kept, view.value), view))
  {
    var c, view := w.clients[i], w.clients[i].editor.view.value;
    var c1 := c.(editor := c.editor.(key := other));
    var call := Saving(other, view, Build(kept, view), None);
    var c2 := Client(c1.editor.(busy := true), map[3 := call], 4);
    Then(w, [], w, i, SetKey(other), c1);
    var w1 := w.(clients := w.clients[i := c1]);
    es := [] + [At(i, SetKey(other))];
    Then(w, es, w1, i, SaveClick, c2);
    var w2 := w1.(clients := w1.clients[i := c2]);
    es := es + [At(i, SaveClick)];
    ThenHandled(w, es, w2, i, 3, call);
    es := es + [At(i, Handle(3, None, None))];
  }

  /** From an empty store: a client asks about a need and saves. No load is out, and yet what its author types from
      here on can be overwritten, by the reload that follows the save. */
  lemma TypingDuringSaveLost(key: string) returns (w: World, es: seq<Event>, more: seq<Event>)
    requires key != ""
    ensures Initial(w) && |RunFrom(w, es).clients| == 1
    ensures var c := RunFrom(w, es).clients[0];
            c.editor.OnScreen() && forall id :: id in c.calls ==> !c.calls[id].Loading?
    ensures Waits(more, 0) && !DraftIsTyped(RunFrom(w, es), more, 0)
  {
    w := World([FreshServing(key)], map[]);
    es := Asks(w, 0, key);
    var w1 := w.(clients := w.clients[0 := Asked(key)]);
    var call := Saving(key, Undeclared(key), Build(ServingDraft("", ""), Undeclared(key)), None);
    var c := Client(Asked(key).editor.(busy := true), map[1 := call], 2);
    Then(w, es, w1, 0, SaveClick, c);
    es := es + [At(0, SaveClick)];
    more := SaveTakesDraft(RunFrom(w, es), 0, 1);
  }

  lemma TwoDeclared(w: World, a: string, x: string, b: string, y: string) returns (es: seq<Event>, kept: Draft)
    requires w == World([FreshServing(a), FreshServing(b)], map[]) && a != b && a != "" && b != ""
    ensures kept.ServingDraft?
    ensures RunFrom(w, es) == World([ReadBack(a, x, kept), Declared(b, y)],
        map[a := [FirstRev(a, x)], b := [FirstRev(b, y)]])
  {
    var es1 := Declares(w, 0, a, x);
    var w1 := World([Declared(a, x), FreshServing(b)], map[a := [FirstRev(a, x)]]);
    assert RunFrom(w, es1) == w1;
    var es2;
    es2, kept := ReadsBack(w1, 0, a, x);
    var w2 := w1.(clients := [ReadBack(a, x, kept), FreshServing(b)]);
    assert RunFrom(w1, es2) == w2;
    var es3 := Declares(w2, 1, b, y);
    RunConcat(w, es1, es2);
    RunConcat(w, es1 + es2, es3);
    es := es1 + es2 + es3;
  }

  lemma RekeyedOverwrites(w: World, a: string, x: string, kept: Draft, b: string) returns (es: seq<Event>)
    requires |w.clients| == 2 && w.clients[0] == ReadBack(a, x, kept) && kept.ServingDraft? && a != b
    requires |Revisions(w.server, b)| == 1
    ensures var server := RunFrom(w, es).server;
            && |Revisions(server, b)| == 2 && Revisions(server, b)[1].author.Some? && Overwrites(server, b, 1)
            && Revisions(server, b)[0] == Revisions(w.server, b)[0]
  {
    es := Rekeyed(w, 0, a, x, kept, b);
    var author := w.clients[0].editor.view;
    UnderAnotherKey(w.server, b, Rev(Build(kept, author.value), author));
  }

  lemma TwoFresh(a: string, b: string)
    ensures Initial(World([FreshServing(a), FreshServing(b)], map[]))
  {
  }

  /** For any two needs: two clients declare one each, from nothing; the first then saves under the second's key and
      overwrites a declaration it never had in view. */
  lemma KeyChangeLosesUpdate(a: string, x: string, b: string, y: string) returns (w: World, es: seq<Event>)
    requires a != b && a != "" && b != ""
    ensures Initial(w) && |Revisions(RunFrom(w, es).server, b)| == 2
    ensures Revisions(RunFrom(w, es).server, b)[1].author.Some? && Overwrites(RunFrom(w, es).server, b, 1)
    ensures Revisions(RunFrom(w, es).server, b)[0] == FirstRev(b, y)
  {
    w := World([FreshServing(a), FreshServing(b)], map[]);
    TwoFresh(a, b);
    var es1, kept := TwoDeclared(w, a, x, b, y);
    var w1 := RunFrom(w, es1);
    var es2 := RekeyedOverwrites(w1, a, x, kept, b);
    RunConcat(w, es1, es2);
    es := es1 + es2;
  }

  lemma UnderAnotherKey(server: map<string, seq<Rev>>, key: string, rev: Rev)
    requires |Revisions(server, key)| == 1 && rev.author.Some? && rev.author.value.key != key
    ensures |Revisions(Append(server, key, rev), key)| == 2 && Revisions(Append(server, key, rev), key)[1] == rev
    ensures Revisions(Append(server, key, rev), key)[0] == Revisions(server, key)[0]
    ensures Overwrites(Append(server, key, rev), key, 1)
  {
  }

  const TIED := TemporalDoc("scd2", "current_record", "explicit_only", [None, None, None, None, None], ["seq"])

  /** A row policy published with a tie-break, opened in the form and saved untouched, comes back without it. */
  lemma TieBreakLost() returns (w: World, es: seq<Event>)
    ensures Initial(w)
    ensures var revs := Revisions(RunFrom(w, es).server, "t");
            |revs| == 2 && revs[0].doc.TemporalDoc? && revs[1].doc.TemporalDoc? && revs[1].author.Some? &&
            revs[0].doc.tieBreaks == ["seq"] && revs[1].doc.tieBreaks == []
  {
    var blank := TemporalDraft("", "current_record", "explicit_only", ["", "", "", "", ""]);
    w := World([Client(Editor(Temporal, "t", None, false, false, false, false, blank), map[], 0)], map[]);
    var publishing := Publish("t", 0, TIED);
    Extend(w, [], publishing);
    assert [] + [publishing] == [publishing];
    var w1 := Apply(w, publishing);
    assert [] + [Rev(TIED, None)] == [Rev(TIED, None)];
    assert w1 == w.(server := map["t" := [Rev(TIED, None)]]);
    var more := OpensTied(w1);
    var w2 := RunFrom(w1, more);
    var saving, handling := At(0, SaveClick), At(0, Handle(1, None, None));
    Extend(w1, more, saving);
    Extend(w1, more + [saving], handling);
    var w3 := Apply(w2, saving);
    assert w3.clients[0].calls == map[1 := Saving("t", VIEW_TIED, Build(Seed(Temporal, VIEW_TIED), VIEW_TIED), None)];
    es := [publishing] + (more + [saving] + [handling]);
    RunConcat(w, [publishing], more + [saving] + [handling]);
  }

  const VIEW_TIED := View("t", 1, Some(TIED), None)

  lemma OpensTied(w: World) returns (es: seq<Event>)
    requires |w.clients| == 1 && w.server == map["t" := [Rev(TIED, None)]]
    requires w.clients[0].calls == map[] && w.clients[0].next == 0
    requires var e := w.clients[0].editor; e.kind == Temporal && e.key == "t" && !e.busy && !e.editing
    ensures var next := RunFrom(w, es);
            && |next.clients| == 1 && next.server == w.server && next.clients[0].calls == map[] &&
                next.clients[0].next == 1
            && var e := next.clients[0].editor;
               e.kind == Temporal && e.key == "t" && e.CanSave() && e.view == Some(VIEW_TIED) &&
                   e.draft == Seed(Temporal, VIEW_TIED)
  {
    var asking, handling, arriving, opening := At(0, LoadClick), At(0, Handle(0, None, None)), At(0, Arrive(0, true)),
        At(0, EditClick);
    Extend(w, [], asking);
    Extend(w, [asking], handling);
    Extend(w, [asking] + [handling], arriving);
    Extend(w, [asking] + [handling] + [arriving], opening);
    assert [] + [asking] == [asking];
    var w1 := Apply(w, asking);
    assert w1.clients[0].calls == map[0 := Loading("t", false, None)];
    var w2 := Apply(w1, handling);
    assert w2.clients[0].calls == map[0 := Loading("t", false, Some(Got(VIEW_TIED)))];
    assert w2.clients[0].calls - {0} == map[];
    assert Seed(Temporal, VIEW_TIED).modelChoice == "scd2";
    es := [asking] + [handling] + [arriving] + [opening];
  }

  // ---------------------------------------------------------------- reopening a form and saving it untouched

  predicate Clean(text: string) { text != "" && Trimmed(text) }

  predicate CleanLine(text: string) { Clean(text) && '\n' !in text }

  predicate CleanField(text: Option<string>) { text.Some? ==> Clean(text.value) }

  /** The documents a form can reproduce: no blank or padded text, no line breaks inside a ref, and for a
      row policy a known storage model and no tie-breaks. */
  predicate Reproducible(doc: Doc) {
    match doc
    case NarrativeDoc(name, description, context, _) => CleanField(name) && CleanField(description) &&
        CleanField(context)
    case TemporalDoc(model, _, _, refs, tieBreaks) =>
      model != "unknown" && tieBreaks == [] && forall i :: 0 <= i < |refs| ==> CleanField(refs[i])
    case ServingDoc(eligible, preferred) =>
      (forall i :: 0 <= i < |eligible| ==> CleanLine(eligible[i])) &&
      (forall i :: 0 <= i < |preferred| ==> CleanLine(preferred[i]))
  }

  lemma TypedBack(text: Option<string>)
    ensures Typed(OrEmpty(text)) == text <==> CleanField(text)
  {
    if text.Some? && Trimmed(text.value) {
      TrimOfTrimmed(text.value);
    }
  }

  lemma {:induction false} NonEmptyOf(parts: seq<string>)
    ensures forall p :: p in NonEmpty(parts) ==> p in parts && p != ""
    ensures (forall p :: p in parts ==> p != "") ==> NonEmpty(parts) == parts
  {
    if parts != [] {
      NonEmptyOf(parts[1..]);
      assert parts == [parts[0]] + parts[1..];
      assert forall p :: p in parts[1..] ==> p in parts;
      assert parts[0] in parts;
    }
  }

  predicate NoBreak(s: string) { '\n' !in s }

  lemma LinesAreClean(text: string, i: nat)
    requires i < |Lines(text)|
    ensures CleanLine(Lines(text)[i])
  {
    var parts := Split(text, '\n');
    var trimmed := TrimAll(parts);
    NonEmptyOf(trimmed);
    var line := Lines(text)[i];
    assert line in Lines(text);
    var k :| 0 <= k < |trimmed| && trimmed[k] == line;
    assert parts[k] in parts;
    assert HereditaryBy(NoBreak);
    TrimKeeps(NoBreak, parts[k]);
  }

  /** The textarea gives the refs back exactly when each is a clean line. */
  lemma LinesBack(refs: seq<string>)
    ensures Lines(Join(refs, "\n")) == refs <==> forall i :: 0 <= i < |refs| ==> CleanLine(refs[i])
  {
    var text := Join(refs, "\n");
    if Lines(text) == refs {
      forall i | 0 <= i < |refs| ensures CleanLine(refs[i]) { LinesAreClean(text, i); }
    }
    if forall i :: 0 <= i < |refs| ==> CleanLine(refs[i]) {
      if refs == [] {
        assert Split("", '\n') == [""];
        assert TrimAll([""]) == [""];
      } else {
        SplitJoin(refs, '\n');
        forall i | 0 <= i < |refs| ensures Trim(refs[i]) == refs[i] { TrimOfTrimmed(refs[i]); }
        assert TrimAll(refs) == refs;
        NonEmptyOf(refs);
      }
    }
  }

  predicate KindOf(kind: Kind, doc: Doc) {
    match kind
    case Narrative => doc.NarrativeDoc?
    case Temporal => doc.TemporalDoc?
    case Serving => doc.ServingDoc?
  }

  /** Saving an untouched form writes the loaded document back exactly when the form can reproduce it. */
  lemma UntouchedSave(kind: Kind, view: View)
    requires view.doc.Some? && KindOf(kind, view.doc.value)
    ensures Build(Seed(kind, view), view) == view.doc.value <==> Reproducible(view.doc.value)
  {
    var doc := view.doc.value;
    match doc
    case NarrativeDoc(name, description, context, _) =>
      TypedBack(name);
      TypedBack(description);
      TypedBack(context);
    case TemporalDoc(_, _, _, refs, _) =>
      forall i | 0 <= i < |refs| ensures Typed(OrEmpty(refs[i])) == refs[i] <==> CleanField(refs[i]) {
        TypedBack(refs[i]);
      }
      var back := Build(Seed(kind, view), view).refs;
      assert |back| == |refs| && forall i :: 0 <= i < |refs| ==> back[i] == Typed(OrEmpty(refs[i]));
    case ServingDoc(eligible, preferred) =>
      LinesBack(eligible);
      LinesBack(preferred);
  }
}
