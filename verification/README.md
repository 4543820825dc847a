# A verified model of FeatureGen's review, editing and reporting protocols

FeatureGen lets people review what a machine proposes about their data catalogs, edit what is declared about them,
and keep several stores of the same fact in step. This project models the parts of it whose correctness depends on
more than one function: asynchronous screens talking to a server, canonical texts that stand for values, groupings
that must lose nothing, and reports and claims against a database. Every property holds for all inputs, all runs or
all interleavings unless its row says otherwise.

| file | what it models |
|---|---|
| `Connector.dfy`, `ConnectorRuns.dfy` | the preview, remap, approve, import protocol: panel, network, server, and every run of the three; which sync each request is for |
| `CasEditing.dfy`, `CasSaves.dfy` | the narrative panel and both policy sections: any number of clients against one compare-and-swap store; what their saves write |
| `LoadHistory.dfy`, `DashboardLoad.dfy`, `ReviewLoad.dfy` | the "newest load wins" guards of the governance dashboard and review screens |
| `GovernanceQueue.dfy`, `QueueReading.dfy` | candidate groups, urgency and strength order, usage summaries, counts |
| `TagMap.dfy`, `TagMapText.dfy`, `CandidateDiff.dfy` | the tag-map text field, printed and read; the shared head and tail of a group's subjects |
| `Canonical.dfy`, `CanonicalMeaning.dfy`, `JsonText.dfy`, `FloatText.dfy`, `Numerals.dfy` | canonical JSON text (RFC 8785), a reader of JSON text, what a text means, contract envelopes, number text |
| `ConceptClaims.dfy` | first-claim-wins over concurrent transactions |
| `MigrationLedger.dfy` | the migration-ledger verdict, the dump it reads, the runner it foretells |
| `FieldAuthority.dfy`, `FieldVerdicts.dfy` | the field-authority resolver and what each of its strategies answers |
| `ProfileReconcile.dfy`, `ReconcileReport.dfy` | the four-way reconciliation report, and the same column by column |
| `Options.dfy`, `Text.dfy`, `Collections.dfy`, `CodePointOrder.dfy` | absent values, trimming, splitting, filtering, stable sorting, grouping, lexicographic order, Python's string order |

An asynchronous handler is cut at each `await`: what runs before it is one method, each way it goes on is another.
Each screen is a class whose methods are proved equal to functions on a value of its state; runs are sequences of
events over those functions, so an event may come at any moment and responses in any order. Impossible events
leave the state alone.

## What does not hold, and exactly when

- Every commit is the diff that was shown, in the source that diff was computed for. The panel, however, names the
  target of its own copy of the sync; the two are the same exactly when that copy was current as the preview was
  computed (`Connector.CommittedTarget`, and a run in `Connector.OldCopyMisnamesTarget`).
- The preview on screen can be of a sync other than the picked one, and be approved: exactly when the last pick was of
  another sync and was made while a preview or remap of this one was awaited (`ConnectorRuns.PreviewOfAnother`, a run in
  `ConnectorRuns.PostedAnother`). What is posted is still the sync of the preview shown.
- A save overwrites a revision its author did not have in view exactly when it goes out under another key than the view
  was loaded for and that key already has a revision, which only a serving policy can do
  (`CasEditing.SaveReplacesWhatWasLoaded`, runs in `CasEditing.KeyChangeLosesUpdate`).
- A row policy saved from the form keeps the tie-breaks of the one it replaces exactly when there were none
  (`CasEditing.TieBreaksErased`, a run in `CasEditing.TieBreakLost`).
- A draft on screen is safe until the next save, cancel or load exactly when nothing under way can overwrite it: no
  plain load that is not refused, and no save, under a key that can be loaded, that was accepted or may yet be
  (`CasEditing.DraftSafeIffUnthreatened`; runs in `CasEditing.ThreatTakesDraft`, and from an empty store, typing while a
  save is out, in `CasEditing.TypingDuringSaveLost`). After a 409 that leaves only plain loads
  (`CasEditing.AfterConflict`).
- Reopening a sync and saving it untouched leaves the stored override alone exactly when nothing is sent, what is sent
  is refused, or it is what is stored: the request compares nothing, so a printable copy, however old, overwrites a
  newer override. For a current copy that is: when it is empty, printable, or reads back as something refused, and for
  tags without delimiters or separators nothing is refused (`TagMap.ReopenThenSave`, `TagMap.PlainTagsNeverRefused`, an
  override it alters in `TagMap.UnnamedTagDropped`). No text typed into the field takes a stored override away; blanking
  it does nothing (`TagMap.NeverCleared`).
- One response can be committed twice, after its answer was lost; that needs the catalog to stand at the baseline shown
  again (`Connector.SecondCommit`, a run in `Connector.CommittedTwice`).
- The module text of `canonical.py` says no contract hash collides with a bare payload hash; one does exactly when the
  bare payload is itself the three-key envelope (`Canonical.BareMatchesContract`, `Canonical.EnvelopeHashedBare`).
- A bridge without catalogs and a bridge with one unnamed catalog share a group key, and so do bridges whose names,
  cut at every bar, are the same pieces (`GovernanceQueue.SharedEntry`, `GovernanceQueue.BarMerges`).
- The review screen promises that a handoff slug naming no visible catalog is dropped; a deep link that arrives over a
  loaded queue is not, until something else sets the filter (`ReviewLoad.StrandedExactly`, a history in
  `ReviewLoad.LinkStrands`).
- `_select` calls itself a function of evidence and strategy; with two values its severity order does not know, it is
  whichever the set yields first (`FieldAuthority.SettledUnlessAmbiguous`, `FieldAuthority.UnknownValuesUnsettled`).
- A load-bearing profile classification is always one that evidence the rule names asserts, exactly while no producer
  but a human may confirm where a source may attest (`FieldAuthority.ClassificationBacked`, `FieldAuthority.RivalWins`).
- A clean ledger verdict promises a deploy exactly for builds that give each name one source
  (`MigrationLedger.CleanMeansDeployable`, `MigrationLedger.ConflictUnseen`).

## Model

| member | source | states |
|---|---|---|
| `Connector.ConnectorPanel.List` | frontend/src/screens/ConnectorPanel.tsx:102-106 | the list arrives, and its first sync is selected unless one already is |
| `Connector.ConnectorPanel.OnSelect` | frontend/src/screens/ConnectorPanel.tsx:143-152 | selecting drops preview, errors, stale mark, confirmation and result, and takes neither ticket nor busy check |
| `Connector.ConnectorPanel.RunPreview` | frontend/src/screens/ConnectorPanel.tsx:154-165 | ignored while busy; otherwise a fresh ticket and a request for that sync |
| `Connector.ConnectorPanel.PreviewResponse` | frontend/src/screens/ConnectorPanel.tsx:166-174 | lands only under the current ticket |
| `Connector.ConnectorPanel.Remap` | frontend/src/screens/ConnectorPanel.tsx:176-191 | needs a preview and idleness; the patch carries the sync's override with this tag replaced |
| `Connector.ConnectorPanel.PatchResponse` | frontend/src/screens/ConnectorPanel.tsx:192-206 | a patched sync replaces its listed copy and is previewed again; a failed patch drops the old preview |
| `Connector.ConnectorPanel.RepreviewResponse` | frontend/src/screens/ConnectorPanel.tsx:195-206 | the new preview is kept with the updated sync, or the old one is dropped |
| `Connector.ConnectorPanel.RemapRejected` | frontend/src/screens/ConnectorPanel.tsx:198-206 | a failed remap leaves nothing approvable |
| `Connector.ConnectorPanel.ApproveClick` | frontend/src/screens/ConnectorPanel.tsx:209-228 | first click arms, second posts the sync id and both hashes of the preview on screen |
| `Connector.ConnectorPanel.CancelConfirm` | frontend/src/screens/ConnectorPanel.tsx:396 | disarms and nothing else |
| `Connector.ConnectorPanel.ImportResponse` | frontend/src/screens/ConnectorPanel.tsx:229-243 | success, conflict and other failures each set exactly their own flags, under the current ticket |
| `Connector.RunSafe` | frontend/src/screens/ConnectorPanel.tsx:143-243 | every run keeps the joint invariant of panel, requests, history and server |
| `Connector.OneOperationInFlight` | frontend/src/screens/ConnectorPanel.tsx:91-93 | in every run at most one operation is in flight, the flags are never both up, a flag is up exactly while its operation is out, and its ticket is the newest |
| `Connector.ArmedByOneClick` | frontend/src/screens/ConnectorPanel.tsx:209-216 | whenever the panel is confirming, one earlier approve click armed it and the preview has not changed since |
| `Connector.PostedWasReviewed` | frontend/src/screens/ConnectorPanel.tsx:7-14 | every posted import carries sync id and hashes of one response that arrived for that sync and stayed on screen from the first approve click to the confirming one |
| `Connector.CommittedWasShown` | src/featuregen/api/routes/integrations.py:561-619 | with a server that commits only on both hashes, what is committed is the diff that was shown, source, rows and baseline |
| `Connector.HashesFixSource` | src/featuregen/connectors/openmetadata.py:388-411 | rows carry their source, so agreeing hashes of a non-empty pull leave no room for another target |
| `Connector.CommittedTarget` | frontend/src/screens/ConnectorPanel.tsx:80-82 | a commit goes where its preview was computed for; that is the source the panel names exactly when the client's listed copy was current as the preview was computed |
| `Connector.OldCopyMisnamesTarget` | frontend/src/screens/ConnectorPanel.tsx:387 | a run in which it was not |
| `Connector.Drive` | frontend/src/screens/ConnectorPanel.tsx:143-243 | the object driven by any event does what the run model says |
| `Connector.RemapOutdatesPreviews` | frontend/src/screens/ConnectorPanel.tsx:176-207 | once a remap starts, no response that arrived before it is ever posted |
| `Connector.UsedUpOnce` | frontend/src/screens/ConnectorPanel.tsx:209-243 | one response backs at most one import seen to succeed and is never posted again after a success or a 409 |
| `Connector.SecondCommit` | src/featuregen/api/routes/integrations.py:607-619 | a second commit of one response needs the catalog at the baseline shown: the first left it there, or an event in between brought it back |
| `Connector.CommittedTwice` | frontend/src/screens/ConnectorPanel.tsx:232-239 | a run in which a lost answer and a restored catalog let one response be committed twice |
| `Connector.SeenChoiceStays` | frontend/src/screens/ConnectorPanel.tsx:186-194 | a tag choice the client saw accepted stays in its override until the same tag is remapped |
| `ConnectorRuns.PreviewOfThePicked` | frontend/src/screens/ConnectorPanel.tsx:135-300 | in every run the preview button asks for the first listed sync with the picked id when nothing is awaited, and otherwise does nothing |
| `ConnectorRuns.PreviewOfTheShown` | frontend/src/screens/ConnectorPanel.tsx:412-428 | running a stale preview again asks for the sync of the preview on screen, whichever is picked |
| `ConnectorRuns.RemapOfTheShown` | frontend/src/screens/ConnectorPanel.tsx:176-191 | a remap patches the sync of the preview on screen, which stays there until the answer; a stale one cannot be remapped |
| `ConnectorRuns.PatchUpdates` | frontend/src/screens/ConnectorPanel.tsx:188-195 | the patched copy has the prior override with this one tag replaced; it takes the place of its listed copies, and the preview then awaited is of it |
| `ConnectorRuns.PatchFails` | frontend/src/screens/ConnectorPanel.tsx:198-206 | a failed patch drops the preview it was for |
| `ConnectorRuns.ReplyShows` | frontend/src/screens/ConnectorPanel.tsx:165-174 | a pull that found something lands as the preview of the sync that was asked for, with its hashes; any other leaves no preview |
| `ConnectorRuns.TranslatedExactly` | src/featuregen/connectors/openmetadata.py:388-411 | one row for each column found, each for the target |
| `ConnectorRuns.PickClears` | frontend/src/screens/ConnectorPanel.tsx:143-152 | a pick takes the preview off the screen and touches nothing awaited or listed |
| `ConnectorRuns.PreviewOfAnother` | frontend/src/screens/ConnectorPanel.tsx:143-152 | the preview on screen is of a sync other than the picked one exactly when the last pick was of another and made while a preview or remap of this one was awaited |
| `ConnectorRuns.PostedAnother` | frontend/src/screens/ConnectorPanel.tsx:143-152 | a run in which the import posted is of a sync that is not the picked one |
| `ConnectorRuns.MarksExactly` | frontend/src/screens/ConnectorPanel.tsx:143-243 | after any run the stale mark, the imported mark and the two errors stand exactly since the answer or failure that raises each, with nothing that lowers it after |
| `ConnectorRuns.HandledExactly` | src/featuregen/api/routes/integrations.py:561-619 | a post is answered 409 exactly when rows or catalog are not those shown; otherwise what was shown is committed exactly when it lands |
| `ConnectorRuns.AnswerHeard` | frontend/src/screens/ConnectorPanel.tsx:224-243 | the panel after each answer to an import, or its loss |
| `ConnectorRuns.CancelTakesBack` | frontend/src/screens/ConnectorPanel.tsx:394-398 | cancelling takes back the first approve click and nothing else |
| `ConnectorRuns.FreshAfterConflict` | frontend/src/screens/ConnectorPanel.tsx:404-428 | after a 409 the preview can be run again and approved: the import posted is of the same sync and carries the new response |
| `CasEditing.PolicyEditor.Load` | frontend/src/screens/DatasetPolicyPanel.tsx:296-299 | asks for the given key; a blank serving key drops the view instead |
| `CasEditing.PolicyEditor.LoadResponse` | frontend/src/screens/CatalogNarrativePanel.tsx:41-47 | takes the view, and the form's text only when the draft is not to be kept |
| `CasEditing.PolicyEditor.LoadError` | frontend/src/screens/DatasetPolicyPanel.tsx:305-308 | not found hides the editor, and drops a serving view; other errors change neither |
| `CasEditing.PolicyEditor.Save` | frontend/src/screens/CatalogNarrativePanel.tsx:58-72 | sends the form with the version of the view on screen, under the key as it is now |
| `CasEditing.PolicyEditor.SaveResponse` | frontend/src/screens/CatalogNarrativePanel.tsx:73-92 | success reloads into the form; a conflict keeps draft and form and reloads the anchor only |
| `CasEditing.PolicyEditor.Cancel` | frontend/src/screens/CatalogNarrativePanel.tsx:186 | leaves editing and reloads into the form |
| `CasEditing.RunHonest` | src/featuregen/overlay/upload/profile_store.py:68-124 | in every run of any number of clients, each view and each request refers to a revision the store really holds |
| `CasEditing.SaveReplacesWhatWasLoaded` | frontend/src/screens/CatalogNarrativePanel.tsx:58-76 | an accepted save overwrites a revision its author did not have in view exactly when it went out under another key than the view was loaded for and there was one; never for narratives and row policies |
| `CasEditing.KeyChangeLosesUpdate` | frontend/src/screens/DatasetPolicyPanel.tsx:299-325 | for any two needs, a run of two clients from an empty store in which one overwrites the other's declaration unseen |
| `CasEditing.DomainsCarried` | frontend/src/screens/CatalogNarrativePanel.tsx:71 | business domains survive any stretch of UI saves unchanged |
| `CasEditing.TieBreaksErased` | frontend/src/screens/DatasetPolicyPanel.tsx:115-125 | a saved row policy keeps its predecessor's tie-breaks exactly when there were none |
| `CasEditing.TieBreakLost` | frontend/src/screens/DatasetPolicyPanel.tsx:115-125 | a run in which a published tie-break is lost to an untouched save |
| `CasEditing.RunOneSave` | frontend/src/screens/CatalogNarrativePanel.tsx:61-92 | in every run each client has at most one save under way, and is busy exactly while it is |
| `CasEditing.ConflictKeepsDraft` | frontend/src/screens/CatalogNarrativePanel.tsx:77-86 | a conflict leaves the draft as typed and sends a draft-keeping reload |
| `CasEditing.ReloadAdvancesAnchor` | frontend/src/screens/CatalogNarrativePanel.tsx:83-86 | that reload's answer moves the anchor strictly past the version that lost, to a revision the store holds, and keeps the draft |
| `CasEditing.AfterConflict` | frontend/src/screens/CatalogNarrativePanel.tsx:77-89 | after a 409 with no plain load outstanding, in every continuation without a save, cancel or load of its own, the draft is what was typed last and the anchor is the one that lost, gone, or past it, and never falls back once past it |
| `CasEditing.Drive` | frontend/src/screens/CatalogNarrativePanel.tsx:39-93 | the object driven by any action does what the run model says |
| `CasEditing.DraftSafeIffUnthreatened` | frontend/src/screens/CatalogNarrativePanel.tsx:36-92 | until the next save, cancel or load the draft is what was last typed into the open form, in every continuation, when no request under way can still overwrite it, and for a section on screen only then |
| `CasEditing.ThreatTakesDraft` | frontend/src/screens/DatasetPolicyPanel.tsx:80-141 | for every such request, plain load or save that may be accepted, a continuation that overwrites what the author types into the open form |
| `CasEditing.TypingDuringSaveLost` | frontend/src/screens/DatasetPolicyPanel.tsx:315-343 | from an empty store, a run in which no load is out and what is typed while the save is out is overwritten |
| `CasEditing.LinesBack` | frontend/src/screens/DatasetPolicyPanel.tsx:303-313 | the text area gives the refs back exactly when each is a non-empty trimmed single line |
| `CasEditing.UntouchedSave` | frontend/src/screens/DatasetPolicyPanel.tsx:86-125 | saving an untouched form writes the loaded document back exactly when the form can hold it |
| `CasSaves.SavedAsTyped` | frontend/src/screens/CatalogNarrativePanel.tsx:58-72 | in every run each revision saved from a form was sent by a click of its save button: the form then said, field by field and trimmed, what the revision says, its view was the author's and its key the revision's |
| `CasSaves.BuildSays` | frontend/src/screens/DatasetPolicyPanel.tsx:313-325 | what is sent: typed text trimmed or absent, choices as chosen, no tie-breaks, the non-blank lines trimmed and in order |
| `CasSaves.HandledExactly` | src/featuregen/api/routes/catalogs.py:126-155 | a save is accepted exactly when the key has as many revisions as the version it was made on, and is then the next one; a load is answered with the latest |
| `CasSaves.LoadShows` | frontend/src/screens/DatasetPolicyPanel.tsx:80-102 | a plain load puts the answered revision on screen and into the form, with the defaults of an undeclared policy |
| `CasSaves.FlagsExactly` | frontend/src/screens/CatalogNarrativePanel.tsx:39-92 | after any run editing, the conflict notice and the hidden section stand exactly since the event that raises each, with nothing that lowers it after |
| `DashboardLoad.DashboardScreen.Load` | frontend/src/screens/GovernanceDashboardScreen.tsx:152-155 | a new newest load: loading, and no error |
| `DashboardLoad.DashboardScreen.Resume` | frontend/src/screens/GovernanceDashboardScreen.tsx:156-168 | only the newest load's answer changes anything; failure keeps the counts |
| `DashboardLoad.LoadingUntilSettled` | frontend/src/screens/GovernanceDashboardScreen.tsx:149-168 | loading is false exactly when the newest load has been answered, and an error shown is never an earlier load's |
| `DashboardLoad.OneResponseShown` | frontend/src/screens/GovernanceDashboardScreen.tsx:160-163 | counts and scope come from one response, the latest that answered the newest load of its moment; with none, neither is shown |
| `DashboardLoad.NewestDecides` | frontend/src/screens/GovernanceDashboardScreen.tsx:152-168 | once the newest load has settled, the whole screen is fixed by its answer |
| `DashboardLoad.OrderDoesNotMatter` | frontend/src/screens/GovernanceDashboardScreen.tsx:149-168 | same loads, same good answer to the newest: same screen, whatever else arrived in whatever order |
| `DashboardLoad.LateAnswerInvisible` | frontend/src/screens/GovernanceDashboardScreen.tsx:149-161 | striking a superseded answer from any history changes nothing, then or later |
| `LoadHistory.LiveIdsAscend` | frontend/src/screens/GovernanceReviewScreen.tsx:1571-1572 | what is shown never goes back to an older load |
| `ReviewLoad.ReviewScreen.Load` | frontend/src/screens/GovernanceReviewScreen.tsx:1574-1576 | a new newest load: loading, error kept |
| `ReviewLoad.ReviewScreen.Resume` | frontend/src/screens/GovernanceReviewScreen.tsx:1577-1593 | only the newest load's answer changes anything; it drops a filter its queue does not name; failure drops the queue |
| `ReviewLoad.LoadingUntilSettled` | frontend/src/screens/GovernanceReviewScreen.tsx:1571-1594 | loading is false exactly when the newest load has been answered |
| `ReviewLoad.NewestDecides` | frontend/src/screens/GovernanceReviewScreen.tsx:1571-1594 | once the newest load has settled, queue and error are its answer, whatever else arrived and whatever the filter did |
| `ReviewLoad.LateAnswerInvisible` | frontend/src/screens/GovernanceReviewScreen.tsx:1571-1579 | striking a superseded answer from any history changes nothing, the filter included |
| `ReviewLoad.StrandedExactly` | frontend/src/screens/GovernanceReviewScreen.tsx:1583-1604 | the filter names a catalog the queue lacks exactly when a deep link brought it over a loaded queue and nothing has set the filter since |
| `ReviewLoad.LinkStrands` | frontend/src/screens/GovernanceReviewScreen.tsx:1602-1604 | such a history |
| `ReviewLoad.LastLiveShown` | frontend/src/screens/GovernanceReviewScreen.tsx:1574-1593 | at any moment the screen shows the last answer that was to the newest load of its moment, and nothing before the first |
| `ReviewLoad.FilterExactly` | frontend/src/screens/GovernanceReviewScreen.tsx:1583-1604 | the filter is what the last link, offered chip or queue without its catalog made it, or the first handoff's |
| `GovernanceQueue.EntriesFor` | frontend/src/screens/GovernanceReviewScreen.tsx:431-454 | one entry per item, or per group key in order of first appearance with exactly the items of that key |
| `Collections.FileAll` | frontend/src/screens/GovernanceReviewScreen.tsx:435-442 | the filling loop leaves the keys in order of first appearance and in each bucket exactly its items in order |
| `GovernanceQueue.SharedEntry` | frontend/src/screens/GovernanceReviewScreen.tsx:437-438 | two bridges share an entry exactly when label and sorted catalogs, cut at every bar, are the same pieces; without bars that is the same label and catalog multiset, but for no catalogs against one unnamed one |
| `GovernanceQueue.BarMerges` | frontend/src/screens/GovernanceReviewScreen.tsx:437-438 | two different bridges that a bar merges |
| `GovernanceQueue.RankedByStrength` | frontend/src/screens/GovernanceReviewScreen.tsx:474-478 | same items, strongest first, unrecorded strength last |
| `GovernanceQueue.TiesInPayloadOrder` | frontend/src/screens/GovernanceReviewScreen.tsx:469-478 | equal strengths keep payload order |
| `GovernanceQueue.UrgencyIsTiers` | frontend/src/screens/GovernanceReviewScreen.tsx:456-467 | the order is yours, then somebody else's, then settled, each tier in its incoming order |
| `GovernanceQueue.EveryItemOnce` | frontend/src/screens/GovernanceReviewScreen.tsx:431-467 | grouping and sorting show every item exactly once |
| `GovernanceQueue.CountsAddUp` | frontend/src/screens/GovernanceReviewScreen.tsx:1704-1708 | yours, elsewhere and endorsed add up to the total |
| `GovernanceQueue.GroupUsages` | frontend/src/screens/GovernanceReviewScreen.tsx:546-568 | one summary per category, in order of first appearance, of exactly the records held for it |
| `GovernanceQueue.NumberOnlyIfAllMeasured` | frontend/src/screens/GovernanceReviewScreen.tsx:541-545 | a number exactly when every record of the category is a measurement, and then their sum; unreadable exactly when one record is |
| `GovernanceQueue.UsageIgnoresOrder` | frontend/src/screens/GovernanceReviewScreen.tsx:546-568 | however the items are ordered, the same categories with the same state and count |
| `QueueReading.SectionReads` | frontend/src/screens/GovernanceReviewScreen.tsx:431-454 | bridges make one entry per key in order of first appearance, alone under their fact key or as the group named after the first; other kinds one entry each |
| `QueueReading.UrgencyReads` | frontend/src/screens/GovernanceReviewScreen.tsx:463-467 | entries with a member to confirm, then those with a member to act on, then the rest, each in incoming order |
| `QueueReading.TotalIsSum` | frontend/src/screens/GovernanceReviewScreen.tsx:565 | the total is the sum of the counts |
| `QueueReading.UsageReads` | frontend/src/screens/GovernanceReviewScreen.tsx:546-568 | per category in order of first appearance one record: the first one's words, one of three states, the sum and its text only when all are counted, else no number and the state as text |
| `TagMap.ParseTagMap` | frontend/src/screens/IntegrationsScreen.tsx:57-72 | the loop computes the parse, which always lands in the printable maps |
| `TagMap.FormatThenParse` | frontend/src/screens/IntegrationsScreen.tsx:57-79 | parsing the printed map returns it exactly for printable maps, in any enumeration order |
| `TagMap.ParseFormatParse` | frontend/src/screens/IntegrationsScreen.tsx:57-79 | for every text, printing the parsed map and parsing again changes nothing |
| `TagMap.ReopenThenSave` | src/featuregen/api/routes/integrations.py:433-462 | an untouched form sends its copy exactly when that is non-empty and printable; whatever is stored by then survives exactly when nothing is sent, it is refused, or it is the same; a printable copy overwrites |
| `TagMap.PlainTagsNeverRefused` | src/featuregen/api/routes/integrations.py:231-237 | for tags without delimiters or separators a current override survives exactly when it is empty or printable |
| `TagMap.UnnamedTagDropped` | frontend/src/screens/IntegrationsScreen.tsx:67-69 | a stored override that does not survive |
| `TagMap.NeverCleared` | src/featuregen/api/routes/integrations.py:449-450 | no text takes a stored override away, and a blank field leaves it as it is |
| `TagMapText.ParseConcat` | frontend/src/screens/IntegrationsScreen.tsx:57-72 | a comma or newline separates what its two sides say; of a repeated tag the last counts |
| `TagMapText.EntryWithSeparator` | frontend/src/screens/IntegrationsScreen.tsx:62-69 | an entry is cut at its first `->`, arrow, `:` or `=`, and both sides are trimmed |
| `TagMapText.EntryWithoutSeparator` | frontend/src/screens/IntegrationsScreen.tsx:60-66 | an entry without one is a tag to ignore, a blank one nothing |
| `TagMapText.FormatReads` | frontend/src/screens/IntegrationsScreen.tsx:74-79 | tag, arrow and value with single spaces; entries separated by a comma and a space |
| `CandidateDiff.CommonPrefixLength` | frontend/src/screens/candidateDiff.ts:25-30 | the longest length on which all values agree |
| `CandidateDiff.ToBoundary` | frontend/src/screens/candidateDiff.ts:34-39 | the last boundary inside the match, or none |
| `CandidateDiff.SplitSubjects` | frontend/src/screens/candidateDiff.ts:41-68 | prefix, middle and suffix rebuild each subject; unless all are equal the prefix is the longest shared head ending on a boundary and the suffix the longest shared tail of the rest starting on one |
| `CandidateDiff.SharedTail` | frontend/src/screens/candidateDiff.ts:57-61 | the longest shared tail starting on a boundary, found on the reversed tails |
| `CandidateDiff.DistinctMiddles` | frontend/src/screens/candidateDiff.ts:63-67 | two subjects have the same middle exactly when they are the same |
| `CandidateDiff.SplitIsIdempotent` | frontend/src/screens/candidateDiff.ts:41-68 | splitting the middles strips nothing further |
| `CandidateDiff.SplitIgnoresOrder` | frontend/src/screens/candidateDiff.ts:44-60 | permuting the subjects keeps prefix and suffix and permutes the middles alike |
| `Canonical.PlainKeepsMeaning` | src/featuregen/canonical.py:40-50 | replacing mappings and sequences at every depth keeps what the payload means |
| `Canonical.DumpOk` | src/featuregen/formula/_jcs.py:206-272 | a plain value has a text exactly when it means something |
| `Canonical.MeaningFixesText` | src/featuregen/formula/_jcs.py:245-268 | equal meanings have equal text: insertion order and sequence type are gone |
| `Canonical.TextFixesMeaning` | src/featuregen/formula/_jcs.py:206-272 | equal texts, even followed by more text, have equal meanings |
| `Canonical.CanonicalTextIsMeaning` | src/featuregen/canonical.py:53-72 | canonical texts coincide exactly when the payloads mean the same object, numbers being compared as numbers |
| `Canonical.CanonicalTextReads` | src/featuregen/formula/_jcs.py:206-272 | a JSON reader takes every canonical text, what it reads means what the payload means, and at every depth each key stands before the next in UTF-16 order |
| `Canonical.EscapeShortest` | src/featuregen/formula/_jcs.py:97-112 | of all ways to write a character in a JSON string the shortest is used, in lower case |
| `JsonText.UnitsBack` | src/featuregen/formula/_jcs.py:252-256 | the code units a key is sorted by are the ones that decode to its characters |
| `CanonicalMeaning.DenoteSays` | src/featuregen/formula/_jcs.py:206-272 | a payload is refused exactly when some integer, float, key or type in it is, and its meaning says node by node what it says |
| `CanonicalMeaning.TextSays` | src/featuregen/canonical.py:53-72 | a payload is hashed exactly when it is an object with nothing refused in it, and its text read back says what it says |
| `Canonical.ContractsCoincide` | src/featuregen/canonical.py:75-97 | contract texts coincide exactly when name, version and payload do |
| `Canonical.BareMatchesContract` | src/featuregen/canonical.py:14-22 | a bare payload matches a contract exactly when it is itself that three-key object |
| `Canonical.EnvelopeHashedBare` | src/featuregen/canonical.py:14-22 | such a payload |
| `Canonical.NumbersCoincide` | src/featuregen/formula/_jcs.py:219-231 | payloads of one number have one text exactly when the numbers have equal value, integer or float |
| `Numerals.IntTextInjective` | src/featuregen/formula/_jcs.py:219-223 | different integers have different texts |
| `FloatText.SerializePositive` | src/featuregen/formula/_jcs.py:138-192 | what is made of Python's text of a double is ECMA-262's Number::toString |
| `FloatText.SerializeFloat` | src/featuregen/formula/_jcs.py:115-136 | infinities and NaN are refused, zero has one text, a minus sign goes in front |
| `FloatText.Place` | src/featuregen/formula/_jcs.py:171-192 | the two zero-padding loops put the digits where the exponent says |
| `FloatText.ScriptTextInjective` | src/featuregen/formula/_jcs.py:138-192 | different digits or a different point give different texts |
| `FloatText.FloatsApart` | src/featuregen/formula/_jcs.py:115-192 | two finite floats have one text exactly when they are the same number |
| `FloatText.ReadNumberBack` | src/featuregen/formula/_jcs.py:115-192 | reading the text of a finite float as a JSON number gives that number |
| `FloatText.ScriptShape` | src/featuregen/formula/_jcs.py:171-192 | an exponent exactly from 10^21 on and below 10^-6, always signed; otherwise the point where the number has it, and no idle zero after it |
| `FloatText.FloatIsNumber` | src/featuregen/formula/_jcs.py:115-192 | the text is made of number characters only, so a value's text ends where it ends |
| `FloatText.NumberOfText` | src/featuregen/formula/_jcs.py:219-223 | the normal form of an accepted integer is that number and has its text |
| `FloatText.NormalForm` | src/featuregen/formula/_jcs.py:115-192 | normal forms are equal exactly when their values are |
| `FloatText.IntAndFloat` | src/featuregen/formula/_jcs.py:115-223 | an integer and a float have one text exactly when they are the same number |
| `ConceptClaims.ClaimTable.InsertOnConflictDoNothing` | src/featuregen/aggregates/concept_claims.py:7-11 | inserts exactly when the key has no owner |
| `ConceptClaims.ClaimTable.ClaimConcept` | src/featuregen/aggregates/concept_claims.py:6-18 | nothing for the winner, otherwise the owner; other keys untouched |
| `ConceptClaims.RunSafe` | src/featuregen/contracts/db.py:7-9 | every interleaving of open transactions keeps the table's invariant |
| `ConceptClaims.OwnerNeverChanges` | src/featuregen/aggregates/concept_claims.py:6-18 | a committed owner stays the owner in every continuation |
| `ConceptClaims.OneCommittedWinner` | src/featuregen/aggregates/concept_claims.py:7-13 | committed winners of a key are one transaction and one request |
| `ConceptClaims.LoserIsToldTheOwner` | src/featuregen/aggregates/concept_claims.py:14-18 | a loser was given the owning request id, and the final fallback is never reached |
| `ConceptClaims.ClaimRuns` | src/featuregen/aggregates/concept_claims.py:6-18 | a claim nobody else stands in the way of is answered: the owner if there is one, otherwise it wins |
| `ConceptClaims.WaiterIsAnswered` | src/featuregen/aggregates/concept_claims.py:7-18 | a claim that meets another transaction's row waits; it is told that owner if the other commits, and wins if it aborts |
| `ConceptClaims.EndsExactly` | src/featuregen/contracts/db.py:7-9 | committing makes exactly the transaction's rows owners, aborting none |
| `MigrationLedger.SplitRows` | scripts/verify_migration_ledger.py:110-123 | rows this build does not know, split by the pinned-rename test, in order |
| `MigrationLedger.Verify` | scripts/verify_migration_ledger.py:98-152 | each row is exactly one of expected, acknowledged, unexpected; exit 0 exactly when nothing drifts and every other row is a pinned rename whose replacement is built and applied |
| `MigrationLedger.VerifyLedger` | scripts/verify_migration_ledger.py:37-44 | the same report with this build's acknowledged rows |
| `MigrationLedger.VerdictAfterApplying` | scripts/verify_migration_ledger.py:106-123 | the verdict after applying any pending migrations, in terms of the ledger before |
| `MigrationLedger.CleanStaysClean` | scripts/verify_migration_ledger.py:98-152 | exit 0 survives applying any subset of what is pending |
| `MigrationLedger.ApplyMigrations` | src/featuregen/db/migrations.py:288-324 | succeeds exactly when the build agrees with the ledger and with itself; then each pending migration ran once, in order, and the ledger is complete; otherwise it stops at the first that disagrees, naming what was recorded |
| `MigrationLedger.DriftStopsTheRunner` | scripts/verify_migration_ledger.py:3-7 | drift in the verdict is refusal by the runner, for builds that give each name one source |
| `MigrationLedger.CleanMeansDeployable` | scripts/verify_migration_ledger.py:66-80 | exit 0 promises a deploy exactly for such builds; the deploy leaves exit 0, nothing pending and nothing to rerun |
| `MigrationLedger.ConflictUnseen` | scripts/verify_migration_ledger.py:77-80 | a build whose two sources under one name the verdict does not see |
| `MigrationLedger.ReadIsDumpable` | scripts/verify_migration_ledger.py:47-52 | whatever the file, names read have no bar or line ending and checksums no line ending |
| `MigrationLedger.DumpThenRead` | scripts/verify_migration_ledger.py:47-52 | reading a dump returns the ledger exactly when it can be dumped |
| `MigrationLedger.RowRead` | scripts/verify_migration_ledger.py:47-52 | in any file a line up to its first bar is a name and the rest its checksum, whatever the line ending; of a repeated name the later counts |
| `MigrationLedger.OtherLineRead` | scripts/verify_migration_ledger.py:47-52 | a line without a bar says nothing |
| `MigrationLedger.ExpectedIsLast` | scripts/verify_migration_ledger.py:66-80 | of a name with several sources the last is expected |
| `FieldAuthority.MoreEvidenceSatisfies` | src/featuregen/overlay/field_authority.py:67-81 | more evidence never takes authority away |
| `FieldAuthority.NothingSatisfiesNothing` | src/featuregen/overlay/field_authority.py:15-17 | no rule that can be constructed is met by no evidence |
| `FieldAuthority.PreferConfirmedExactly` | src/featuregen/overlay/field_authority.py:244-247 | a value is picked exactly when every strongest assertion says it |
| `FieldAuthority.DisplayExactly` | src/featuregen/overlay/field_authority.py:288-298 | a value is shown exactly when moreover the display rule is met |
| `FieldAuthority.VerdictShape` | src/featuregen/overlay/field_authority.py:278-316 | a verdict has a load-bearing value or a reason, never both; one only past ceiling, disqualifiers and rule; a tie is reported exactly when the display rule is met and no value wins |
| `FieldAuthority.OnlyFactsMatter` | src/featuregen/overlay/field_authority.py:267-316 | order, ids and repeats of the records do not matter |
| `FieldAuthority.SettledUnlessAmbiguous` | src/featuregen/overlay/field_authority.py:248-259 | the verdict is fixed by its inputs except exactly when two values unknown to the severity order compete |
| `FieldAuthority.UnknownValuesUnsettled` | src/featuregen/overlay/field_authority.py:253-259 | for any two values outside the order, each is load-bearing under one iteration |
| `FieldAuthority.NeverMilder` | src/featuregen/overlay/field_authority.py:248-259 | under the most restrictive strategy more evidence never gives a milder value |
| `FieldAuthority.BackedExactly` | src/featuregen/overlay/field_authority.py:306-316 | a load-bearing value is always asserted by evidence the rule names exactly when no other kind of evidence in use outranks one it names |
| `FieldAuthority.RivalWins` | src/featuregen/overlay/field_authority.py:306-316 | for any kind that outranks a named one, evidence whose load-bearing value nothing named asserts |
| `FieldAuthority.ClassificationBacked` | src/featuregen/overlay/upload/field_policies.py:219-240 | for the two profile classifications: exactly while, where sources attest, only humans confirm |
| `FieldVerdicts.SatisfiedExactly` | src/featuregen/overlay/field_authority.py:67-81 | a rule is satisfied exactly when all the evidence of one of its alternatives is there |
| `FieldVerdicts.ReasonExactly` | src/featuregen/overlay/field_authority.py:298-316 | which reason stands: the first thing that bars the value, among disqualifiers the first by name, or a conflict where nothing does |
| `FieldVerdicts.MostRestrictiveExactly` | src/featuregen/overlay/field_authority.py:248-259 | a load-bearing value is there exactly when nothing bars it and there is evidence; it is asserted, and nothing asserted is more severe; without an order, an error |
| `FieldVerdicts.UnionExactly` | src/featuregen/overlay/field_authority.py:260-261 | the distinct asserted values, ascending and joined by commas, exactly when nothing bars them and there is evidence |
| `FieldVerdicts.UnresolvedExactly` | src/featuregen/overlay/field_authority.py:262-264 | a value exactly when nothing bars it and every record says it |
| `FieldVerdicts.PreferExactly` | src/featuregen/overlay/field_authority.py:244-247 | a value exactly when nothing bars it and all the strongest records say it |
| `FieldVerdicts.ShownExactly` | src/featuregen/overlay/field_authority.py:288-298 | the value shown and the tie reported, in terms of rule alternatives and strongest records |
| `FieldVerdicts.ClassificationPolicy` | src/featuregen/overlay/upload/field_policies.py:219-240 | whose word shows the two profile classifications and whose makes them operational, and what holds them back |
| `ProfileReconcile.ReconcileField` | scripts/profile_reconcile.py:75-92 | a field with nothing anywhere is passed over, and nothing it would have to say is lost |
| `ProfileReconcile.ReconcileFields` | scripts/profile_reconcile.py:64-92 | for each projected field the graph line and the decision line, each exactly when its check fails |
| `ProfileReconcile.ReconcileProfile` | scripts/profile_reconcile.py:94-106 | a line for each field on which an assembled profile and the graph differ |
| `ProfileReconcile.ReconcilePointers` | scripts/profile_reconcile.py:108-122 | one line for each pointer that fails to load or has no graph nodes |
| `ProfileReconcile.Reconcile` | scripts/profile_reconcile.py:58-123 | exactly one line for each failing check of the whole list, in order |
| `ProfileReconcile.NothingHidden` | scripts/profile_reconcile.py:111-115 | no failure hides another, and there are as many lines as failures |
| `ProfileReconcile.EmptyIffConsistent` | scripts/profile_reconcile.py:58-123 | the report is empty exactly when evidence, decision head, graph and profile agree everywhere and every pointer loads and has nodes |
| `ProfileReconcile.HeadNamesTheValue` | scripts/profile_reconcile.py:82-92 | then the value a head was recorded for is the one evidence, graph and profile give |
| `ProfileReconcile.ExpectedIsResolved` | scripts/profile_reconcile.py:66-72 | the value compared is the resolver's display value |
| `ReconcileReport.ReportedExactly` | scripts/profile_reconcile.py:58-123 | each kind of line stands exactly for what it says, by graph and profile column: which value is the graph's, which the evidence's or the profile's, and the latest decision's id |
| `ReconcileReport.ReportInOrder` | scripts/profile_reconcile.py:58-123 | table by table authority role, temporal storage model, then the profile's columns, and then pointer by pointer |
| `ReconcileReport.EmptyByColumn` | scripts/profile_reconcile.py:58-123 | the report is empty exactly when in every table each of the two columns is what its evidence displays, what its latest decision was recorded for and what the profile's column of that name gives, and every pointer loads and has nodes |

## Left out

- Rendering, wording, badges, focus and accessibility; React batching (each handler sees current state).
- Unmounting and the `cancelled` flag of the sync list, and a change of the `source` property while a narrative panel is mounted.
- The reader of JSON text takes no white space between tokens, of which a canonical text has none.
- SHA-256 and the row hashes are taken to be collision-free: a hash is modelled as the thing hashed. UTF-8 encoding of canonical text is not modelled; strings are sequences of Unicode scalar values, so a lone surrogate, which the serializer refuses, cannot be written down.
- JavaScript indexes strings by UTF-16 unit; the text models index by character, which differs only for characters beyond the basic plane.
- `FloatText` starts from the shortest digits of a double and Python's documented layout of them; finding those digits is not modelled. A number's meaning is its normal form: sign, shortest digits, place of the point.
- The server side of an import is its two hash comparisons and whether the pipeline lands, holds or rejects the rows; what ingestion leaves in the catalog, audit rows and the pull itself are an environment that may change rows, catalog and target at any moment, and a preview may have been computed against any catalog.
- The 400 and 404 answers of the PUT routes are one refusal that may come at any time; field validation is not modelled, and for the tag-map override only the check of its values is.
- `ConceptClaims.ClaimTable.ClaimConcept`: states the call as one connection meets the table between two waits; waiting on another transaction is in the run model, not in the class.
- `MigrationLedger.ApplyMigrations`: execution of a migration's SQL cannot fail, and a raise is modelled as an outcome that leaves the recorded ledger as it was.
- The 12-character digests and the sentences the ledger verdict prints; argument parsing and the DSN reader.
- `ProfileReconcile.Reconcile`: lines are records of what they say rather than sentences; `normalize_ref`, the readers and `build_dataset_profile` are functions supplied by the database.
- Lower-casing and trimming of a handoff slug: the slug of a link event is the normalised one.
- The event store, runtime and remaining screens; stage ladders and summaries, which are small case tables.
