# MB-SMF, PCF and BSF client libraries: verification model

This project models the client side of three 5G service interfaces and proves properties of it in Dafny.

- **MB-SMF** (`lib/mb-smf-service-consumer`). The library keeps a local copy of an MBS Session and drives the one at
  the MB-SMF: a push compares the session with a copy of what the MB-SMF last accepted and sends a creation, a
  removal or a JSON Patch (RFC 6902) update. The model has the JSON documents, the patch operations with their
  pointers as text, every diff from the leaves to the whole session, the copy and the comparison, the subscription
  containers, and the reconciler with its responses. Beside it: TMGI assignment, the reference counts of the shared
  SBI objects, and the data shared by the three result callbacks.
- **PCF** (`lib/pcf-service-consumer`). Event masks and subscription lists, the notification registry, and the merge
  of event subscriptions.
- **BSF** (`lib/bsf-service-consumer`). The life of a binding look-up, the cache of bindings, and expiry times.

## Layout

| files | content |
|---|---|
| `Options`, `Text` | optional values, printed numbers |
| `JsonDocument`, `JsonPatch`, `ObjectDiff`, `Structure`, `ListDiff` | documents, operations, and what lifted, composed and positional diffs do |
| `QosRequirements`, `MediaComponents`, `ServiceInfo`, `ServiceAreas`, `GeographicCoordinates`, `SessionDiff` | the data types with their documents and diffs, up to the session |
| `ListEquality`, `SessionCopy` | comparison in any order; copies and comparisons of sessions |
| `Subscriptions`, `Reconciler`, `Reconciliation` | the containers of subscriptions over all runs; the session object; what a push and an answer achieve |
| `RateReading`, `DocumentReading`, `SessionReading`, `SessionComparison` | what documents say: readers and their round trips; what the comparison of sessions looks at |
| `CreateReply`, `SubscriptionEdits` | what an accepted reply gives the session; subscriptions over runs of calls |
| `UnchangedSession`, `SessionRuns` | the patch list of an unchanged session; runs of the client, and how often subscriptions are asked for |
| `SessionProtocol`, `SessionInStep` | one session and the MB-SMF as a state machine; when both stay in step |
| `GrowingLists`, `UpdateRepeats` | the same update sent, and carried out, with every push |
| `StatusHandedOn` | when both would stay in step if the status of an update's answer reached its handler |
| `TmgiAllocation`, `AllocatedTmgis`, `SbiObjects`, `SbiHolders`, `CallbackData` | assignment and ownership |
| `PcfEvents`, `PcfNotifications`, `PcfMerge` | the PCF client |
| `BsfLookup`, `LookupLife`, `BindingCache`, `CacheControl`, `CacheControlText` | the BSF client |

Code that changes objects or walks lists is a class or a method with a loop; its contract gives the whole new state as
a function of the old one, and the lemmas say in other terms what those functions mean. Sending a request appends it to a log.

## Reading the model

- An operation applied to a *slot* acts on a value that may be absent; the bare path "/" of a child diff means the
  whole slot. Once lifted under a name it is an ordinary pointer.
- The *document* of a session is the attributes that a create request would send
  (`lib/mb-smf-service-consumer/nmbsmf-mbs-session-build.c:426-525`): areas that list nothing are left out, and one of
  three alternatives of a component is sent. `contactPcfInd` counts as always present, because an update replaces it,
  but a creation does not send it, so it starts out as false. The TMGI, which the MB-SMF may assign, is not counted among
  the attributes. The service type sent at creation follows from the presence of an SSM address and is not a separate
  attribute here.
- Attribute names are those of the diff code (`regMbsArp`, `5Qi`); the generated OpenAPI serialiser is not part of this
  model.
- Strings, PLMNs and keys are values, a PLMN being written with a three-digit network code only from 100 on. Pointers
  to subscriptions, SBI objects, callback data and BSF sessions are ids that are never used again.
- The hash of media components holds each component under its own id.
- In the protocol the MB-SMF stores what it is sent, under an id that no document has, or refuses it as a whole.
- Of the answer to an update, and of the response to a subscription request, the dispatcher parses only the header
  (`lib/mb-smf-service-consumer/mb-smf-service-consumer.c:179`); only the answer to a creation is parsed in full (line
  199). The message that the handlers get then has the status 0 and no location. `ogs_sbi_parse_header` belongs to
  Open5GS and is not part of this model; it is given no more than the header. In `SessionProtocol` the dispatcher is a
  parameter: `AsWritten` does just that, `StatusHandedOn` would pass the status on.
- An *orderly* run is one in which the application edits and pushes only while no creation is open, creates only what
  can be created exactly and while no update is open, the reply to a creation is a good one, and no answer of a removal
  that was carried out is lost. What goes wrong otherwise is stated beside it (`SessionProtocol.RepeatedCreationOrphans`,
  `SessionInStep.EditWhileCreating`, `SessionInStep.LostRemovalShows`). In `StatusHandedOn` it is also asked that nothing
  is edited or pushed while an update is open, that only exact updates are sent, and that no answer of one is lost.

## What the code does not do

Each of these is a lemma with its exact condition.

- The status of an update's answer does not reach its handler, which finds 0 and does nothing
  (`lib/mb-smf-service-consumer/mb-smf-service-consumer.c:179`; a full parse is made for creations only, line 199). So an
  accepted update never becomes the accepted copy and a refused one is never rolled back: client and MB-SMF are in step
  exactly until an update that is carried out changes the document (`SessionInStep.RunStaysInStep`,
  `SessionInStep.CarriedOutUpdateShows`, `SessionInStep.RefusedUpdateStays`). Every push sends the same update again, and
  what it appends to a list is appended each time (`UpdateRepeats.UpdateNeverSettles`, `UpdateRepeats.DocumentGrows`,
  `UpdateRepeats.AddedAreaIsAddedTwice`).
- If the status were handed on, a success would copy the session as it is when the answer comes. Edits made while the
  update was under way would count as accepted without having been sent (`Reconciliation.AcceptedUpdate`,
  `StatusHandedOn.EditMeanwhileShows`).
- The location of a response to a subscription request does not reach its handler either, which cannot get through one
  that finds a subscription (`Subscriptions.EchoNeedsLocation`,
  `Reconciler.MbsSession.DispatchSubscriptionAnswer`). No subscription becomes active
  (`SessionRuns.NoneBecomesActive`). Results about active subscriptions hold of the handler when it is given a location.
- An update is not exact for a component's first codec, a QoS reference changed to another, a change of which
  alternative is sent, changed cells of an unchanged tracking area, and the first entry of an empty area
  (`SessionDiff.SessionPatchesApply` with its five counterexamples).
- The comparison does not see a changed flow description, bit rate or cell, or a change of order, so such a change
  alone is never sent (`SessionCopy.EqualSessionsDocs`, `SessionInStep.QuietIsUpToDate`).
- A termination time is never copied, so a session that has one is updated again at every push
  (`SessionCopy.CopyEquals`, `Reconciliation.SettlesAfterCreate`).
- A PCF indication that is set before the creation is not sent with it, yet counts as accepted
  (`Reconciliation.CreationSyncs`).
- A changed SSM address or TMGI removes and creates the session again. The answer to the removal, even a refusal, frees
  the session that is being created again, and the new one stays behind at the MB-SMF
  (`SessionProtocol.RecreationLoses`, `SessionProtocol.SurvivesUnlessAnswered`). A first address or TMGI creates it
  again without removing it, and the old one stays behind (`SessionProtocol.CreationLeavesOld`).
- A changed attribute of a subscription is never sent: its update carries the patch list of the session, which is empty
  if that has not changed (`SessionRuns.ChangedSendsSessionPatches`, `SessionRuns.ChangedSendsNothing`).
- The first subscription of a new session is asked for twice, in the creation and after it, and once more for each push
  that is repeated before the reply (`SessionRuns.AskedTwice`).
- The application id of the service information is sent again with every update (`UnchangedSession.UnchangedPatches`).
- An SSM address without a family is not equal to itself. A reply with a mixed address makes one, and the session is
  then removed and created again (`Reconciliation.UnknownFamilyRecreates`).
- An unallocated TMGI earlier in the context takes a refreshed or deallocated identity from its holder; the copy of a
  session's TMGI, which does not count as allocated, takes one of any network
  (`TmgiAllocation.AssignKeepsUnique`, `TmgiAllocation.TwinTakes`, `TmgiAllocation.DeallocationFindsHolder`).
- The merge of event subscriptions does not end when two requests differ (`PcfMerge.MergeTerminates`,
  `PcfMerge.TwoRequestsDiverge`).
- The expiry time of a binding adds a number of seconds to a time in microseconds
  (`lib/bsf-service-consumer/utils.c:42-65`, `CacheControl.ExpiresEarly`).

## Model

| member | source | states |
|---|---|---|
| `JsonPatch.AppendLifted` | lib/mb-smf-service-consumer/json-patch.c:19-32 | the loop that appends a child patch list under a prefix yields the old list followed by the whole lifted list, in order |
| `JsonPatch.LiftTwice` | lib/mb-smf-service-consumer/json-patch.c:34-52 | prefixing twice is prefixing once with the concatenated prefix, the bare "/" included |
| `JsonDocument.PointerAppend` | lib/mb-smf-service-consumer/json-patch.c:34-52 | a prefix put before a relative path is parsed as the prefix's tokens followed by the path's tokens (section 3 of RFC 6901) |
| `JsonPatch.LiftedDiffEditsMember` | lib/mb-smf-service-consumer/json-patch.c:19-52 | applied to an object, a lifted list does to the member what the child list does to the whole value, with "/" as the value itself (added, removed or replaced); it fails exactly when the child list fails |
| `ObjectDiff.LiftedDiffEditsElement` | lib/mb-smf-service-consumer/json-patch.c:19-52 | under the position of a list element a lifted list does what each child patch does in turn: "/" with add inserts before the element, with remove closes the gap, with replace overwrites, and deeper paths act inside it |
| `ObjectDiff.LiftedDiffEditsSubtree` | lib/mb-smf-service-consumer/json-patch.c:19-52 | the same at any depth, through members of objects and positions of lists in any mixture, failures included |
| `ObjectDiff.AssembleReaches` | lib/mb-smf-service-consumer/mbs-session.c:606-646 | a concatenation of lifted child diffs turns one object into another if and only if every child diff turns its own member into the wanted one |
| `ObjectDiff.AssembleKeepsOthers` | lib/mb-smf-service-consumer/mbs-session.c:606-646 | attributes without a diff keep their value through every such list that succeeds |
| `ObjectDiff.AssembleOrderFree` | lib/mb-smf-service-consumer/mbs-media-comp.c:53-82 | diffs of different members commute: same success and same result in any order |
| `Structure.StructureReaches` | lib/mb-smf-service-consumer/mbs-service-info.c:157-226 | a structure diff is exact if and only if the diff of every attribute is, and it never addresses the bare root |
| `ListDiff.BuildTailDiff` | lib/mb-smf-service-consumer/civic-address.c:131-158 | the two-cursor loop with its shifting index emits exactly the patch list defined by recursion on the two lists |
| `ListDiff.BuildPlainDiff` | lib/mb-smf-service-consumer/civic-address.c:119-165 | the plain list diff, with its whole-value cases |
| `ListDiff.BuildPrefixDiff` | lib/mb-smf-service-consumer/tai.c:83-146 | the list diff that skips a common prefix, or replaces the whole value when there is none |
| `ListDiff.PlainDiffApplies` | lib/mb-smf-service-consumer/civic-address.c:119-165 | for lists of any lengths no operation fails; the result is the new list with elements that compare equal kept, and it is exactly the new list if and only if the comparison hid no difference |
| `ListDiff.PrefixDiffApplies` | lib/mb-smf-service-consumer/tai.c:83-146 | the same for the prefix-skipping form, with the exact condition for it |
| `ListDiff.DiffSize` | lib/mb-smf-service-consumer/ncgi.c:63-123 | at most as many operations as the longer list has elements, and none exactly when the lists are equal in order |
| `RateReading.RateReadsBack` | lib/mb-smf-service-consumer/utils.c:106-126 | the text of a rate, read as a number of six places and a unit, stands for that rate to the nearest millionth of the unit, which is the largest one not above the rate |
| `RateReading.RateReadsPrintable` | lib/mb-smf-service-consumer/utils.c:106-126 | read in bits per second it is the rate itself below a gigabit, then rounded to the kilobit, and from a terabit on to the megabit |
| `QosRequirements.RateTextMeans` | lib/mb-smf-service-consumer/utils.c:106-126 | two bit rates are printed as the same text if and only if they have the same unit and the same millionths of it |
| `QosRequirements.SmallRatesDiffer` | lib/mb-smf-service-consumer/utils.c:106-126 | below a gigabit per second no two different rates print alike |
| `QosRequirements.LargeRatesMeet` | lib/mb-smf-service-consumer/utils.c:106-126 | from a gigabit on, and below a terabit, two rates print alike if and only if they round to the same kilobit |
| `QosRequirements.ArpDiffApplies` | lib/mb-smf-service-consumer/arp.c:76-109 | the priority diff always turns the old document into the new one |
| `QosRequirements.QosReqDiffApplies` | lib/mb-smf-service-consumer/mbs-qos-req.c:115-189 | the QoS diff, with its nested priority diff, always does |
| `MediaComponents.CodecsDiffApplies` | lib/mb-smf-service-consumer/mbs-media-info.c:201-246 | the two-slot codec diff is exact if and only if there was a codec before or there is none after |
| `MediaComponents.MediaInfoDiffApplies` | lib/mb-smf-service-consumer/mbs-media-info.c:138-248 | the media information diff is exact under just that condition |
| `MediaComponents.BuildFlowsDiff` | lib/mb-smf-service-consumer/flow-description.c:104-149 | the loop whose element step is itself a lifted child diff emits the plain list diff |
| `MediaComponents.QosRefDiffApplies` | lib/mb-smf-service-consumer/mbs-media-comp.c:238-252 | the QoS reference diff is exact if and only if the reference that is sent did not change between two set ones and its rank among the alternatives stays |
| `MediaComponents.QosReqDiffAppliesToSent` | lib/mb-smf-service-consumer/mbs-media-comp.c:253-266 | when the diff of the stored QoS requirement is right for the one that is sent |
| `MediaComponents.CompDiffApplies` | lib/mb-smf-service-consumer/mbs-media-comp.c:201-257 | a component diff is exact if and only if its codec, QoS reference and QoS requirement diffs are |
| `ServiceInfo.BuildCompsDiff` | lib/mb-smf-service-consumer/mbs-media-comp.c:36-86 | the two passes over the hashes emit the edits in the order of the visits |
| `ServiceInfo.BuildChangedOrRemoved` | lib/mb-smf-service-consumer/mbs-media-comp.c:53-69 | the pass over the old hash: removals, and lifted child diffs of the components that stay |
| `ServiceInfo.BuildAdded` | lib/mb-smf-service-consumer/mbs-media-comp.c:70-82 | the pass over the new hash: additions, appended to what the first pass made |
| `ServiceInfo.CompsEditsAre` | lib/mb-smf-service-consumer/mbs-media-comp.c:53-82 | each key of either hash gets exactly one of removal, addition or its child diff, and no other key gets any |
| `ServiceInfo.CompsDiffApplies` | lib/mb-smf-service-consumer/mbs-media-comp.c:36-86 | whatever the order in which the hashes are visited, hash a becomes hash b if and only if the diff of each common component is exact |
| `ServiceInfo.CompsDiffOrderFree` | lib/mb-smf-service-consumer/mbs-media-comp.c:53-82 | any two visiting orders give the same result on any document, failures included |
| `ServiceInfo.InfoDiffApplies` | lib/mb-smf-service-consumer/mbs-service-info.c:157-226 | the service information diff is exact under just the components' condition |
| `ServiceAreas.NcgisDiffApplies` | lib/mb-smf-service-consumer/ncgi.c:63-123 | the diff of a list of cells is always exact |
| `ServiceAreas.NcgiTaiDocInjective` | lib/mb-smf-service-consumer/ncgi-tai.c:223-238 | a tracking area with its cells can be read back from its document |
| `ServiceAreas.NcgiTaisDiffApplies` | lib/mb-smf-service-consumer/ncgi-tai.c:58-118 | as the comparison ignores cells, the diff is exact if and only if equal tracking areas in the same place have equal cells, or the first ones differ and all is replaced |
| `ServiceAreas.AreaDiffApplies` | lib/mb-smf-service-consumer/mbs-service-area.c:161-182 | the composed diff is exact if and only if the cell condition holds and an area that lists nothing, which is not sent, stays so |
| `ServiceAreas.ExtDiffApplies` | lib/mb-smf-service-consumer/ext-mbs-service-area.c:90-111 | the civic address part of the external area, likewise |
| `DocumentReading.QosReqReads` | lib/mb-smf-service-consumer/mbs-qos-req.c:115-189 | QoS requirements, their priority included, read back from their document attribute by attribute, with the rates as printed |
| `DocumentReading.CompReads` | lib/mb-smf-service-consumer/mbs-media-comp.c:201-257 | a component reads back with media information rather than a QoS reference and that rather than QoS requirements, and all else as it is |
| `SessionReading.NcgiTaiReads` | lib/mb-smf-service-consumer/ncgi-tai.c:223-238 | a tracking area with its cells reads back, each identifier in just as many digits as it has |
| `SessionReading.CompsRead` | lib/mb-smf-service-consumer/mbs-media-comp.c:36-86 | the hash of components reads back from its object, each component under its printed id |
| `Text.NumeralReadsBack` | lib/mb-smf-service-consumer/utils.c:128-131 | a number printed in hexadecimal, or in decimal, with leading zeros can be read back |
| `GeographicCoordinates.RationaliseLongitude` | lib/mb-smf-service-consumer/geographic-coordinate.c:197-202 | the two loops end with the one longitude in range that differs by whole turns |
| `GeographicCoordinates.SameLongitude` | lib/mb-smf-service-consumer/geographic-coordinate.c:146-153 | two longitudes compare equal if and only if they differ by whole turns |
| `GeographicCoordinates.TrimmedIsNearest` | lib/mb-smf-service-consumer/geographic-coordinate.c:204-209 | the latitude that is kept is the nearest one in range |
| `GeographicCoordinates.CoordinatesDiffApplies` | lib/mb-smf-service-consumer/geographic-coordinate.c:43-89 | the coordinate list diff is exact if and only if no coordinate is replaced by another form of itself, as is so when both lists hold what setting or copying leaves |
| `SessionDiff.BuildSessionPatches` | lib/mb-smf-service-consumer/mbs-session.c:550-660 | the session's patch list, built attribute by attribute |
| `SessionDiff.SessionPatchesApply` | lib/mb-smf-service-consumer/mbs-session.c:550-660 | for every pair of sessions and all hash orders: applied in order to the previous document the list meets no error and gives every updatable attribute its new value and leaves the others, if and only if the stated condition on areas and components holds |
| `SessionDiff.SessionPatchesKeepOthers` | lib/mb-smf-service-consumer/mbs-session.c:610-646 | whatever succeeds, no attribute outside the updatable ones changes |
| `SessionDiff.SessionPathsAreReal` | lib/mb-smf-service-consumer/mbs-session.c:550-660 | no path of the list is the bare "/", and each is a valid pointer |
| `SessionReading.DocumentReads` | lib/mb-smf-service-consumer/nmbsmf-mbs-session-build.c:426-525 | round trip: the document of every session reads back as what the session sends, in all its attributes |
| `SessionReading.CreationReads` | lib/mb-smf-service-consumer/nmbsmf-mbs-session-build.c:426-525 | a creation sends just that, but for the PCF indication |
| `SessionReading.UpdateReads` | lib/mb-smf-service-consumer/mbs-session.c:550-660 | an exact update leaves a document that reads as the old session with the updatable attributes of the new one, by service type |
| `SessionDiff.FirstCodecMisses` | lib/mb-smf-service-consumer/mbs-media-info.c:217-218 | counterexample: a component's first codec |
| `SessionDiff.ChangedQosRefMisses` | lib/mb-smf-service-consumer/mbs-media-comp.c:238-246 | counterexample: a changed QoS reference |
| `SessionDiff.ChangedAlternativeMisses` | lib/mb-smf-service-consumer/mbs-media-comp.c:238-252 | counterexample: media information given to a component that has a QoS reference |
| `SessionDiff.ChangedCellMisses` | lib/mb-smf-service-consumer/ncgi-tai.c:190-199 | counterexample: a changed cell of an unchanged tracking area |
| `SessionDiff.FirstAreaEntryMisses` | lib/mb-smf-service-consumer/mbs-service-area.c:161-182 | counterexample: the first entry of an area that was set but empty |
| `ListEquality.CompareGreedily` | lib/mb-smf-service-consumer/mbs-service-area.c:119-140 | the match-and-remove loops compute the greedy comparison |
| `ListEquality.GreedyDecides` | lib/mb-smf-service-consumer/civic-address.c:86-117 | for an equivalence of elements it answers true if and only if some pairing matches the lists one to one |
| `ListEquality.Symmetric` | lib/mb-smf-service-consumer/mbs-service-area.c:111-159 | the comparison is symmetric |
| `ListEquality.Transitive` | lib/mb-smf-service-consumer/mbs-service-area.c:111-159 | the comparison is transitive |
| `ListEquality.Reflexive` | lib/mb-smf-service-consumer/mbs-service-area.c:111-159 | the comparison is reflexive |
| `SessionCopy.EmptyDiffMeansEqual` | lib/mb-smf-service-consumer/tai.c:83-146 | an empty positional diff implies greedy equality, for tracking areas, cells' areas and civic addresses |
| `SessionCopy.CopyHash` | lib/mb-smf-service-consumer/mbs-service-info.c:101-111 | the copy loop, in any visiting order, gives each key the copy of its component |
| `SessionCopy.CompareFlows` | lib/mb-smf-service-consumer/flow-description.c:72-102 | the loop that starts out as found decides equality of lengths only |
| `SessionCopy.CompareComps` | lib/mb-smf-service-consumer/mbs-service-info.c:139-152 | the loop with a break decides count and one-way lookup |
| `SessionCopy.CompsEqualMeans` | lib/mb-smf-service-consumer/mbs-service-info.c:139-152 | count and one-way lookup hold if and only if both hashes have the same keys with equal components |
| `SessionCopy.MediaInfoEqualMeans` | lib/mb-smf-service-consumer/mbs-media-info.c:103-136 | the swap of the two codecs decides equality as multisets; bit rates count by presence only |
| `SessionCopy.AreaEqualMeans` | lib/mb-smf-service-consumer/mbs-service-area.c:111-159 | both lists are the same in some order, although the copy that is searched has lost its cells |
| `SessionCopy.CompareAreas` | lib/mb-smf-service-consumer/mbs-service-area.c:111-159 | the two match-and-remove loops, over a copy of the second area, decide the comparison |
| `SessionCopy.CompareFsaIds` | lib/mb-smf-service-consumer/mbs-fsa-id.c:54-69 | the two cursors decide equality in order |
| `SessionCopy.CopyEquals` | lib/mb-smf-service-consumer/mbs-session.c:387-548 | a copy, new or over an old one, compares equal to its source if and only if the termination time is already the copy's, the addresses have a family, and no hash is left behind |
| `SessionCopy.CopyKeepsDocument` | lib/mb-smf-service-consumer/mbs-session.c:387-493 | a copy stands for the same document if and only if the termination time is already its own and no cells are listed |
| `SessionCopy.EqualSessionsDocs` | lib/mb-smf-service-consumer/mbs-session.c:495-548 | sessions that compare equal stand for the same document if and only if areas agree in order and cells, and components in flow descriptions, bit rates as printed and codec order |
| `SessionComparison.SessionEqualMeans` | lib/mb-smf-service-consumer/mbs-session.c:495-548 | two sessions are taken for the same if and only if they agree attribute by attribute, where areas and codecs may come in any order, and of cells, tunnels, expiry times, rates and flow descriptions only presence or number counts |
| `SessionCopy.ComparesWithItself` | lib/mb-smf-service-consumer/mbs-session.c:495-548 | a session equals itself if and only if its addresses have a family |
| `SessionCopy.ComparesBothWays` | lib/mb-smf-service-consumer/mbs-session.c:495-548 | the comparison is symmetric |
| `SessionCopy.ComparesOnward` | lib/mb-smf-service-consumer/mbs-session.c:495-548 | the comparison is transitive |
| `Subscriptions.StepKeepsInv` | lib/mb-smf-service-consumer/mbs-session.c:121-178 | every possible event keeps each attached subscription in exactly one container, and the hash keyed by id, if and only if the event is legal |
| `Subscriptions.RunKeepsInv` | lib/mb-smf-service-consumer/mbs-session.c:121-178 | hence over all legal runs |
| `Subscriptions.UpdateSubsIs` | lib/mb-smf-service-consumer/mbs-session.c:961-985 | what the three loops of a push do to every subscription, for any visiting order, and the requests they send |
| `Subscriptions.PushSends` | lib/mb-smf-service-consumer/mbs-session.c:961-985 | a request of the three loops is sent if and only if it creates a changed new subscription, updates a changed active one under its id with the given patch list, or deletes a doomed one |
| `Subscriptions.ResponseKeepsInv` | lib/mb-smf-service-consumer/nmbsmf-mbs-session-handle.c:318-342 | a subscription response that is given a location keeps the containers consistent if and only if the id in it is not another's; without one nothing changes |
| `Subscriptions.AnsweredIsActive` | lib/mb-smf-service-consumer/nmbsmf-mbs-session-handle.c:318-342 | after a legal response that the handler gets through, which brings a location, the new subscription it is for is active under the id in it and no longer new |
| `Subscriptions.EchoNeedsLocation` | lib/mb-smf-service-consumer/nmbsmf-mbs-session-handle.c:318-331 | the handler gets through a response that repeats the correlation id of a waiting subscription if and only if it is given a location |
| `SubscriptionEdits.HasLastGiven` | lib/mb-smf-service-consumer/mbs-status-subscription.c:73-168 | over every legal run each subscription has the attributes that it was given last |
| `SubscriptionEdits.SetTouches` | lib/mb-smf-service-consumer/mbs-status-subscription.c:73-168 | setting attributes marks the subscription exactly if they are others, and touches nothing else |
| `SubscriptionEdits.FindsNew` | lib/mb-smf-service-consumer/mbs-session.c:993-1015 | the first new subscription with the correlation id is found, whatever the active ones |
| `SubscriptionEdits.FindsActive` | lib/mb-smf-service-consumer/mbs-session.c:993-1015 | without a new one it is the first active one that is visited |
| `SubscriptionEdits.FindsNone` | lib/mb-smf-service-consumer/mbs-session.c:993-1015 | without either, or once the session has been deleted, none is found |
| `SubscriptionEdits.CarriedMeans` | lib/mb-smf-service-consumer/nmbsmf-mbs-session-build.c:68-115 | a creation carries the first in line if and only if one of the three event bits of its flags is set |
| `SubscriptionEdits.DeletedOnlyRemoved` | lib/mb-smf-service-consumer/mbs-session.c:750-754 | once the session has been deleted every push sends its removal and nothing else, and subscriptions are neither attached, detached nor found |
| `Reconciler.MbsSession.AddSubscription` | lib/mb-smf-service-consumer/mbs-session.c:121-148 | the whole new state; refused for a deleted session |
| `Reconciler.MbsSession.RemoveSubscription` | lib/mb-smf-service-consumer/mbs-session.c:150-178 | the whole new state, with the search of the list of new ones |
| `Reconciler.MbsSession.SetSubscription` | lib/mb-smf-service-consumer/mbs-status-subscription.c:73-168 | only an attribute that really changes marks the subscription as changed |
| `Reconciler.MbsSession.SubscriptionsUpdate` | lib/mb-smf-service-consumer/mbs-session.c:961-985 | the three loops leave the state that the specification gives |
| `Reconciler.MbsSession.FindSubscription` | lib/mb-smf-service-consumer/mbs-session.c:993-1015 | the first new one, else the first active one visited, with the correlation id |
| `Reconciler.MbsSession.SubscriptionResponse` | lib/mb-smf-service-consumer/nmbsmf-mbs-session-handle.c:301-342 | the move from the list of new ones to the hash under the id in the location; it fails, and changes nothing, exactly when a successful response finds a subscription and has no location |
| `Reconciler.MbsSession.DispatchSubscriptionAnswer` | lib/mb-smf-service-consumer/mb-smf-service-consumer.c:177-226 | as it is dispatched such a response changes nothing, and it fails exactly when it is a success and finds a subscription |
| `Reconciler.MbsSession.SendCreate` | lib/mb-smf-service-consumer/nmbsmf-mbs-session-build.c:68-115 | a creation carries the first new subscription, or else the first active one visited, if that one asks for an event; no other is tried |
| `Reconciler.MbsSession.RequestUpdates` | lib/mb-smf-service-consumer/nmbsmf-mbs-session-build.c:276-308 | an update of a subscription is sent with the patch list of the session |
| `Reconciler.MbsSession.PushChanges` | lib/mb-smf-service-consumer/mbs-session.c:744-803 | which requests a push sends, with their bodies, and that subscriptions wait while the session is created |
| `Reconciler.MbsSession.ReadCreateReply` | lib/mb-smf-service-consumer/nmbsmf-mbs-session-handle.c:30-152 | what each unusable reply leaves behind, and the accepted copy of a usable one |
| `CreateReply.AcceptedTakes` | lib/mb-smf-service-consumer/nmbsmf-mbs-session-handle.c:65-152 | after an accepted reply both the session and the accepted copy have the service id, network and expiry time that the reply allocates, the tunnel addresses in list order with IPv4 first, and the answered source and destination; what was not requested or answered stays |
| `CreateReply.TunnelAt` | lib/mb-smf-service-consumer/nmbsmf-mbs-session-handle.c:78-92 | each address of the list is written in its place, in its IPv4 form if it has one, else in its IPv6 form |
| `CreateReply.UnusableLeaves` | lib/mb-smf-service-consumer/nmbsmf-mbs-session-handle.c:35-119 | a reply that is of no use changes nothing but the id, if its location names a resource, and the tunnel, if it was requested and is answered |
| `Reconciler.MbsSession.CreateResponse` | lib/mb-smf-service-consumer/mb-smf-service-consumer.c:200-213 | a usable reply of a success is followed by a push, any other response is not |
| `Reconciler.MbsSession.PatchResponse` | lib/mb-smf-service-consumer/nmbsmf-mbs-session-handle.c:175-194 | by the status that the handler is handed: copy on success, roll back on error, nothing otherwise |
| `Reconciler.MbsSession.DispatchUpdateAnswer` | lib/mb-smf-service-consumer/mb-smf-service-consumer.c:177-249 | as it is dispatched the answer to an update leaves the whole session alone, whatever its status |
| `Reconciliation.SettlesAfterAccept` | lib/mb-smf-service-consumer/nmbsmf-mbs-session-handle.c:179-181 | once the handler has been handed a success, the next push sends nothing about the session if and only if it copies well over the old copy |
| `Reconciliation.SettlesAfterReject` | lib/mb-smf-service-consumer/nmbsmf-mbs-session-handle.c:184-189 | once it has been handed an error likewise, for the copy back |
| `Reconciliation.OtherStatusKeeps` | lib/mb-smf-service-consumer/nmbsmf-mbs-session-handle.c:182-183 | a status that is neither a success nor an error changes nothing at all |
| `Reconciliation.SettlesAfterCreate` | lib/mb-smf-service-consumer/mb-smf-service-consumer.c:200-209 | the push that follows an accepted creation, first or repeated, sends nothing about the session if and only if the termination time is that of the old copy, the addresses, sent or answered, have a family, and no hash is left behind |
| `Reconciliation.UnknownFamilyRecreates` | lib/mb-smf-service-consumer/nmbsmf-mbs-session-handle.c:122-149 | an answered address of unknown family makes that push remove and create the session again |
| `Reconciliation.UpdateIsSent` | lib/mb-smf-service-consumer/mbs-session.c:768-796 | a live session is updated if and only if it compares different while its SSM address and TMGI do not |
| `Reconciliation.RemovalIsSent` | lib/mb-smf-service-consumer/mbs-session.c:750-792 | a push sends a removal if and only if the session is deleted, or its accepted SSM address differs, or that does not and its accepted TMGI differs; it is then the first request |
| `Reconciliation.PushRepeats` | lib/mb-smf-service-consumer/mbs-session.c:744-803 | until a response comes every push sends the same about the session |
| `Reconciliation.AcceptedUpdate` | lib/mb-smf-service-consumer/nmbsmf-mbs-session-handle.c:179-181 | after an accepted update the MB-SMF has the session that was sent, and the copy that the handler makes of a success stands for it if and only if edits made meanwhile do not show |
| `Reconciliation.CreationSyncs` | lib/mb-smf-service-consumer/nmbsmf-mbs-session-handle.c:152 | after an accepted creation, first or repeated, the copy stands for the created document if and only if the termination time is that of the old copy, no cell is listed, the PCF indication is not set, and the answered address is the one sent |
| `Reconciliation.CopyIsExact` | lib/mb-smf-service-consumer/mbs-session.c:662-665 | an update of a session against its own copy, without cells, is exact |
| `Reconciliation.UnusableReplyMisnames` | lib/mb-smf-service-consumer/nmbsmf-mbs-session-handle.c:50-119 | an unusable reply to a repeated creation leaves the old copy under the id of the new document, to which updates and removals are then addressed |
| `UnchangedSession.UnchangedPatches` | lib/mb-smf-service-consumer/mbs-session.c:662-665 | the patch list of a session against its own copy is empty if and only if there is no application id, which is restated every time |
| `SessionRuns.PushKeepsSubs` | lib/mb-smf-service-consumer/mbs-session.c:757-803 | a push of the session keeps the subscription containers consistent and either brings them up to date, with the patch list of the session, or leaves them alone |
| `SessionRuns.PushSendsExactly` | lib/mb-smf-service-consumer/mbs-session.c:744-803 | the requests of a push, exactly, with their bodies |
| `SessionRuns.AddedIsRequested` | lib/mb-smf-service-consumer/mbs-session.c:121-148 | an added subscription is asked for by the next push: directly if that does not create the session, within the creation if it is first in line, else not at all |
| `SessionRuns.RemovedIsDeleted` | lib/mb-smf-service-consumer/mbs-session.c:150-178 | a removed active subscription is deleted under its id and freed by the next push if and only if that does not create the session; a new one is freed at once; neither is created or updated |
| `SessionRuns.ChangedSendsSessionPatches` | lib/mb-smf-service-consumer/nmbsmf-mbs-session-build.c:276-308 | after a changed attribute the next push updates the subscription if and only if it does not create the session; the update carries the patch list of the session, whatever the attribute, and the mark is cleared |
| `SessionRuns.ChangedSendsNothing` | lib/mb-smf-service-consumer/nmbsmf-mbs-session-build.c:294 | that list is empty for a session that has not changed since it was accepted, unless it has an application id |
| `SessionRuns.AskedExactly` | lib/mb-smf-service-consumer/mbs-session.c:961-985 | over every run with its pushes, responses and answers, how often a subscription left alone by the application is asked for: directly once if it is marked and reached while it waits, else not; with the session once for each creation that finds it first in line |
| `SessionRuns.AskedTwice` | lib/mb-smf-service-consumer/nmbsmf-mbs-session-build.c:68-115 | the ordinary path of a first subscription asks for it with each of n creations, and once more directly after the reply |
| `SessionRuns.NoneBecomesActive` | lib/mb-smf-service-consumer/mb-smf-service-consumer.c:177-226 | over every run with its pushes and answers in which responses to subscription requests come as they are dispatched, no subscription becomes active and none is updated or deleted at the MB-SMF |
| `SessionProtocol.PushSurvives` | lib/mb-smf-service-consumer/mbs-session.c:744-803 | a push that sends no removal leaves the session safe; after one that does there is a run, by a mere refusal, that frees it |
| `SessionProtocol.SurvivesWithoutRemoval` | lib/mb-smf-service-consumer/mbs-session.c:744-803 | it survives whatever is answered as long as no removal is open and no push sends one |
| `SessionProtocol.SurvivesUnlessAnswered` | lib/mb-smf-service-consumer/nmbsmf-mbs-session-handle.c:164-173 | over every run the local session survives if and only if no removal of its resource is answered, whatever the status |
| `SessionProtocol.RecreationLoses` | lib/mb-smf-service-consumer/mbs-session.c:765-792 | a removal and creation sent by one push and carried out lose the session in either order of the answers, and leave a new document that nobody knows |
| `SessionProtocol.CreationLeavesOld` | lib/mb-smf-service-consumer/mbs-session.c:768-792 | a first address or TMGI creates the session again without removing it: the session lives on under the new id and the old document stays |
| `SessionProtocol.RepeatedCreationOrphans` | lib/mb-smf-service-consumer/mbs-session.c:756-761 | a push that is repeated before the creation has been answered creates two documents; the session ends under the id of the answer that comes last, and the other document stays behind |
| `SessionInStep.StepStaysInStep` | lib/mb-smf-service-consumer/mb-smf-service-consumer.c:177-262 | as answers are dispatched, an orderly event on either side keeps the invariant that ties the accepted copy, the open requests and the documents if and only if it does not carry out an update that changes the session's document |
| `SessionInStep.RunStaysInStep` | lib/mb-smf-service-consumer/mb-smf-service-consumer.c:177-262 | over every orderly run of updates, removals, creations and re-creations, handled, refused, answered or lost in any order: the accepted copy stands for the document all the time if and only if no update that was carried out changed the document |
| `SessionInStep.CarriedOutUpdateShows` | lib/mb-smf-service-consumer/mb-smf-service-consumer.c:248-249 | after an exact update that was carried out and answered with any success, the document is that of the session sent, session and accepted copy are as before, and both are in step if and only if the update changed nothing |
| `SessionInStep.RefusedUpdateStays` | lib/mb-smf-service-consumer/mb-smf-service-consumer.c:248-249 | after an update that was refused and answered with any status nothing is rolled back: session, accepted copy and documents are as before |
| `SessionInStep.QuietIsUpToDate` | lib/mb-smf-service-consumer/mbs-session.c:763-797 | when a push sends nothing the MB-SMF is up to date if and only if there was no change of the kind the comparison does not see |
| `SessionInStep.EditWhileCreating` | lib/mb-smf-service-consumer/nmbsmf-mbs-session-handle.c:152 | when the application edits while a creation that succeeded is under way, the copy that the reply makes stands for the created document if and only if the copy of the later session does |
| `SessionInStep.LostRemovalShows` | lib/mb-smf-service-consumer/mb-smf-service-consumer.c:282-366 | when the answer to a removal that was carried out is lost, the copy stands for a document if and only if another removal of it was carried out whose answer is still to come |
| `GrowingLists.UpdateAppendsAgain` | lib/mb-smf-service-consumer/tai.c:83-146 | the update that adds a tracking area, applied to a document that has it n times already, gives the document that has it n + 1 times |
| `UpdateRepeats.UpdateNeverSettles` | lib/mb-smf-service-consumer/mbs-session.c:763-797 | over every run without an edit or deletion, whatever the MB-SMF makes of the updates and answers, a session that differs from its accepted copy is updated by every push, and the next push sends the same update again |
| `UpdateRepeats.UpdateAgainAndAgain` | lib/mb-smf-service-consumer/mb-smf-service-consumer.c:248-249 | when each of k pushes is carried out and answered with a success, the patch list is applied k times and the session and its accepted copy stay as they are |
| `UpdateRepeats.DocumentGrows` | lib/mb-smf-service-consumer/mbs-service-area.c:161-182 | so k pushes after one tracking area was added put it into the document k times; from the second on the document is neither the session's nor its accepted copy's |
| `UpdateRepeats.AddedAreaIsAddedTwice` | lib/mb-smf-service-consumer/mb-smf-service-consumer.c:248-249 | one session: its update is accepted and both are out of step, and a second push adds the area twice |
| `StatusHandedOn.StepStaysInStep` | lib/mb-smf-service-consumer/nmbsmf-mbs-session-handle.c:175-194 | if the status were handed on, every orderly event would keep an invariant that also speaks of the open updates |
| `StatusHandedOn.RunStaysInStep` | lib/mb-smf-service-consumer/nmbsmf-mbs-session-handle.c:175-194 | if the status were handed on: over every orderly run, while no creation or update is open the document is that of the accepted copy, unless its removal is about to be answered |
| `StatusHandedOn.AnswerSettles` | lib/mb-smf-service-consumer/nmbsmf-mbs-session-handle.c:175-194 | if the status were handed on, after a success or an error of an update the session would stand for the document: the one sent, or the one accepted before |
| `StatusHandedOn.EditMeanwhileShows` | lib/mb-smf-service-consumer/nmbsmf-mbs-session-handle.c:179-181 | if the status were handed on: when the application edits while an update that succeeds is under way, both stay in step if and only if the copy of the later session stands for the document that was sent |
| `StatusHandedOn.LostAnswerShows` | lib/mb-smf-service-consumer/mb-smf-service-consumer.c:282-366 | even then, when the answer to an update that was carried out is lost, both stay in step if and only if it changed nothing |
| `TmgiAllocation.FindMatching` | lib/mb-smf-service-consumer/tmgi.c:430-461 | the loop finds the first TMGI of the context that matches |
| `TmgiAllocation.Tmgi.SetServiceId` | lib/mb-smf-service-consumer/tmgi.c:129-146 | a TMGI that is given an attribute counts as allocated |
| `TmgiAllocation.Tmgi.SetPlmn` | lib/mb-smf-service-consumer/tmgi.c:148-161 | the same for the network |
| `TmgiAllocation.Tmgi.SetExpiry` | lib/mb-smf-service-consumer/tmgi.c:163-173 | the same for the expiry time |
| `TmgiAllocation.Tmgi.CopyFrom` | lib/mb-smf-service-consumer/tmgi.c:396-428 | a copy takes over the attributes but does not count as allocated |
| `TmgiAllocation.Allocate` | lib/mb-smf-service-consumer/nmbsmf-tmgi-handle.c:45-75 | the objects end as the entries, taken in order up to a null one, say |
| `TmgiAllocation.AllocationResponse` | lib/mb-smf-service-consumer/nmbsmf-tmgi-handle.c:23-103 | which responses assign what, which results are errors, and which TMGIs are told of an error response |
| `TmgiAllocation.ToldMeans` | lib/mb-smf-service-consumer/nmbsmf-tmgi-handle.c:76-98 | a TMGI is told of the error if and only if it is the first match of an entry of the request |
| `AllocatedTmgis.ToldInOrder` | lib/mb-smf-service-consumer/nmbsmf-tmgi-handle.c:76-98 | TMGIs are told in the order of the entries |
| `TmgiAllocation.MatchesMeans` | lib/mb-smf-service-consumer/tmgi.c:430-461 | an entry with an id matches its holder, a blank TMGI, or a copy with its id whatever the network |
| `TmgiAllocation.GoesToFirstBlank` | lib/mb-smf-service-consumer/tmgi.c:430-461 | an entry goes to the first blank TMGI if and only if neither its holder nor a copy with its id comes earlier |
| `TmgiAllocation.TwinTakes` | lib/mb-smf-service-consumer/tmgi.c:430-461 | a copy with the entry's id takes it if and only if no holder, blank TMGI or other copy comes earlier |
| `TmgiAllocation.AllocationDeals` | lib/mb-smf-service-consumer/nmbsmf-tmgi-handle.c:45-75 | distinct identities that nobody holds, and no copy has the id of, are dealt out in order to the blank TMGIs in context order, one each; all others, copies included, stay, and identities stay unique |
| `TmgiAllocation.DealtAt` | lib/mb-smf-service-consumer/nmbsmf-tmgi-handle.c:45-75 | which entry, if any, the TMGI at each position gets |
| `AllocatedTmgis.BlankGets` | lib/mb-smf-service-consumer/nmbsmf-tmgi-handle.c:45-75 | the blank TMGI at each position ends with the service id and network of its entry and the expiry time of the answer, and counts as allocated; all others are as before |
| `AllocatedTmgis.ChangedHas` | lib/mb-smf-service-consumer/nmbsmf-tmgi-handle.c:45-75 | in every allocation a TMGI that is not as before has the identity of an entry before any null one and the expiry time of the answer |
| `AllocatedTmgis.FirstMatchHas` | lib/mb-smf-service-consumer/nmbsmf-tmgi-handle.c:58-75 | one entry changes its first match and no other TMGI |
| `TmgiAllocation.AssignKeepsUnique` | lib/mb-smf-service-consumer/tmgi.c:430-461 | in general an entry keeps identities unique if and only if nobody but the TMGI it goes to holds it |
| `TmgiAllocation.Remove` | lib/mb-smf-service-consumer/nmbsmf-tmgi-handle.c:133-152 | the context loses just the first match, whatever the response says |
| `AllocatedTmgis.RemovedIs` | lib/mb-smf-service-consumer/nmbsmf-tmgi-handle.c:133-152 | the first match is taken out and the others stay in order; without a match nothing is taken out |
| `TmgiAllocation.DeallocationFindsHolder` | lib/mb-smf-service-consumer/nmbsmf-tmgi-handle.c:133-152 | the holder is the one removed if and only if no TMGI without an id is unallocated before it |
| `SbiObjects.Registry.UnrefObject` | lib/mb-smf-service-consumer/ref_count_sbi_object.h:36-45 | one reference less, and with the last one the object and its transactions go |
| `SbiObjects.Registry.NewObject` | lib/mb-smf-service-consumer/ref_count_sbi_object.h:29-34 | a new object starts with its maker's reference |
| `SbiObjects.Registry.RefObject` | lib/mb-smf-service-consumer/ref_count_sbi_object.h:47-51 | one reference more |
| `SbiObjects.ReleaseFrees` | lib/mb-smf-service-consumer/ref_count_sbi_object.h:36-45 | an object is freed exactly when the last TMGI, session or local variable lets go of it |
| `SbiObjects.Registry.SetSessionTmgi` | lib/mb-smf-service-consumer/mbs-session.c:667-681 | the order of reference and release when a session is given a TMGI |
| `SbiObjects.Registry.ReplaceTmgiObject` | lib/mb-smf-service-consumer/tmgi.c:463-467 | the order when a TMGI takes over an object |
| `SbiObjects.Registry.AllocateTmgis` | lib/mb-smf-service-consumer/tmgi.c:287-302 | the loop that shares one new object among the TMGIs of a request |
| `SbiObjects.AllocateBalance` | lib/mb-smf-service-consumer/tmgi.c:287-302 | it leaves one reference for each; the transaction points to a live object if and only if the request is for some TMGI |
| `SbiObjects.Registry.AnswerDelete` | lib/mb-smf-service-consumer/mb-smf-service-consumer.c:242-247 | holders go under a temporary reference |
| `SbiObjects.DeleteResponseBalance` | lib/mb-smf-service-consumer/mb-smf-service-consumer.c:371-372 | the transaction is still there when the dispatcher removes it, whatever holders went |
| `SbiObjects.WithoutTemporaryReference` | lib/mb-smf-service-consumer/mb-smf-service-consumer.c:166 | without the temporary reference it would be gone already if and only if the holder was the last |
| `SbiHolders.StepHolds` | lib/mb-smf-service-consumer/ref_count_sbi_object.h:28-50 | after each thing that the library does, every TMGI and session holds just the object it should, in every state |
| `SbiHolders.SetTmgiHolds` | lib/mb-smf-service-consumer/mbs-session.c:667-681 | a session that is given a TMGI holds its object, and nothing if it has none |
| `SbiHolders.ReplaceHolds` | lib/mb-smf-service-consumer/tmgi.c:463-467 | a TMGI that takes over an object holds the one of the other holder |
| `SbiHolders.StepPoints` | lib/mb-smf-service-consumer/mb-smf-service-consumer.c:371-372 | a transaction points to the object of what it was made for, and is gone once it has been answered |
| `SbiObjects.RunBalance` | lib/mb-smf-service-consumer/ref_count_sbi_object.h:28-50 | over all runs every count is the number of holders, each object that is gone was freed once, and no transaction points to a freed object |
| `SbiObjects.LiveIffHeld` | lib/mb-smf-service-consumer/ref_count_sbi_object.h:28-50 | an object is live exactly while a TMGI or session holds it |
| `CallbackData.Callbacks.ReleaseCreate` | lib/mb-smf-service-consumer/mbs-session.c:869-878 | releasing one callback's data frees it only if neither other callback has it |
| `CallbackData.Callbacks.ReleaseUpdate` | lib/mb-smf-service-consumer/mbs-session.c:880-889 | the same for the update callback |
| `CallbackData.Callbacks.ReleaseDelete` | lib/mb-smf-service-consumer/mbs-session.c:891-900 | the same for the delete callback |
| `CallbackData.Callbacks.ReleaseCallbacks` | lib/mb-smf-service-consumer/mbs-session.c:862-867 | the full release, in the order create, update, delete |
| `CallbackData.Callbacks.SetCreate` | lib/mb-smf-service-consumer/mbs-session.c:714-722 | other data is released first; the same data only changes its free function |
| `CallbackData.Callbacks.SetUpdate` | lib/mb-smf-service-consumer/mbs-session.c:724-732 | the same for the update callback |
| `CallbackData.Callbacks.SetDelete` | lib/mb-smf-service-consumer/mbs-session.c:734-742 | the same for the delete callback |
| `CallbackData.Callbacks.SetCallbacks` | lib/mb-smf-service-consumer/mbs-session.c:703-712 | setting all three, one after another; refused for a deleted session |
| `CallbackData.StepSafe` | lib/mb-smf-service-consumer/mbs-session.c:703-742 | nothing is freed while a callback still has it and nothing twice, whatever the free functions |
| `CallbackData.StepSettles` | lib/mb-smf-service-consumer/mbs-session.c:862-900 | when callbacks that share data share the free function, a step frees a datum if and only if it was owned and the last callback has just let go of it |
| `CallbackData.SetAllReaches` | lib/mb-smf-service-consumer/mbs-session.c:703-712 | data handed to all three callbacks is what all three have afterwards |
| `CallbackData.FullReleaseFrees` | lib/mb-smf-service-consumer/mbs-session.c:862-867 | in any state: the last of create, update, delete that has a datum decides whether the full release frees it |
| `CallbackData.EverythingFreedOnce` | lib/mb-smf-service-consumer/mbs-session.c:862-900 | after any proper run and the full release exactly the owned data that was ever handed over is freed, each once |
| `PcfEvents.FoldToMask` | lib/pcf-service-consumer/utils.c:27-55 | the fold over a list, which may be missing |
| `PcfEvents.NestedToMask` | lib/pcf-service-consumer/pcf-evsubsc.c:68-110 | the nested loops over table and list give the same mask as the fold, for every list |
| `PcfEvents.MaskOfHas` | lib/pcf-service-consumer/utils.c:27-104 | a list's mask has an event's bit if and only if the list has the event |
| `PcfEvents.SameEvents` | lib/pcf-service-consumer/utils.c:27-104 | order and repetitions do not matter |
| `PcfEvents.EventsSubscCreate` | lib/pcf-service-consumer/pcf-evsubsc.c:15-65 | the list of a mask, in table order |
| `PcfEvents.RoundTrip` | lib/pcf-service-consumer/pcf-evsubsc.c:15-110 | from any mask to a list and back: the mask restricted to the 20 defined bits |
| `PcfEvents.BitsInOrder` | lib/pcf-service-consumer/pcf-service-consumer.h:105-127 | each event has the bit of its place in the order of the flags |
| `PcfEvents.SelectedInOrder` | lib/pcf-service-consumer/pcf-evsubsc.c:15-65 | the list of a mask is in the order of the table |
| `PcfNotifications.Registry.Add` | lib/pcf-service-consumer/pcf-client.c:113-132 | a new entry at the end, unless there is no callback |
| `PcfNotifications.Registry.Remove` | lib/pcf-service-consumer/pcf-client.c:134-154 | which entries are narrowed, dropped or kept |
| `PcfNotifications.Registry.Dispatch` | lib/pcf-service-consumer/pcf-client.c:163-184 | exactly the entries whose mask meets the notification are called, in order, and the result is the conjunction |
| `PcfNotifications.CalledMeans` | lib/pcf-service-consumer/pcf-client.c:163-184 | an entry is called if and only if it wants one of the events |
| `PcfNotifications.RemovalFilters` | lib/pcf-service-consumer/pcf-client.c:134-154 | after a removal every notification reaches the same callbacks in the same order, but the selected ones hear only of events outside the mask |
| `PcfNotifications.RemovedNotCalled` | lib/pcf-service-consumer/pcf-client.c:134-154 | no selected entry is called for removed events only |
| `PcfNotifications.OthersConserved` | lib/pcf-service-consumer/pcf-client.c:134-154 | a notification without removed events is passed on as before |
| `PcfNotifications.RemovalLeaves` | lib/pcf-service-consumer/pcf-client.c:134-154 | a removal for everyone, for a callback, or for a callback with its user data takes the events away from just those entries, drops those left with none, and leaves the others as they are |
| `PcfMerge.Merge` | lib/pcf-service-consumer/pcf-client-sess.c:95-116 | where the merge ends: the copies it appends and the count it returns |
| `PcfMerge.WalkedGrows` | lib/pcf-service-consumer/pcf-client-sess.c:103-114 | with two different requests and something to merge with, every step of the outer loop makes the list longer |
| `PcfMerge.MergeTerminates` | lib/pcf-service-consumer/pcf-client-sess.c:95-116 | the merge comes to an end if and only if there is nothing to merge with or no two requests differ |
| `PcfMerge.TwoRequestsDiverge` | lib/pcf-service-consumer/pcf-client-sess.c:103-114 | counterexample: one subscription, and requests for it and another |
| `BsfLookup.BsfClient.Retrieve` | lib/bsf-service-consumer/pcf-bind.c:22-62 | a cached binding is passed on at once, else a session is made |
| `BsfLookup.BsfClient.ProcessResponse` | lib/bsf-service-consumer/nbsf-process.c:33-161 | each kind of response, and whether the event counts as handled |
| `BsfLookup.BsfClient.ProcessEvent` | lib/bsf-service-consumer/nbsf-process.c:25-203 | the dispatcher: the whole new state, and exactly which events count as handled |
| `BsfLookup.BsfClient.ProcessTimeout` | lib/bsf-service-consumer/nbsf-process.c:162-192 | the timeout step |
| `BsfLookup.BsfClient.ProcessLocalEvent` | lib/bsf-service-consumer/local.c:49-70 | the queued request is sent only for a session in the active list |
| `BsfLookup.BsfClient.RemoveActive` | lib/bsf-service-consumer/context.c:159-169 | the list without the session |
| `BsfLookup.BsfClient.IsActive` | lib/bsf-service-consumer/context.c:389-397 | the search of the list |
| `BsfLookup.BsfClient.FreeSession` | lib/bsf-service-consumer/bsf-client-sess.c:36-54 | the session leaves the list and its transactions go |
| `BsfLookup.BsfClient.Finalise` | lib/bsf-service-consumer/context.c:86-105 | the loop frees every session and transaction |
| `BsfLookup.RunInv` | lib/bsf-service-consumer/nbsf-process.c:25-203 | over every run no session in the active list has been called back, and none is called back twice |
| `BsfLookup.AnswerCallsOnce` | lib/bsf-service-consumer/nbsf-process.c:103-191 | an answer or timeout calls its session back exactly once with what was answered, retires it, stores the binding, and touches no other session |
| `LookupLife.RequestPointsTo` | lib/bsf-service-consumer/local.c:49-70 | after a local event its transaction points to the session if and only if that is active and the request could be sent, or it did so before; all else stays |
| `LookupLife.WholeLife` | lib/bsf-service-consumer/bsf-client-sess.c:144-165 | from every running state: a look-up that the cache cannot answer, its request and its answer call the new session back once, with the answered binding or with none, and leave nothing else but the cached binding |
| `LookupLife.UnsentWaits` | lib/bsf-service-consumer/local.c:57-62 | a look-up whose request cannot be sent stays active and nothing will answer it |
| `LookupLife.NothingAfterFinal` | lib/bsf-service-consumer/context.c:86-105 | after the final cleanup no session, request or cached binding is left, and no later event has any effect |
| `BsfLookup.AnswerIsReused` | lib/bsf-service-consumer/pcf-bind.c:30-43 | an answered binding is passed on at once to a later look-up of its address until it expires; then a session is made again |
| `BsfLookup.OthersDoNotAnswer` | lib/bsf-service-consumer/nbsf-process.c:25-203 | no other event calls a session back or, but for the final cleanup, retires it |
| `BsfLookup.RetiredForGood` | lib/bsf-service-consumer/context.c:171-174 | no later event has any effect on a retired session |
| `BindingCache.Cache.Find` | lib/bsf-service-consumer/pcf-bindings-cache.c:79-100 | result and eviction |
| `BindingCache.Cache.Add` | lib/bsf-service-consumer/pcf-bindings-cache.c:102-120 | the entry is created or overwritten |
| `BindingCache.FindRefinesLog` | lib/bsf-service-consumer/pcf-bindings-cache.c:79-120 | under a clock that does not go back, a look-up returns the latest addition's binding exactly when its expiry is not before now; evictions do not show |
| `BindingCache.ClockBackShows` | lib/bsf-service-consumer/pcf-bindings-cache.c:91-96 | counterexample for a clock that goes back |
| `CacheControl.CacheAge` | lib/bsf-service-consumer/utils.c:68-86 | 0 if caching is ruled out anywhere in the header, else the last maximum age, else 0 |
| `CacheControlText.RuledOut` | lib/bsf-service-consumer/utils.c:68-86 | a piece of the header that is "no-cache" or "no-store", in any case and with white space around it, makes the age 0 |
| `CacheControlText.LastAgeCounts` | lib/bsf-service-consumer/utils.c:68-86 | without such a piece, the last one that begins with "max-age=" sets the age: the digits of n behind it make it n |
| `CacheControlText.NoAgeIsZero` | lib/bsf-service-consumer/utils.c:68-86 | a header without any piece that begins so has the age 0 |
| `CacheControlText.NumberReads` | lib/bsf-service-consumer/utils.c:47-48 | white space, a sign or none, and the digits of n read as n or as its negative, whatever follows |
| `CacheControl.ResponseToExpiryTime` | lib/bsf-service-consumer/utils.c:36-66 | the loop over the headers ends with base plus the remaining age, never less than base |
| `CacheControl.SeenAllIs` | lib/bsf-service-consumer/utils.c:45-61 | base, maximum age and age are each decided by the last Date, Cache-Control and Age header alone, with now, 5 and 0 where there is none |
| `CacheControl.ExpiryOrderFree` | lib/bsf-service-consumer/utils.c:45-61 | when each header name occurs once the result does not depend on the order in which the hash yields them |
| `CacheControl.ExpiresEarly` | lib/bsf-service-consumer/utils.c:36-66 | the expiry time is the right one if and only if the age uses up the maximum age; otherwise just the look-ups between the two times miss a valid binding |

## Left out

- JsonPatch.WithPrefix: the copy of an operation reads the value of one that has none (`lib/mb-smf-service-consumer/json-patch.c:37`); here the value is optional.
- ServiceInfo.BuildAdded: the path of an added component is taken from the missing old one (`lib/mb-smf-service-consumer/mbs-media-comp.c:75`); here from the new one, as its key.
- QosRequirements.Millionths: bit rates are whole numbers of bits per second, and a tie in the sixth place is rounded up; the code has doubles (`lib/mb-smf-service-consumer/utils.c:106-126`).
- SessionCopy.PublicCopy: copies are values; that a copy shares the start time, and an unrequested TMGI, with its source is not captured.
- Reconciler.MbsSession.CreateResponse: the events that a create reply may report are not passed on to a subscription here.
- Reconciler.MbsSession.SendCreate: of the subscription that a creation carries only its identity is kept; the notification server that is made for it is not.
- Reconciler.MbsSession.SubscriptionResponse: the location is an optional input, and the failing case, in which the code takes the last part of a null location (`lib/mb-smf-service-consumer/nmbsmf-mbs-session-handle.c:325`), is a result of false; as dispatched there is never one. `Subscriptions.RunKeepsInv`, `Subscriptions.AnsweredIsActive` and `SessionRuns.AskedExactly` speak of the handler, which may be given one.
- Reconciliation.CreationSyncs: the TMGI that a creation sends within the session id (`lib/mb-smf-service-consumer/mbs-session.c:1034-1038`) is no part of the document, so that an assigned one does not count as a difference; sessions that differ in it alone have equal documents.
- SessionProtocol.RecreationLoses: when the session was given a TMGI of the application, which shares its SBI object, the code meets an assertion at the answer to the creation of a session that is gone (`lib/mb-smf-service-consumer/nmbsmf-mbs-session-handle.c:32`); here nothing happens.
- ServiceAreas.ExtDiffApplies: the geographic areas of an external area are left out, as most of their shapes and comparisons are not implemented in the code.
- BsfLookup.BsfClient.FreeSession: that freeing the SBI object of a session drops its transactions is assumed of `ogs_sbi_object_free` (`lib/bsf-service-consumer/bsf-client-sess.c:40`), which is not part of this model.
- BsfLookup.AnswerCallsOnce: every session has a callback; one made for the discovery at start-up has none (`lib/bsf-service-consumer/context.c:371`) and would wrongly count as called.
- PcfMerge.Merge: is stated where the loop ends; elsewhere `PcfMerge.WalkedGrows` says what happens instead.
- TmgiAllocation.Remove: unlinks one TMGI; that its memory is freed by the application later is part of `SbiObjects` only.
- BsfLookup.BsfClient.ProcessResponse: a successful answer always carries a binding.
- Subscriptions are values in a map from ids, not heap objects: aliasing between the containers is membership of an id.
- A subscription that moves from one session to another: the containers of one session are modelled.
- Geographic areas: most shapes and their equality are unimplemented in the code; only coordinates are modelled.
- Diffs of single tracking areas, cells and civic addresses by field: the list diffs replace whole elements.
- Areas with absent strings: every flow description has a text.
- Freeing and reuse of memory, allocation failure, and struct padding in comparisons.
- Calls of the application made while a callback runs.
- HTTP transport, discovery, notification servers, timers, configuration files and logging: requests are logged, and responses and timeouts are events.
- PCF request builders and handlers other than the merge and the masks: field copying.
