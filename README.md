# Peer controller model

A Dafny model of the peer controller of a web desktop's API,
`lib/ctrl/api/PeerController.class.php`. Peers are the endpoints that
applications use to talk to each other:

- an **online peer** is a presence held by the peer server. It has an id, a user id (null until somebody attaches it) and an application name;
- an **offline peer** is a peer a user registered for one application in the peer directory, public or not;
- a **peer link** joins two offline peers. It is requested by its left peer and confirmed by its right peer.

The controller decides how much of a peer a viewer sees. A viewer who is
*attached* to a peer sees its owner's user id and summary; other viewers
see only whether it is registered, online, and for which application. A
viewer is attached when:

- the peer is their own;
- a confirmed link joins their offline peer and the peer's;
- or the peer's offline record is public.

In unrestricted mode every viewer also sees the ids of every online peer.

`executeGetPeer` is the exception: it builds the record of an online peer
as attached (line 148). Whoever asks, logged in or not, gets that peer's
user id and peer id, and its owner's summary when the identity store knows
the owner.

The model has six modules:

- `PeerTypes` (`types.dfy`): the entities, the API response (a value, or the HTTP 401 or 404 the controller raises), and PHP's `empty()` on strings.
- `Stores` (`stores.dfy`): the collaborators the controller queries, as pure functions over values:
  - the peer server's list of online peers;
  - the peer directory and the link store, each a map from id to row with the next id it hands out;
  - the identity store.

  It also holds lemmas on how writes to these stores affect later lookups.
- `Disclosure` (`disclosure.dfy`): the record builders `_getOnlinePeerData`, `_getOfflinePeerData` and `_getPeerData`.
- `Listing` (`listing.dfy`): what the read operations return, as functions of a snapshot of the stores. This covers the attachment decisions of `executeListPeers`, `executeGetPeerByUserAndApp` and `executeListLinkedPeers`.
- `Dedup` (`dedup.dfy`): appending records while skipping those already in the list.
- `Controller` (`controller.dfy`): the class `PeerController`. Its fields are the stores. Its list operations are loops proved equal to the `Listing` functions; its single-peer lookups state their result through the `Disclosure` and `Listing` functions. Its write operations (attach, register, request, confirm, revoke) state their whole new state.

`Scenario` (`scenario.dfy`) is a client: two users register, link, look
each other up and unlink their peers. Its steps on the controller use only
the operations' contracts. The lemmas that compute Alice's linked-peer
listing (`BobSessions`, `BobLinkRecords`, `AliceCandidates`, `AliceSeesBob`)
unfold the `Listing` and `Dedup` definitions on that one state.

The unrestricted ("bisounours") flag is a constant of the controller set by
its constructor; the source ships with it switched on (line 25). The logged-in user
is the `viewer` parameter (`None` when nobody is logged in). Whether the
peer server can be reached is the `serverAvailable` parameter of the
listing of linked peers. That listing is the only operation whose result
depends on whether the server can be reached.

Lists drawn from a table come in ascending id order. So
`getByUserAndApp` finds the peer with the smallest id when a user registered
several for one application (`Stores.GetByUserAndAppLowest`): the source
does not forbid that.

## Model

| member | source | states |
|---|---|---|
| Stores.GetPeer | lib/ctrl/api/PeerController.class.php:147 | the peer server's `getPeer` gives nothing exactly when no online peer has the id, else an online peer with that id |
| Stores.ListPeersByUser | lib/ctrl/api/PeerController.class.php:260 | `listPeersByUser` holds exactly the online peers attached to the user |
| Stores.UpdatePeer | lib/ctrl/api/PeerController.class.php:320 | `updatePeer` replaces each online peer with the updated peer's id and keeps every other one in place |
| Stores.UpdatePeerKeepsIds | lib/ctrl/api/PeerController.class.php:320 | `updatePeer` keeps the id at every position |
| Stores.UpdatePeerThenGet | lib/ctrl/api/PeerController.class.php:320 | after `updatePeer`, `getPeer` for that id returns the updated peer |
| Stores.UpdatePeerKeepsOthers | lib/ctrl/api/PeerController.class.php:320 | after `updatePeer`, `getPeer` for any other id answers as before |
| Stores.GetById | lib/ctrl/api/PeerController.class.php:384 | `getById` of the peer directory or the link store returns the row filed under the id, or nothing when there is none |
| Stores.ListByUser | lib/ctrl/api/PeerController.class.php:205 | `listByUser` holds exactly the directory's peers of the user |
| Stores.FirstForApp | lib/ctrl/api/PeerController.class.php:163 | the first peer of a list for an application: every peer before it is of another application; nothing exactly when no peer is for it |
| Stores.GetByUserAndApp | lib/ctrl/api/PeerController.class.php:163 | `getByUserAndApp` gives nothing exactly when the directory has no peer of that user and application, else such a peer |
| Stores.GetByUserAndAppUnique | lib/ctrl/api/PeerController.class.php:163 | when exactly one peer matches, `getByUserAndApp` returns that one |
| Stores.GetByUserAndAppStep | lib/ctrl/api/PeerController.class.php:163 | one more row keeps the peer found so far, else finds that row when it matches |
| Stores.GetByUserAndAppLowest | lib/ctrl/api/PeerController.class.php:163 | `getByUserAndApp` returns the matching peer with the smallest id |
| Stores.RegisterKeepsFirst | lib/ctrl/api/PeerController.class.php:337-339 | registering another peer does not change which peer `getByUserAndApp` finds for a user who had one |
| Stores.RegisterThenFind | lib/ctrl/api/PeerController.class.php:337-339 | a user's first peer for an application is what `getByUserAndApp` finds from then on |
| Stores.RegisterFinds | lib/ctrl/api/PeerController.class.php:337-339 | after a registration, `getByUserAndApp` finds the user's earlier peer for the application if there is one, else the new peer |
| Stores.ConfirmedByPeers | lib/ctrl/api/PeerController.class.php:134 | the link manager's `confirmedByPeers` (also line 172): some confirmed link joins the two peers, in either direction |
| Stores.ListByPeer | lib/ctrl/api/PeerController.class.php:213 | `listByPeer` holds exactly the links with the peer at one end |
| Stores.RequestJoinsNobody | lib/ctrl/api/PeerController.class.php:359-366 | adding an unconfirmed link changes no `confirmedByPeers` answer |
| Stores.ConfirmJoinsEnds | lib/ctrl/api/PeerController.class.php:390-392 | once a link is confirmed, `confirmedByPeers` holds for its two ends |
| Stores.ConfirmJoinsOnlyEnds | lib/ctrl/api/PeerController.class.php:390-392 | confirming a link makes `confirmedByPeers` hold for no pair except its two ends |
| Stores.RevokeJoinsNobody | lib/ctrl/api/PeerController.class.php:416 | deleting a link makes `confirmedByPeers` hold for no new pair |
| Dedup.AddAll | lib/ctrl/api/PeerController.class.php:269-271 | the list keeps its prefix, gains exactly the new values, and stays free of repetitions |
| Dedup.AddAllSnoc | lib/ctrl/api/PeerController.class.php:269-271 | one more value is appended unless the list already has it |
| Dedup.AddNew | lib/ctrl/api/PeerController.class.php:269-271 | the `in_array` test and append extend the list built so far by one more value |
| Dedup.AddAllConcat | lib/ctrl/api/PeerController.class.php:246-274 | adding two runs of records one after the other is adding their concatenation |
| Disclosure.OnlinePeerData | lib/ctrl/api/PeerController.class.php:27-40 | `registered` says whether a user is attached; user id and peer id are present exactly for an attached viewer or in unrestricted mode |
| Disclosure.OfflinePeerData | lib/ctrl/api/PeerController.class.php:42-54 | always registered and offline; the owner's id is present exactly for an attached viewer; never a peer id |
| Disclosure.Merge | lib/ctrl/api/PeerController.class.php:75 | every key of the online record overrides the offline record's; the offline record's other keys survive |
| Disclosure.WithUser | lib/ctrl/api/PeerController.class.php:77-85 | the owner's summary is added exactly when the viewer is attached, a non-null user id is present and the identity store knows the user |
| Disclosure.GetPeerData | lib/ctrl/api/PeerController.class.php:56-88 | no record exactly when both peers are missing; the peer id exactly when online and attached or unrestricted; the user id exactly when attached (a public offline peer counts) or online and unrestricted; the summary exactly when attached and the owner is known |
| Disclosure.OnlineRecordPrevails | lib/ctrl/api/PeerController.class.php:63-75 | with an online peer, the offline record changes the result only by the attachment its public flag forces |
| Disclosure.StrictRecordShowsNoIdentity | lib/ctrl/api/PeerController.class.php:27-54 | unattached, not public and in strict mode, a record shows no user id, peer id or summary |
| Disclosure.PublicPeerShowsOwner | lib/ctrl/api/PeerController.class.php:65-69 | a public offline peer shows its owner to every viewer, and its peer id when online |
| Listing.ViewerPeer | lib/ctrl/api/PeerController.class.php:118-121 | the viewer's own offline peer for the application, nothing when logged out or none exists |
| Listing.ListedOffline | lib/ctrl/api/PeerController.class.php:126-131 | for a presence bound to a user other than the viewer, when an application is given, the result is `getByUserAndApp` of that user and application; in every other case nothing is fetched |
| Listing.ListedAttached | lib/ctrl/api/PeerController.class.php:127-136 | attached when the presence is the viewer's own, else exactly when an application is given and a confirmed link joins the viewer's and the owner's offline peers |
| Listing.ListedPeer | lib/ctrl/api/PeerController.class.php:138 | an online record whose ids are shown exactly when unrestricted, attached or the owner's offline peer is public |
| Listing.OwnPresenceDisclosed | lib/ctrl/api/PeerController.class.php:128-129 | a viewer always sees the ids of their own presence |
| Listing.StrictListingNeedsLink | lib/ctrl/api/PeerController.class.php:127-136 | in strict mode somebody else's identity is shown only through a public offline peer or a confirmed link between the two offline peers for the application |
| Listing.AttachedToOffline | lib/ctrl/api/PeerController.class.php:163-175 | attached exactly when logged in, the peer exists and is the viewer's own or confirmed-linked to the viewer's peer for the application |
| Listing.UserPeers | lib/ctrl/api/PeerController.class.php:203-208 | all of the viewer's offline peers when no application is given, else their one peer for it (none when absent) |
| Listing.LinksOfPeers | lib/ctrl/api/PeerController.class.php:210-217 | exactly the stored links with one of the given peers at an end |
| Listing.Counterpart | lib/ctrl/api/PeerController.class.php:249 | the other end of a link: the left peer when the viewer's peer is the right one, else the right peer |
| Listing.Sessions | lib/ctrl/api/PeerController.class.php:258-261 | the counterpart user's presences, or a single absent one when the peer server cannot be reached |
| Listing.SessionRecords | lib/ctrl/api/PeerController.class.php:263-272 | presences of another application are skipped; the owner is shown exactly when the link is confirmed, the peer is public, or unrestricted and online |
| Listing.SessionRecordsStep | lib/ctrl/api/PeerController.class.php:263-272 | one more presence adds its record unless it is of another application |
| Listing.SessionRecordsOwner | lib/ctrl/api/PeerController.class.php:258-268 | when every presence is bound to the counterpart's owner, every user id shown is that owner's |
| Listing.SessionRecordsOnline | lib/ctrl/api/PeerController.class.php:258-268 | with the server reachable every record is an online record |
| Listing.LinkRecords | lib/ctrl/api/PeerController.class.php:249-272 | nothing for a counterpart missing from the directory; offline records only when the server is unreachable; the owner is shown exactly when the link is confirmed, the peer is public, or unrestricted and online; a record that reveals more than unrestricted mode shows comes from a disclosing link; every user id shown is the counterpart's owner |
| Listing.LinksRecords | lib/ctrl/api/PeerController.class.php:247-273 | every online record belongs to the requested application; a record that reveals more than unrestricted mode shows is one of the records of a link of the list that is itself confirmed or has a public counterpart |
| Listing.LinksRecordsStep | lib/ctrl/api/PeerController.class.php:247-273 | one more link appends its records |
| Listing.LinkedCandidates | lib/ctrl/api/PeerController.class.php:246-274 | every online record belongs to the requested application; a record that reveals more than unrestricted mode shows is one of the records of a link of one of the peers, and that link is itself confirmed or has a public counterpart |
| Listing.LinkedCandidatesStep | lib/ctrl/api/PeerController.class.php:246-274 | one more of the viewer's peers appends the records of its links |
| Listing.LinkedPeers | lib/ctrl/api/PeerController.class.php:222-277 | no record twice, exactly the candidate records, online records only of the requested application, and a record that shows an owner beyond unrestricted mode is one of the records of a link of one of the viewer's peers that is itself confirmed or has a public counterpart |
| Controller.Attached | lib/ctrl/api/PeerController.class.php:313-318 | the peer keeps its id; it takes the viewer as user when logged in and the application when one is given |
| Controller.PeerController.constructor | lib/ctrl/api/PeerController.class.php:25 | starts with the given mode, online peers and users, and empty directory and link store |
| Controller.PeerController.ListPeers | lib/ctrl/api/PeerController.class.php:112-142 | one record per online peer, in order, each the `ListedPeer` record |
| Controller.PeerController.GetPeer | lib/ctrl/api/PeerController.class.php:144-155 | 404 exactly when no online peer has the id; otherwise the record shown as attached, with its ids |
| Controller.PeerController.GetPeerByUserAndApp | lib/ctrl/api/PeerController.class.php:157-184 | 404 exactly when the user has no peer for the application; otherwise an offline record whose owner is shown exactly when attached or public |
| Controller.PeerController.ListPeersLinks | lib/ctrl/api/PeerController.class.php:188-220 | 401 exactly when logged out; otherwise the links of the viewer's peers, each involving one of them |
| Controller.PeerController.ListLinkedPeers | lib/ctrl/api/PeerController.class.php:222-277 | 401 exactly when logged out; otherwise the `LinkedPeers` records |
| Controller.PeerController.AddPeerRecords | lib/ctrl/api/PeerController.class.php:247-273 | adds the missing records of the links of one of the viewer's peers |
| Controller.PeerController.AddLinkRecords | lib/ctrl/api/PeerController.class.php:249-272 | adds the missing records of one link, nothing when its other end is not in the directory |
| Controller.PeerController.AddSessionRecords | lib/ctrl/api/PeerController.class.php:263-272 | adds the missing records of the presences kept of one linked peer |
| Controller.PeerController.AttachPeer | lib/ctrl/api/PeerController.class.php:304-321 | 404 exactly when the online peer is unknown; otherwise it takes the viewer as user and the given application, `getPeer` returns it so, and no other peer changes |
| Controller.PeerController.RegisterPeer | lib/ctrl/api/PeerController.class.php:323-340 | 401 when logged out; otherwise files a peer under a fresh id, owned by the viewer, public only when asked (`Stores.RegisterFinds` then says which peer lookups find) |
| Controller.PeerController.RequestPeerLink | lib/ctrl/api/PeerController.class.php:344-367 | 401 when logged out, 404 exactly when the viewer has no peer for the application; otherwise a fresh unconfirmed link from that peer, which confirms no pair |
| Controller.PeerController.ConfirmPeerLink | lib/ctrl/api/PeerController.class.php:369-393 | succeeds exactly when the link exists and the viewer's peer is its right end; it then joins the two ends and no one else, and nothing changes on failure |
| Controller.PeerController.RevokePeerLink | lib/ctrl/api/PeerController.class.php:395-417 | succeeds exactly when the link exists and has the viewer's peer at an end; it then deletes the link and joins nobody |
| Controller.PeerController.RegisterPeerAsWritten | lib/ctrl/api/PeerController.class.php:324-339 | as written, 401 exactly when logged out, and the peer directory is left as it was |
| Controller.PeerController.ConfirmPeerLinkAsWritten | lib/ctrl/api/PeerController.class.php:378 | as written, behaves as the confirmation for the application "": it succeeds exactly when the viewer's peer for "" is the link's right end |
| Controller.PeerController.RevokePeerLinkAsWritten | lib/ctrl/api/PeerController.class.php:404 | as written, behaves as the revocation for the application "": it succeeds exactly when the viewer's peer for "" is an end of the link |
| Scenario.AsWrittenRegisterLosesPeer | lib/ctrl/api/PeerController.class.php:339-366 | after a registration as written, the new owner's link request is answered 404 |
| Scenario.RegisterBoth | lib/ctrl/api/PeerController.class.php:323-340 | a logged-out register is refused; two users then get peers 0 and 1 |
| Scenario.Request | lib/ctrl/api/PeerController.class.php:344-367 | the request by peer 0 towards peer 1 becomes unconfirmed link 0 |
| Scenario.AsWrittenLinkOperationsFail | lib/ctrl/api/PeerController.class.php:378-414 | the as-written confirmation by the right peer and revocation by the left peer both fail |
| Scenario.EarlyConfirm | lib/ctrl/api/PeerController.class.php:385-387 | the requester cannot confirm its own request |
| Scenario.Confirm | lib/ctrl/api/PeerController.class.php:369-393 | the requested peer's owner confirms the link |
| Scenario.LookUpBob | lib/ctrl/api/PeerController.class.php:157-184 | a logged-out lookup of a private peer shows no owner |
| Scenario.AliceLooksUpBob | lib/ctrl/api/PeerController.class.php:163-175 | through the confirmed link, the other end's owner and summary are shown |
| Scenario.AliceSeesBob | lib/ctrl/api/PeerController.class.php:222-277 | once the link is confirmed, the linked-peer listing holds the other end's presence with its owner, peer id and summary |
| Scenario.AliceListsLinkedPeers | lib/ctrl/api/PeerController.class.php:222-277 | the controller's listing returns that record |
| Scenario.RevokeLink | lib/ctrl/api/PeerController.class.php:395-417 | a user without a peer for the application cannot revoke; an end of the link can |

## Left out

- The static peer-server and API-server handles and their "cannot contact" errors (lines 421-443) are left out. The online peers are a field of the controller. Only the listing of linked peers models an unreachable server, through `serverAvailable`, because it is the only operation whose result depends on whether the server can be reached (lines 223-227, 258-261).
- `executeListPeersLinks` also tolerates an unreachable server (lines 189-193), but it never uses the server afterwards, so the model has no parameter for it.
- The event listeners and the publication of the peer list (lines 281-298) are left out: they are I/O on the websocket server. Each publication's payload would be the `ListPeers` result.
- Persistence of the managers is left out. The directory and the link store are maps with next ids, and an insertion takes the next id.
- `__construct` is not modelled (lines 102-106). It only registers the listeners.
- Controller.PeerController.RegisterPeerAsWritten: the source hands the new peer to the link manager's `insert` (line 339). What the link store does with an offline peer is not part of this model, so the model leaves the link store as it is. The peer directory does not change. The corrected `RegisterPeer` files the peer in the directory (see "## Findings").
- Controller.PeerController.RegisterPeer: `executeRegisterPeer` returns nothing. The model's response carries the id under which the peer was filed.
- `_getPeerLinkData` (lines 90-99) copies the four fields of a link. The model returns the `PeerLink` value itself.
- PHP loose comparison and truthiness are not modelled beyond the following:
  - `empty()` on application names is true for "" and "0";
  - `isset` on a null user id is false;
  - an absent `isPublic` counts as false. Any value other than `true` also counts as false, because the flag is a `bool` in the model.
- PHP integer casts (`(int)` on ids, lines 362, 384, 410) are not modelled: ids are integers.
- In `executeListPeers`, a viewer with an offline peer may look at a presence whose user has no peer for the application. The code then asks `confirmedByPeers` about a null id (line 134). The model treats that as not attached.
- In `executeListPeersLinks` and `executeListLinkedPeers`, a viewer without a peer for the requested application makes the code walk a list holding one null (lines 207 and 241). The model walks an empty list.
- `confirmedByPeers` belongs to the link manager, which is not part of this model. It is modelled as "some confirmed link joins the two peers, in either direction".
- The record of a peer seen both online and offline takes `registered` and `app` from the online peer, because `array_merge` lets the later array win (line 75). The model follows the code there.

## Findings

| source | as written | input that shows it | evidently intended | confidence | as-written member | corrected member |
|---|---|---|---|---|---|---|
| lib/ctrl/api/PeerController.class.php:378 | `executeConfirmPeerLink` looks the viewer's peer up with `$appName`, a variable it never defines, so it looks for the application "" | users 1 and 2 with peers 0 and 1 for "chat", link 0 from peer 0 to peer 1; user 2 confirms link 0: answer 404 | the application name is a parameter, as in `executeRequestPeerLink` | high, not executed | Controller.PeerController.ConfirmPeerLinkAsWritten, Scenario.AsWrittenLinkOperationsFail | Controller.PeerController.ConfirmPeerLink |
| lib/ctrl/api/PeerController.class.php:404 | `executeRevokePeerLink` has the same undefined `$appName` | the same directory and link; user 1 revokes link 0: answer 404 | the application name is a parameter | high, not executed | Controller.PeerController.RevokePeerLinkAsWritten, Scenario.AsWrittenLinkOperationsFail | Controller.PeerController.RevokePeerLink |
| lib/ctrl/api/PeerController.class.php:339 | `executeRegisterPeer` gets the peer-link manager (line 324) and inserts the new offline peer through it, so the peer directory never gets the peer | an empty directory; user 1 registers a peer for "chat", then asks for a link from it: answer 404, because user 1 has no peer | the peer is inserted through the peer manager, which every lookup of offline peers reads | medium, not executed | Controller.PeerController.RegisterPeerAsWritten, Scenario.AsWrittenRegisterLosesPeer | Controller.PeerController.RegisterPeer |
