/** Which fields of a peer a viewer is shown: the record builders
    `_getOnlinePeerData`, `_getOfflinePeerData` and `_getPeerData`. */
module Disclosure {
  import opened PeerTypes

  /** The record of a connected peer. Its user id and peer id are shown
      only to an attached viewer, or to everybody in unrestricted mode. */
  function OnlinePeerData(peer: OnlinePeer, isAttached: bool, unrestricted: bool): (r: PeerData)
    ensures r.registered <==> peer.userId != Null
    ensures r.online && r.app == peer.app
    ensures r.userId.Some? <==> isAttached || unrestricted
    ensures r.userId.Some? ==> r.userId.value == peer.userId
    ensures r.peerId.Some? <==> isAttached || unrestricted
    ensures r.peerId.Some? ==> r.peerId.value == peer.id
    ensures r.user.None?
  {
    var shown := isAttached || unrestricted;
    PeerData(peer.userId != Null, true, peer.app,
      if shown then Some(peer.userId) else None,
      if shown then Some(peer.id) else None,
      None)
  }

  /** The record of a registered peer. Its owner is shown only to an
      attached viewer; unrestricted mode plays no part here. */
  function OfflinePeerData(peer: OfflinePeer, isAttached: bool): (r: PeerData)
    ensures r.registered && !r.online && r.app == peer.app
    ensures r.userId.Some? <==> isAttached
    ensures r.userId.Some? ==> r.userId.value == Val(peer.userId)
    ensures r.peerId.None? && r.user.None?
  {
    PeerData(true, false, peer.app,
      if isAttached then Some(Val(peer.userId)) else None,
      None,
      None)
  }

  /** `array_merge(base, over)`: every key `over` has takes its value from
      `over`, every other key keeps the value it has in `base`. */
  function Merge(base: PeerData, over: PeerData): (r: PeerData)
    ensures r.registered == over.registered && r.online == over.online && r.app == over.app
    ensures over.userId.Some? ==> r.userId == over.userId
    ensures over.userId.None? ==> r.userId == base.userId
    ensures over.peerId.Some? ==> r.peerId == over.peerId
    ensures over.peerId.None? ==> r.peerId == base.peerId
    ensures over.user.Some? ==> r.user == over.user
    ensures over.user.None? ==> r.user == base.user
  {
    PeerData(over.registered, over.online, over.app,
      if over.userId.Some? then over.userId else base.userId,
      if over.peerId.Some? then over.peerId else base.peerId,
      if over.user.Some? then over.user else base.user)
  }

  /** A public offline peer counts as attached to every viewer. */
  predicate EffectivelyAttached(isAttached: bool, offline: Option<OfflinePeer>) {
    isAttached || (offline.Some? && offline.value.isPublic)
  }

  /** Adds the `user` summary when the viewer is attached, a non-null user
      id is in the record and the identity store knows that user. */
  function WithUser(data: PeerData, attached: bool, users: map<UserId, UserSummary>): (r: PeerData)
    requires data.user.None?
    ensures r == data.(user := r.user)
    ensures r.user.Some? <==>
      attached && data.userId.Some? && data.userId.value.Val? && data.userId.value.value in users
    ensures r.user.Some? ==> r.user.value == users[data.userId.value.value]
  {
    if attached && data.userId.Some? && data.userId.value.Val? && data.userId.value.value in users
    then data.(user := Some(users[data.userId.value.value]))
    else data
  }

  /** `_getPeerData`: the record for a peer seen online, offline or both;
      no record when neither is given. */
  function GetPeerData(online: Option<OnlinePeer>, offline: Option<OfflinePeer>, isAttached: bool,
                       unrestricted: bool, users: map<UserId, UserSummary>): (r: Option<PeerData>)
    ensures r.None? <==> online.None? && offline.None?
    // the keys every record has
    ensures r.Some? && online.Some? ==>
      r.value.online && r.value.app == online.value.app &&
      (r.value.registered <==> online.value.userId != Null)
    ensures r.Some? && online.None? ==>
      r.value.registered && !r.value.online && r.value.app == offline.value.app
    // the privileged keys
    ensures r.Some? ==>
      (r.value.peerId.Some? <==> online.Some? && (EffectivelyAttached(isAttached, offline) || unrestricted))
    ensures r.Some? && r.value.peerId.Some? ==> r.value.peerId.value == online.value.id
    ensures r.Some? ==>
      (r.value.userId.Some? <==> EffectivelyAttached(isAttached, offline) || (online.Some? && unrestricted))
    ensures r.Some? && r.value.userId.Some? && online.Some? ==> r.value.userId.value == online.value.userId
    ensures r.Some? && r.value.userId.Some? && online.None? ==> r.value.userId.value == Val(offline.value.userId)
    // the user summary
    ensures r.Some? ==>
      (r.value.user.Some? <==>
        EffectivelyAttached(isAttached, offline) && r.value.userId.Some? &&
        r.value.userId.value.Val? && r.value.userId.value.value in users)
    ensures r.Some? && r.value.user.Some? ==> r.value.user.value == users[r.value.userId.value.value]
  {
    if online.None? && offline.None? then None
    else
      var attached := EffectivelyAttached(isAttached, offline);
      var data :=
        if offline.None? then OnlinePeerData(online.value, attached, unrestricted)
        else if online.None? then OfflinePeerData(offline.value, attached)
        else Merge(OfflinePeerData(offline.value, attached), OnlinePeerData(online.value, attached, unrestricted));
      Some(WithUser(data, attached, users))
  }

  /** When a peer is seen online, its offline record adds nothing: the
      result is the online-only record, with the attachment a public
      offline peer forces. */
  lemma OnlineRecordPrevails(online: OnlinePeer, offline: OfflinePeer, isAttached: bool,
                             unrestricted: bool, users: map<UserId, UserSummary>)
    ensures GetPeerData(Some(online), Some(offline), isAttached, unrestricted, users) ==
            GetPeerData(Some(online), None, isAttached || offline.isPublic, unrestricted, users)
  {
  }

  /** Without attachment, without a public offline peer and in strict
      mode, a record shows only `registered`, `online` and `app`. */
  lemma StrictRecordShowsNoIdentity(online: Option<OnlinePeer>, offline: Option<OfflinePeer>,
                                    users: map<UserId, UserSummary>)
    requires online.Some? || offline.Some?
    requires offline.Some? ==> !offline.value.isPublic
    ensures var r := GetPeerData(online, offline, false, false, users).value;
      r.userId.None? && r.peerId.None? && r.user.None?
  {
  }

  /** A public offline peer is shown with its owner to every viewer. */
  lemma PublicPeerShowsOwner(online: Option<OnlinePeer>, offline: OfflinePeer, isAttached: bool,
                             unrestricted: bool, users: map<UserId, UserSummary>)
    requires offline.isPublic
    ensures var r := GetPeerData(online, Some(offline), isAttached, unrestricted, users).value;
      r.userId.Some? && (online.Some? ==> r.peerId.Some?) &&
      (online.None? ==> r.userId.value == Val(offline.userId))
  {
  }
}
