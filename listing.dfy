/** What the read operations of the controller return, as functions of a
    snapshot of the stores: which peers a viewer is attached to, and the
    records the list operations produce. */
module Listing {
  import opened PeerTypes
  import opened Stores
  import opened Disclosure
  import opened Dedup

  /** The viewer's own offline peer for an application (none when nobody
      is logged in). */
  function ViewerPeer(s: Snapshot, viewer: Option<UserId>, appName: string): (r: Option<OfflinePeer>)
    ensures r.Some? ==> viewer.Some? && r.value.userId == viewer.value && r.value.app == appName
    ensures r.Some? ==> Row(s.peers, s.nextPeerId, r.value)
    ensures viewer.Some? && r.None? ==>
      forall k :: 0 <= k < s.nextPeerId && k in s.peers ==>
        !(s.peers[k].userId == viewer.value && s.peers[k].app == appName)
  {
    if viewer.Some? then GetByUserAndApp(s.peers, s.nextPeerId, viewer.value, appName) else None
  }

  /** The online peer is the logged-in viewer's own presence. */
  predicate OwnPresence(viewer: Option<UserId>, o: OnlinePeer) {
    o.userId.Val? && viewer == Some(o.userId.value)
  }

  // ------------------------------------------------------- listPeers

  /** The offline peer `executeListPeers` fetches for an online peer: that of
      its user for the requested application, when an application is given
      and the peer is somebody else's. */
  function ListedOffline(s: Snapshot, viewer: Option<UserId>, appName: string, o: OnlinePeer): (r: Option<OfflinePeer>)
    ensures r.Some? ==>
      !OwnPresence(viewer, o) && !Empty(appName) &&
      o.userId == Val(r.value.userId) && r.value.app == appName && Row(s.peers, s.nextPeerId, r.value)
    ensures !OwnPresence(viewer, o) && o.userId.Val? && !Empty(appName) ==>
      r == GetByUserAndApp(s.peers, s.nextPeerId, o.userId.value, appName)
  {
    if OwnPresence(viewer, o) then None
    else if o.userId.Val? && !Empty(appName) then GetByUserAndApp(s.peers, s.nextPeerId, o.userId.value, appName)
    else None
  }

  /** Whether `executeListPeers` treats the viewer as attached to an online
      peer: it is their own presence, or a confirmed link joins the viewer's
      offline peer for the application and that of the peer's user. */
  function ListedAttached(s: Snapshot, viewer: Option<UserId>, appName: string, o: OnlinePeer): (r: bool)
    ensures OwnPresence(viewer, o) ==> r
    ensures !OwnPresence(viewer, o) ==>
      (r <==> !Empty(appName) &&
              ViewerPeer(s, viewer, appName).Some? && ListedOffline(s, viewer, appName, o).Some? &&
              ConfirmedByPeers(s.links, ViewerPeer(s, viewer, appName).value.id,
                               ListedOffline(s, viewer, appName, o).value.id))
  {
    if OwnPresence(viewer, o) then true
    else if o.userId.Val? && !Empty(appName) then
      var current := ViewerPeer(s, viewer, appName);
      var offline := ListedOffline(s, viewer, appName, o);
      current.Some? && offline.Some? && ConfirmedByPeers(s.links, current.value.id, offline.value.id)
    else false
  }

  /** The entry `executeListPeers` gives for one online peer. */
  function ListedPeer(s: Snapshot, unrestricted: bool, viewer: Option<UserId>, appName: string, o: OnlinePeer): (r: PeerData)
    ensures r.online && r.app == o.app && (r.registered <==> o.userId != Null)
    ensures r.peerId.Some? <==>
      unrestricted || ListedAttached(s, viewer, appName, o) ||
      (ListedOffline(s, viewer, appName, o).Some? && ListedOffline(s, viewer, appName, o).value.isPublic)
    ensures r.peerId.Some? ==> r.peerId == Some(o.id) && r.userId == Some(o.userId)
    ensures r.peerId.None? ==> r.userId.None? && r.user.None?
  {
    GetPeerData(Some(o), ListedOffline(s, viewer, appName, o), ListedAttached(s, viewer, appName, o),
                unrestricted, s.users).value
  }

  /** A viewer always sees the identity of their own presence. */
  lemma OwnPresenceDisclosed(s: Snapshot, unrestricted: bool, viewer: Option<UserId>, appName: string, o: OnlinePeer)
    requires OwnPresence(viewer, o)
    ensures ListedPeer(s, unrestricted, viewer, appName, o).peerId == Some(o.id)
    ensures ListedPeer(s, unrestricted, viewer, appName, o).userId == Some(o.userId)
  {
  }

  /** In strict mode the identity behind somebody else's presence is shown
      only when the viewer's and the peer's offline peers for the requested
      application are joined by a confirmed link, or the peer's is public. */
  lemma StrictListingNeedsLink(s: Snapshot, viewer: Option<UserId>, appName: string, o: OnlinePeer)
    requires !OwnPresence(viewer, o)
    requires ListedPeer(s, false, viewer, appName, o).userId.Some?
    ensures !Empty(appName)
    ensures var peer := ListedOffline(s, viewer, appName, o);
      peer.Some? && o.userId == Val(peer.value.userId) && peer.value.app == appName &&
      (peer.value.isPublic ||
       (ViewerPeer(s, viewer, appName).Some? &&
        ConfirmedByPeers(s.links, ViewerPeer(s, viewer, appName).value.id, peer.value.id)))
  {
  }

  // ---------------------------------------------- getPeerByUserAndApp

  /** Whether `executeGetPeerByUserAndApp` treats the viewer as attached to
      the offline peer of `userId` for `appName`. */
  function AttachedToOffline(s: Snapshot, viewer: Option<UserId>, userId: UserId, appName: string): (r: bool)
    ensures r <==>
      viewer.Some? && GetByUserAndApp(s.peers, s.nextPeerId, userId, appName).Some? &&
      (viewer.value == userId ||
       (ViewerPeer(s, viewer, appName).Some? &&
        ConfirmedByPeers(s.links, ViewerPeer(s, viewer, appName).value.id,
                         GetByUserAndApp(s.peers, s.nextPeerId, userId, appName).value.id)))
  {
    var offline := GetByUserAndApp(s.peers, s.nextPeerId, userId, appName);
    if viewer.None? || offline.None? then false
    else if viewer.value == offline.value.userId then true
    else
      var current := ViewerPeer(s, viewer, appName);
      current.Some? && ConfirmedByPeers(s.links, current.value.id, offline.value.id)
  }

  // ------------------------------------------- the viewer's own peers

  /** The viewer's offline peers the link listings start from: all of them
      when no application is given, else the one for that application. */
  function UserPeers(s: Snapshot, userId: UserId, appName: string): (r: seq<OfflinePeer>)
    ensures forall p :: p in r ==> p.userId == userId && Row(s.peers, s.nextPeerId, p)
    ensures !Empty(appName) ==> |r| <= 1 && forall p :: p in r ==> p.app == appName
    ensures Empty(appName) ==>
      forall k :: 0 <= k < s.nextPeerId && k in s.peers && s.peers[k].userId == userId ==> s.peers[k] in r
    ensures !Empty(appName) ==>
      (r == [] <==> forall k :: 0 <= k < s.nextPeerId && k in s.peers ==>
                      !(s.peers[k].userId == userId && s.peers[k].app == appName))
  {
    if Empty(appName) then ListByUser(s.peers, s.nextPeerId, userId)
    else
      match GetByUserAndApp(s.peers, s.nextPeerId, userId, appName)
      case Some(p) => [p]
      case None => []
  }

  // ------------------------------------------------- listPeersLinks

  /** The links of a list of offline peers, peer after peer. */
  function LinksOfPeers(s: Snapshot, ps: seq<OfflinePeer>): (r: seq<PeerLink>)
    ensures forall l :: l in r <==>
      Row(s.links, s.nextLinkId, l) && exists i :: 0 <= i < |ps| && Involves(l, ps[i].id)
    decreases |ps|
  {
    if ps == [] then []
    else
      var init := ps[..|ps| - 1];
      var last := ps[|ps| - 1];
      var earlier := LinksOfPeers(s, init);
      var own := ListByPeer(s.links, s.nextLinkId, last.id);
      var r := earlier + own;
      assert forall l :: Row(s.links, s.nextLinkId, l) && (exists i :: 0 <= i < |ps| && Involves(l, ps[i].id)) ==> l in r by {
        forall l | Row(s.links, s.nextLinkId, l) && exists i :: 0 <= i < |ps| && Involves(l, ps[i].id)
          ensures l in r
        {
          var i :| 0 <= i < |ps| && Involves(l, ps[i].id);
          if i < |ps| - 1 {
            assert init[i] == ps[i];
            assert l in earlier;
          } else {
            var k :| 0 <= k < s.nextLinkId && k in s.links && s.links[k] == l;
            assert l in own;
          }
        }
      }
      assert forall l :: l in r ==> exists i :: 0 <= i < |ps| && Involves(l, ps[i].id) by {
        forall l | l in r ensures exists i :: 0 <= i < |ps| && Involves(l, ps[i].id) {
          if l in earlier {
            var i :| 0 <= i < |init| && Involves(l, init[i].id);
            assert ps[i] == init[i];
          } else {
            assert l in own;
            assert Involves(l, ps[|ps| - 1].id);
          }
        }
      }
      r
  }

  // ------------------------------------------------ listLinkedPeers

  /** The far end of a link, seen from one of its peers: `leftPeer` when the
      viewer's peer is `rightPeer`, `rightPeer` otherwise. */
  function Counterpart(l: PeerLink, own: int): (r: int)
    ensures Involves(l, r)
    ensures l.rightPeer == own ==> r == l.leftPeer
    ensures l.leftPeer == own && l.rightPeer != own ==> r == l.rightPeer
    ensures Involves(l, own) && l.leftPeer != l.rightPeer ==> r != own
  {
    if l.rightPeer == own then l.leftPeer else l.rightPeer
  }

  /** The presences of a user that `executeListLinkedPeers` walks through:
      one absent presence when it cannot reach the peer server. */
  function Sessions(s: Snapshot, serverAvailable: bool, userId: UserId): (r: seq<Option<OnlinePeer>>)
    ensures !serverAvailable ==> r == [None]
    ensures serverAvailable ==> forall o :: Some(o) in r <==> o in s.registry && o.userId == Val(userId)
    ensures serverAvailable ==> None !in r
  {
    if serverAvailable then
      var os := ListPeersByUser(s.registry, userId);
      var r := seq(|os|, i requires 0 <= i < |os| => Some(os[i]));
      assert forall o :: o in os ==> Some(o) in r by {
        forall o | o in os ensures Some(o) in r {
          var i :| 0 <= i < |os| && os[i] == o;
          assert r[i] == Some(o);
        }
      }
      r
    else [None]
  }

  /** A presence of another application is skipped when one is requested. */
  predicate SkippedSession(appName: string, o: Option<OnlinePeer>) {
    o.Some? && !Empty(appName) && o.value.app != appName
  }

  /** A link discloses its counterpart's owner to the peer `own` when it is
      confirmed or when the counterpart is public. */
  predicate Discloses(s: Snapshot, own: OfflinePeer, l: PeerLink) {
    l.confirmed ||
    (Counterpart(l, own.id) in s.peers && s.peers[Counterpart(l, own.id)].isPublic)
  }

  /** A record tells its owner beyond what an unrestricted server shows of
      every presence. */
  predicate Revealing(unrestricted: bool, d: PeerData) {
    (d.userId.Some? && !(unrestricted && d.online)) || d.user.Some?
  }

  /** The records of one counterpart `cp`, one per presence kept. */
  function SessionRecords(s: Snapshot, unrestricted: bool, appName: string, cp: OfflinePeer,
                          confirmed: bool, os: seq<Option<OnlinePeer>>): (r: seq<PeerData>)
    ensures forall d :: d in r ==> (d.online && !Empty(appName) ==> d.app == appName)
    ensures forall d :: d in r ==> (!d.online ==> d.app == cp.app && d.peerId.None?)
    ensures forall d :: d in r ==>
      (d.userId.Some? <==> confirmed || cp.isPublic || (unrestricted && d.online))
    ensures forall d :: d in r ==> (d.user.Some? ==> confirmed || cp.isPublic)
    decreases |os|
  {
    if os == [] then []
    else
      var init := SessionRecords(s, unrestricted, appName, cp, confirmed, os[..|os| - 1]);
      var o := os[|os| - 1];
      if SkippedSession(appName, o) then init
      else init + [GetPeerData(o, Some(cp), confirmed, unrestricted, s.users).value]
  }

  /** The records `executeListLinkedPeers` derives from one link of the
      viewer's peer `own`: none when the counterpart is not in the peer
      directory, else one per presence of the counterpart's user. The
      viewer is attached exactly when the link is confirmed. */
  function LinkRecords(s: Snapshot, unrestricted: bool, appName: string, serverAvailable: bool,
                       own: OfflinePeer, l: PeerLink): (r: seq<PeerData>)
    ensures Counterpart(l, own.id) !in s.peers ==> r == []
    ensures Counterpart(l, own.id) in s.peers ==>
      var cp := s.peers[Counterpart(l, own.id)];
      forall d :: d in r ==>
        (d.userId.Some? <==> l.confirmed || cp.isPublic || (unrestricted && d.online)) &&
        (!d.online ==> d.app == cp.app)
    ensures forall d :: d in r ==> (d.online && !Empty(appName) ==> d.app == appName)
    ensures forall d :: d in r ==> (!d.online ==> !serverAvailable && d.peerId.None?)
    ensures forall d :: d in r && Revealing(unrestricted, d) ==> Discloses(s, own, l)
    // the identity shown is that of the counterpart's owner
    ensures Counterpart(l, own.id) in s.peers ==>
      forall d :: d in r && d.userId.Some? ==> d.userId.value == Val(s.peers[Counterpart(l, own.id)].userId)
  {
    match GetById(s.peers, Counterpart(l, own.id))
    case None => []
    case Some(cp) =>
      var os := Sessions(s, serverAvailable, cp.userId);
      var r := SessionRecords(s, unrestricted, appName, cp, l.confirmed, os);
      assert forall d :: d in r ==> (!d.online ==> !serverAvailable) by {
        if serverAvailable { SessionRecordsOnline(s, unrestricted, appName, cp, l.confirmed, os); }
      }
      assert forall k :: 0 <= k < |os| && os[k].Some? ==> os[k].value.userId == Val(cp.userId) by {
        forall k | 0 <= k < |os| && os[k].Some? ensures os[k].value.userId == Val(cp.userId) {
          assert os[k] in os;
        }
      }
      SessionRecordsOwner(s, unrestricted, appName, cp, l.confirmed, os);
      r
  }

  /** Records built from actual presences are online records. */
  lemma {:induction false} SessionRecordsOnline(s: Snapshot, unrestricted: bool, appName: string,
                                                cp: OfflinePeer, confirmed: bool, os: seq<Option<OnlinePeer>>)
    requires None !in os
    ensures forall d :: d in SessionRecords(s, unrestricted, appName, cp, confirmed, os) ==> d.online
    decreases |os|
  {
    if os != [] {
      assert os[|os| - 1] in os;
      SessionRecordsOnline(s, unrestricted, appName, cp, confirmed, os[..|os| - 1]);
    }
  }

  /** A record shows the counterpart's owner when every presence kept is
      bound to that owner. */
  lemma {:induction false} SessionRecordsOwner(s: Snapshot, unrestricted: bool, appName: string,
                                               cp: OfflinePeer, confirmed: bool, os: seq<Option<OnlinePeer>>)
    requires forall k :: 0 <= k < |os| && os[k].Some? ==> os[k].value.userId == Val(cp.userId)
    ensures forall d :: d in SessionRecords(s, unrestricted, appName, cp, confirmed, os) && d.userId.Some? ==>
      d.userId.value == Val(cp.userId)
    decreases |os|
  {
    if os != [] {
      var init := os[..|os| - 1];
      assert forall k :: 0 <= k < |init| ==> init[k] == os[k];
      SessionRecordsOwner(s, unrestricted, appName, cp, confirmed, init);
    }
  }

  lemma SessionRecordsStep(s: Snapshot, unrestricted: bool, appName: string, cp: OfflinePeer,
                           confirmed: bool, os: seq<Option<OnlinePeer>>, k: nat)
    requires k < |os|
    ensures SessionRecords(s, unrestricted, appName, cp, confirmed, os[..k + 1]) ==
      if SkippedSession(appName, os[k]) then SessionRecords(s, unrestricted, appName, cp, confirmed, os[..k])
      else SessionRecords(s, unrestricted, appName, cp, confirmed, os[..k]) +
           [GetPeerData(os[k], Some(cp), confirmed, unrestricted, s.users).value]
  {
    assert os[..k + 1][..k] == os[..k];
  }

  /** The record `d` is one of those of the link `l`, and `l` discloses its
      counterpart's owner to `own`. */
  predicate FromDisclosingLink(s: Snapshot, unrestricted: bool, appName: string, serverAvailable: bool,
                               own: OfflinePeer, l: PeerLink, d: PeerData) {
    d in LinkRecords(s, unrestricted, appName, serverAvailable, own, l) && Discloses(s, own, l)
  }

  /** The records of a list of links of `own`, link after link. */
  function LinksRecords(s: Snapshot, unrestricted: bool, appName: string, serverAvailable: bool,
                        own: OfflinePeer, ls: seq<PeerLink>): (r: seq<PeerData>)
    ensures forall d :: d in r ==> (d.online && !Empty(appName) ==> d.app == appName)
    ensures forall d :: d in r && Revealing(unrestricted, d) ==>
      exists j :: 0 <= j < |ls| && FromDisclosingLink(s, unrestricted, appName, serverAvailable, own, ls[j], d)
    decreases |ls|
  {
    if ls == [] then []
    else
      var init := LinksRecords(s, unrestricted, appName, serverAvailable, own, ls[..|ls| - 1]);
      var r := init + LinkRecords(s, unrestricted, appName, serverAvailable, own, ls[|ls| - 1]);
      assert forall d :: d in r && Revealing(unrestricted, d) ==>
        exists j :: 0 <= j < |ls| && FromDisclosingLink(s, unrestricted, appName, serverAvailable, own, ls[j], d) by {
        forall d | d in r && Revealing(unrestricted, d)
          ensures exists j :: 0 <= j < |ls| && FromDisclosingLink(s, unrestricted, appName, serverAvailable, own, ls[j], d)
        {
          if d in init {
            var j :| 0 <= j < |ls| - 1 &&
                     FromDisclosingLink(s, unrestricted, appName, serverAvailable, own, ls[..|ls| - 1][j], d);
            assert ls[..|ls| - 1][j] == ls[j];
          } else {
            assert FromDisclosingLink(s, unrestricted, appName, serverAvailable, own, ls[|ls| - 1], d);
          }
        }
      }
      r
  }

  lemma LinksRecordsStep(s: Snapshot, unrestricted: bool, appName: string, serverAvailable: bool,
                         own: OfflinePeer, ls: seq<PeerLink>, j: nat)
    requires j < |ls|
    ensures LinksRecords(s, unrestricted, appName, serverAvailable, own, ls[..j + 1]) ==
      LinksRecords(s, unrestricted, appName, serverAvailable, own, ls[..j]) +
      LinkRecords(s, unrestricted, appName, serverAvailable, own, ls[j])
  {
    assert ls[..j + 1][..j] == ls[..j];
  }

  /** The records of the links of a list of the viewer's peers, peer after
      peer, duplicates included. */
  function LinkedCandidates(s: Snapshot, unrestricted: bool, appName: string, serverAvailable: bool,
                            ps: seq<OfflinePeer>): (r: seq<PeerData>)
    ensures forall d :: d in r ==> (d.online && !Empty(appName) ==> d.app == appName)
    ensures forall d :: d in r && Revealing(unrestricted, d) ==>
      ShownThroughLink(s, unrestricted, appName, serverAvailable, ps, d)
    decreases |ps|
  {
    if ps == [] then []
    else
      var own := ps[|ps| - 1];
      var init := LinkedCandidates(s, unrestricted, appName, serverAvailable, ps[..|ps| - 1]);
      var r := init + LinksRecords(s, unrestricted, appName, serverAvailable, own,
                                   ListByPeer(s.links, s.nextLinkId, own.id));
      assert forall d :: d in r && Revealing(unrestricted, d) ==>
        ShownThroughLink(s, unrestricted, appName, serverAvailable, ps, d) by {
        forall d | d in r && Revealing(unrestricted, d)
          ensures ShownThroughLink(s, unrestricted, appName, serverAvailable, ps, d)
        {
          if d in init {
            var init_ps := ps[..|ps| - 1];
            var i, j :| 0 <= i < |init_ps| && 0 <= j < |ListByPeer(s.links, s.nextLinkId, init_ps[i].id)| &&
                        FromDisclosingLink(s, unrestricted, appName, serverAvailable, init_ps[i],
                                           ListByPeer(s.links, s.nextLinkId, init_ps[i].id)[j], d);
            assert init_ps[i] == ps[i];
          } else {
            var ls := ListByPeer(s.links, s.nextLinkId, own.id);
            var j :| 0 <= j < |ls| && FromDisclosingLink(s, unrestricted, appName, serverAvailable, own, ls[j], d);
            assert ps[|ps| - 1] == own;
          }
        }
      }
      r
  }

  /** The record `d` comes from a link of one of the peers `ps` that
      discloses its counterpart's owner. */
  ghost predicate ShownThroughLink(s: Snapshot, unrestricted: bool, appName: string, serverAvailable: bool,
                                   ps: seq<OfflinePeer>, d: PeerData) {
    exists i, j :: 0 <= i < |ps| && 0 <= j < |ListByPeer(s.links, s.nextLinkId, ps[i].id)| &&
                   FromDisclosingLink(s, unrestricted, appName, serverAvailable, ps[i],
                                      ListByPeer(s.links, s.nextLinkId, ps[i].id)[j], d)
  }

  lemma LinkedCandidatesStep(s: Snapshot, unrestricted: bool, appName: string, serverAvailable: bool,
                             ps: seq<OfflinePeer>, i: nat)
    requires i < |ps|
    ensures LinkedCandidates(s, unrestricted, appName, serverAvailable, ps[..i + 1]) ==
      LinkedCandidates(s, unrestricted, appName, serverAvailable, ps[..i]) +
      LinksRecords(s, unrestricted, appName, serverAvailable, ps[i], ListByPeer(s.links, s.nextLinkId, ps[i].id))
  {
    assert ps[..i + 1][..i] == ps[..i];
  }

  /** The result of `executeListLinkedPeers` for a logged-in viewer: the
      candidate records with every repetition dropped. */
  function LinkedPeers(s: Snapshot, unrestricted: bool, appName: string, serverAvailable: bool,
                       userId: UserId): (r: seq<PeerData>)
    ensures NoDuplicates(r)
    ensures forall d :: d in r <==>
      d in LinkedCandidates(s, unrestricted, appName, serverAvailable, UserPeers(s, userId, appName))
    ensures forall d :: d in r ==> (d.online && !Empty(appName) ==> d.app == appName)
    ensures forall d :: d in r && Revealing(unrestricted, d) ==>
      ShownThroughLink(s, unrestricted, appName, serverAvailable, UserPeers(s, userId, appName), d)
  {
    AddAll([], LinkedCandidates(s, unrestricted, appName, serverAvailable, UserPeers(s, userId, appName)))
  }
}
