/** The peer controller: the read operations of the API, computed by loops
    over the stores, and the operations that change the stores. */
module Controller {
  import opened PeerTypes
  import opened Stores
  import opened Disclosure
  import opened Listing
  import opened Dedup

  /** The online peer `executeAttachPeer` stores: bound to the logged-in
      viewer, and to the application when one is given. */
  function Attached(o: OnlinePeer, viewer: Option<UserId>, appName: string): (r: OnlinePeer)
    ensures r.id == o.id
    ensures r.userId == if viewer.Some? then Val(viewer.value) else o.userId
    ensures r.app == if Empty(appName) then o.app else appName
  {
    var bound := if viewer.Some? then o.(userId := Val(viewer.value)) else o;
    if Empty(appName) then bound else bound.(app := appName)
  }

  class PeerController {
    /** Unrestricted mode: every online peer's ids are shown to everybody.
        Meant for tests only. */
    const unrestricted: bool

    /** The online peers known to the peer server, in its order. */
    var registry: seq<OnlinePeer>
    /** The peer directory, by id; `nextPeerId` is the next id it hands out. */
    var peers: map<int, OfflinePeer>
    var nextPeerId: nat
    /** The link store, by id; `nextLinkId` is the next id it hands out. */
    var links: map<int, PeerLink>
    var nextLinkId: nat
    /** The identity store. */
    var users: map<UserId, UserSummary>

    /** Every row sits under its own id, below the next id of its table, and
        no two online peers share an id. */
    ghost predicate Valid()
      reads this
    {
      (forall k :: k in peers ==> 0 <= k < nextPeerId && peers[k].id == k) &&
      (forall k :: k in links ==> 0 <= k < nextLinkId && links[k].id == k) &&
      (forall i, j :: 0 <= i < j < |registry| ==> registry[i].id != registry[j].id)
    }

    function State(): Snapshot
      reads this
    {
      Snapshot(registry, peers, nextPeerId, links, nextLinkId, users)
    }

    constructor (unrestricted: bool, registry: seq<OnlinePeer>, users: map<UserId, UserSummary>)
      requires forall i, j :: 0 <= i < j < |registry| ==> registry[i].id != registry[j].id
      ensures Valid()
      ensures this.unrestricted == unrestricted && this.registry == registry && this.users == users
      ensures peers == map[] && nextPeerId == 0 && links == map[] && nextLinkId == 0
    {
      this.unrestricted := unrestricted;
      this.registry := registry;
      this.users := users;
      peers, nextPeerId := map[], 0;
      links, nextLinkId := map[], 0;
    }

    // ------------------------------------------------------------ reads

    /** `executeListPeers`: one entry per online peer, in order. */
    method ListPeers(viewer: Option<UserId>, appName: string) returns (list: seq<PeerData>)
      ensures |list| == |registry|
      ensures forall i :: 0 <= i < |list| ==>
        list[i] == ListedPeer(State(), unrestricted, viewer, appName, registry[i])
    {
      var s := State();
      var current := ViewerPeer(s, viewer, appName);
      list := [];
      for i := 0 to |registry|
        invariant |list| == i
        invariant forall j :: 0 <= j < i ==> list[j] == ListedPeer(s, unrestricted, viewer, appName, registry[j])
      {
        var o := registry[i];
        var offline: Option<OfflinePeer> := None;
        var attached := false;
        if o.userId.Val? && viewer == Some(o.userId.value) {
          attached := true;
        } else if o.userId.Val? && !Empty(appName) {
          offline := GetByUserAndApp(peers, nextPeerId, o.userId.value, appName);
          if current.Some? && offline.Some? {
            attached := ConfirmedByPeers(links, current.value.id, offline.value.id);
          }
        }
        assert offline == ListedOffline(s, viewer, appName, o) && attached == ListedAttached(s, viewer, appName, o);
        var data := GetPeerData(Some(o), offline, attached, unrestricted, users);
        list := list + [data.value];
      }
    }

    /** `executeGetPeer`: the online peer with that id, shown as attached. */
    method GetPeer(peerId: int) returns (r: Response<PeerData>)
      ensures r.NotFound? <==> forall i :: 0 <= i < |registry| ==> registry[i].id != peerId
      ensures !r.Unauthorized?
      ensures r.Ok? ==>
        var o := Stores.GetPeer(registry, peerId).value;
        o in registry && o.id == peerId &&
        r.value == GetPeerData(Some(o), None, true, unrestricted, users).value &&
        r.value.online && r.value.peerId == Some(peerId) && r.value.userId == Some(o.userId)
    {
      var online := Stores.GetPeer(registry, peerId);
      var data := GetPeerData(online, None, true, unrestricted, users);
      if data.None? {
        return NotFound;
      }
      r := Ok(data.value);
    }

    /** `executeGetPeerByUserAndApp`: the offline peer of a user for an
        application. */
    method GetPeerByUserAndApp(viewer: Option<UserId>, userId: UserId, appName: string)
      returns (r: Response<PeerData>)
      ensures r.NotFound? <==> GetByUserAndApp(peers, nextPeerId, userId, appName).None?
      ensures !r.Unauthorized?
      ensures r.Ok? ==>
        var offline := GetByUserAndApp(peers, nextPeerId, userId, appName);
        var attached := AttachedToOffline(State(), viewer, userId, appName);
        r.value == GetPeerData(None, offline, attached, unrestricted, users).value &&
        r.value.registered && !r.value.online && r.value.app == appName &&
        (r.value.userId.Some? <==> attached || offline.value.isPublic)
    {
      var offline := GetByUserAndApp(peers, nextPeerId, userId, appName);
      var attached := false;
      if viewer.Some? {
        if offline.Some? && viewer.value == offline.value.userId {
          attached := true;
        } else {
          var current := GetByUserAndApp(peers, nextPeerId, viewer.value, appName);
          if current.Some? && offline.Some? {
            attached := ConfirmedByPeers(links, current.value.id, offline.value.id);
          }
        }
      }
      var data := GetPeerData(None, offline, attached, unrestricted, users);
      if data.None? {
        return NotFound;
      }
      r := Ok(data.value);
    }

    /** `executeListPeersLinks`: the links of the viewer's offline peers. */
    method ListPeersLinks(viewer: Option<UserId>, appName: string) returns (r: Response<seq<PeerLink>>)
      ensures r.Unauthorized? <==> viewer.None?
      ensures !r.NotFound?
      ensures r.Ok? ==> r.value == LinksOfPeers(State(), UserPeers(State(), viewer.value, appName))
      ensures r.Ok? ==> forall l :: l in r.value ==>
        exists p :: p in UserPeers(State(), viewer.value, appName) && p.userId == viewer.value && Involves(l, p.id)
    {
      if viewer.None? {
        return Unauthorized;
      }
      var s := State();
      var userPeers := UserPeers(s, viewer.value, appName);
      var list: seq<PeerLink> := [];
      for i := 0 to |userPeers|
        invariant list == LinksOfPeers(s, userPeers[..i])
      {
        var peerLinks := ListByPeer(links, nextLinkId, userPeers[i].id);
        for j := 0 to |peerLinks|
          invariant list == LinksOfPeers(s, userPeers[..i]) + peerLinks[..j]
        {
          list := list + [peerLinks[j]];
        }
        assert userPeers[..i + 1][..i] == userPeers[..i];
        assert peerLinks[..|peerLinks|] == peerLinks;
      }
      assert userPeers[..|userPeers|] == userPeers;
      r := Ok(list);
      forall l | l in list
        ensures exists p :: p in userPeers && p.userId == viewer.value && Involves(l, p.id)
      {
        var i :| 0 <= i < |userPeers| && Involves(l, userPeers[i].id);
        assert userPeers[i] in userPeers;
      }
    }

    /** `executeListLinkedPeers`: one record per presence of each linked
        peer, each record at most once. */
    method ListLinkedPeers(viewer: Option<UserId>, appName: string, serverAvailable: bool)
      returns (r: Response<seq<PeerData>>)
      ensures r.Unauthorized? <==> viewer.None?
      ensures !r.NotFound?
      ensures r.Ok? ==> r.value == LinkedPeers(State(), unrestricted, appName, serverAvailable, viewer.value)
    {
      if viewer.None? {
        return Unauthorized;
      }
      var s := State();
      var userPeers := UserPeers(s, viewer.value, appName);
      var list: seq<PeerData> := [];
      for i := 0 to |userPeers|
        invariant list == AddAll([], LinkedCandidates(s, unrestricted, appName, serverAvailable, userPeers[..i]))
      {
        var own := userPeers[i];
        ghost var before := list;
        list := AddPeerRecords(s, list, appName, serverAvailable, own);
        LinkedCandidatesStep(s, unrestricted, appName, serverAvailable, userPeers, i);
        AddAllConcat([], LinkedCandidates(s, unrestricted, appName, serverAvailable, userPeers[..i]),
                     LinksRecords(s, unrestricted, appName, serverAvailable, own,
                                  ListByPeer(s.links, s.nextLinkId, own.id)));
      }
      assert userPeers[..|userPeers|] == userPeers;
      r := Ok(list);
    }

    /** The body of the loop over the viewer's peers in
        `executeListLinkedPeers`: adds the records of the links of `own`
        that `list` lacks. */
    method AddPeerRecords(s: Snapshot, list: seq<PeerData>, appName: string, serverAvailable: bool,
                          own: OfflinePeer) returns (list': seq<PeerData>)
      ensures list' == AddAll(list, LinksRecords(s, unrestricted, appName, serverAvailable, own,
                                                 ListByPeer(s.links, s.nextLinkId, own.id)))
    {
      var peerLinks := ListByPeer(s.links, s.nextLinkId, own.id);
      list' := list;
      for j := 0 to |peerLinks|
        invariant list' == AddAll(list, LinksRecords(s, unrestricted, appName, serverAvailable, own, peerLinks[..j]))
      {
        var link := peerLinks[j];
        list' := AddLinkRecords(s, list', appName, serverAvailable, own, link);
        LinksRecordsStep(s, unrestricted, appName, serverAvailable, own, peerLinks, j);
        AddAllConcat(list, LinksRecords(s, unrestricted, appName, serverAvailable, own, peerLinks[..j]),
                     LinkRecords(s, unrestricted, appName, serverAvailable, own, link));
      }
      assert peerLinks[..|peerLinks|] == peerLinks;
    }

    /** The body of the loop over the links in `executeListLinkedPeers`:
        adds the records of one link of `own` that `list` lacks. */
    method AddLinkRecords(s: Snapshot, list: seq<PeerData>, appName: string, serverAvailable: bool,
                          own: OfflinePeer, link: PeerLink) returns (list': seq<PeerData>)
      ensures list' == AddAll(list, LinkRecords(s, unrestricted, appName, serverAvailable, own, link))
    {
      var counterpart := GetById(s.peers, Counterpart(link, own.id));
      if counterpart.None? {
        return list;
      }
      var cp := counterpart.value;
      var sessions := Sessions(s, serverAvailable, cp.userId);
      list' := AddSessionRecords(s, list, appName, cp, link.confirmed, sessions);
    }

    /** The loop over the presences of a linked peer `cp`: adds the record
        of each presence kept that `list` lacks. */
    method AddSessionRecords(s: Snapshot, list: seq<PeerData>, appName: string, cp: OfflinePeer,
                             confirmed: bool, sessions: seq<Option<OnlinePeer>>) returns (list': seq<PeerData>)
      ensures list' == AddAll(list, SessionRecords(s, unrestricted, appName, cp, confirmed, sessions))
    {
      list' := list;
      for k := 0 to |sessions|
        invariant list' == AddAll(list, SessionRecords(s, unrestricted, appName, cp, confirmed, sessions[..k]))
      {
        var o := sessions[k];
        SessionRecordsStep(s, unrestricted, appName, cp, confirmed, sessions, k);
        if !SkippedSession(appName, o) {
          var data := GetPeerData(o, Some(cp), confirmed, unrestricted, s.users).value;
          list' := AddNew(list, SessionRecords(s, unrestricted, appName, cp, confirmed, sessions[..k]), list', data);
        }
      }
      assert sessions[..|sessions|] == sessions;
    }

    // ----------------------------------------------------------- writes

    /** `executeAttachPeer`: binds an online peer to the logged-in viewer
        and, when one is given, to an application. */
    method AttachPeer(viewer: Option<UserId>, peerId: int, appName: string) returns (r: Response<()>)
      requires Valid()
      modifies this
      ensures Valid()
      ensures r.NotFound? <==> forall i :: 0 <= i < |old(registry)| ==> old(registry)[i].id != peerId
      ensures !r.Unauthorized?
      ensures r.NotFound? ==> registry == old(registry)
      ensures r.Ok? ==>
        var attached := Attached(Stores.GetPeer(old(registry), peerId).value, viewer, appName);
        |registry| == |old(registry)| &&
        (forall i :: 0 <= i < |registry| ==>
          registry[i] == if old(registry)[i].id == peerId then attached else old(registry)[i]) &&
        // what `getPeer` answers afterwards
        Stores.GetPeer(registry, peerId) == Some(attached)
      ensures forall id :: id != peerId ==> Stores.GetPeer(registry, id) == Stores.GetPeer(old(registry), id)
      ensures peers == old(peers) && nextPeerId == old(nextPeerId)
      ensures links == old(links) && nextLinkId == old(nextLinkId) && users == old(users)
    {
      var online := Stores.GetPeer(registry, peerId);
      if online.None? {
        return NotFound;
      }
      var o := Attached(online.value, viewer, appName);
      ghost var before := registry;
      UpdatePeerKeepsIds(before, o);
      registry := UpdatePeer(registry, o);
      UpdatePeerThenGet(before, o);
      forall id | id != peerId
        ensures Stores.GetPeer(registry, id) == Stores.GetPeer(before, id)
      {
        UpdatePeerKeepsOthers(before, o, id);
      }
      r := Ok(());
    }

    /** `executeRegisterPeer`: files a new offline peer owned by the viewer. */
    method RegisterPeer(viewer: Option<UserId>, isPublic: Option<bool>, app: string) returns (r: Response<int>)
      requires Valid()
      modifies this
      ensures Valid()
      ensures r.Unauthorized? <==> viewer.None?
      ensures !r.NotFound?
      ensures viewer.None? ==> peers == old(peers) && nextPeerId == old(nextPeerId)
      ensures viewer.Some? ==>
        r == Ok(old(nextPeerId)) && old(nextPeerId) !in old(peers) &&
        peers == old(peers)[old(nextPeerId) := OfflinePeer(old(nextPeerId), viewer.value, app, isPublic == Some(true))] &&
        nextPeerId == old(nextPeerId) + 1
      ensures registry == old(registry) && links == old(links) && nextLinkId == old(nextLinkId)
      ensures users == old(users)
    {
      if viewer.None? {
        return Unauthorized;
      }
      var id := nextPeerId;
      var peer := OfflinePeer(id, viewer.value, app, isPublic == Some(true));
      peers := peers[id := peer];
      nextPeerId := nextPeerId + 1;
      r := Ok(id);
    }

    /** `executeRequestPeerLink`: the viewer's peer for the application asks
        for a link to the peer `peerId`. */
    method RequestPeerLink(viewer: Option<UserId>, peerId: int, appName: string) returns (r: Response<int>)
      requires Valid()
      modifies this
      ensures Valid()
      ensures r.Unauthorized? <==> viewer.None?
      ensures r.NotFound? <==> viewer.Some? && GetByUserAndApp(old(peers), old(nextPeerId), viewer.value, appName).None?
      ensures !r.Ok? ==> links == old(links) && nextLinkId == old(nextLinkId)
      ensures r.Ok? ==>
        var own := GetByUserAndApp(old(peers), old(nextPeerId), viewer.value, appName).value;
        r.value == old(nextLinkId) && old(nextLinkId) !in old(links) &&
        links == old(links)[r.value := PeerLink(r.value, own.id, peerId, false)] &&
        nextLinkId == old(nextLinkId) + 1
      // a request attaches nobody until it is confirmed
      ensures forall a, b :: ConfirmedByPeers(links, a, b) <==> ConfirmedByPeers(old(links), a, b)
      ensures registry == old(registry) && peers == old(peers) && nextPeerId == old(nextPeerId)
      ensures users == old(users)
    {
      if viewer.None? {
        return Unauthorized;
      }
      var own := GetByUserAndApp(peers, nextPeerId, viewer.value, appName);
      if own.None? {
        return NotFound;
      }
      var id := nextLinkId;
      var link := PeerLink(id, own.value.id, peerId, false);
      forall a, b
        ensures ConfirmedByPeers(links[id := link], a, b) <==> ConfirmedByPeers(links, a, b)
      {
        RequestJoinsNobody(links, link, a, b);
      }
      links := links[id := link];
      nextLinkId := nextLinkId + 1;
      r := Ok(id);
    }

    /** `executeConfirmPeerLink`: only the peer a link was requested from
        may confirm it. */
    method ConfirmPeerLink(viewer: Option<UserId>, linkId: int, appName: string) returns (r: Response<()>)
      requires Valid()
      modifies this
      ensures Valid()
      ensures r.Unauthorized? <==> viewer.None?
      ensures r.Ok? <==>
        viewer.Some? && GetByUserAndApp(old(peers), old(nextPeerId), viewer.value, appName).Some? &&
        linkId in old(links) &&
        old(links)[linkId].rightPeer == GetByUserAndApp(old(peers), old(nextPeerId), viewer.value, appName).value.id
      ensures !r.Ok? ==> links == old(links)
      ensures r.Ok? ==> links == old(links)[linkId := old(links)[linkId].(confirmed := true)]
      // a confirmation attaches the two ends of the link to each other, and no one else
      ensures r.Ok? ==> ConfirmedByPeers(links, old(links)[linkId].leftPeer, old(links)[linkId].rightPeer)
      ensures r.Ok? ==> forall a, b :: ConfirmedByPeers(links, a, b) ==>
        ConfirmedByPeers(old(links), a, b) ||
        (old(links)[linkId].leftPeer == a && old(links)[linkId].rightPeer == b) ||
        (old(links)[linkId].leftPeer == b && old(links)[linkId].rightPeer == a)
      ensures registry == old(registry) && peers == old(peers) && nextPeerId == old(nextPeerId)
      ensures nextLinkId == old(nextLinkId) && users == old(users)
    {
      if viewer.None? {
        return Unauthorized;
      }
      var own := GetByUserAndApp(peers, nextPeerId, viewer.value, appName);
      if own.None? {
        return NotFound;
      }
      var link := GetById(links, linkId);
      if link.None? || link.value.rightPeer != own.value.id {
        return NotFound;
      }
      ConfirmJoinsEnds(links, linkId);
      forall a, b | ConfirmedByPeers(links[linkId := link.value.(confirmed := true)], a, b)
        ensures ConfirmedByPeers(links, a, b) ||
          (links[linkId].leftPeer == a && links[linkId].rightPeer == b) ||
          (links[linkId].leftPeer == b && links[linkId].rightPeer == a)
      {
        ConfirmJoinsOnlyEnds(links, linkId, a, b);
      }
      links := links[linkId := link.value.(confirmed := true)];
      r := Ok(());
    }

    /** `executeRevokePeerLink`: either end of a link may delete it. */
    method RevokePeerLink(viewer: Option<UserId>, linkId: int, appName: string) returns (r: Response<()>)
      requires Valid()
      modifies this
      ensures Valid()
      ensures r.Unauthorized? <==> viewer.None?
      ensures r.Ok? <==>
        viewer.Some? && GetByUserAndApp(old(peers), old(nextPeerId), viewer.value, appName).Some? &&
        linkId in old(links) &&
        Involves(old(links)[linkId], GetByUserAndApp(old(peers), old(nextPeerId), viewer.value, appName).value.id)
      ensures !r.Ok? ==> links == old(links)
      ensures r.Ok? ==> links == old(links) - {linkId}
      // a revocation never attaches two peers
      ensures forall a, b :: ConfirmedByPeers(links, a, b) ==> ConfirmedByPeers(old(links), a, b)
      ensures registry == old(registry) && peers == old(peers) && nextPeerId == old(nextPeerId)
      ensures nextLinkId == old(nextLinkId) && users == old(users)
    {
      if viewer.None? {
        return Unauthorized;
      }
      var own := GetByUserAndApp(peers, nextPeerId, viewer.value, appName);
      if own.None? {
        return NotFound;
      }
      var link := GetById(links, linkId);
      if link.None? || (link.value.leftPeer != own.value.id && link.value.rightPeer != own.value.id) {
        return NotFound;
      }
      forall a, b | ConfirmedByPeers(links - {link.value.id}, a, b)
        ensures ConfirmedByPeers(links, a, b)
      {
        RevokeJoinsNobody(links, link.value.id, a, b);
      }
      links := links - {link.value.id};
      r := Ok(());
    }

    // ------------------------------------------------ as written

    /** `executeRegisterPeer` as written: it hands the new peer to the link
        manager's `insert` rather than to the peer directory, so the peer
        directory never receives it. */
    method RegisterPeerAsWritten(viewer: Option<UserId>, isPublic: Option<bool>, app: string) returns (r: Response<()>)
      ensures r.Unauthorized? <==> viewer.None?
      ensures !r.NotFound?
    {
      if viewer.None? {
        return Unauthorized;
      }
      r := Ok(());
    }

    /** `executeConfirmPeerLink` as written: it reads `$appName`, which it
        never defines, so the viewer's peer is looked up for the
        application "" (null cast to a string). */
    method ConfirmPeerLinkAsWritten(viewer: Option<UserId>, linkId: int) returns (r: Response<()>)
      requires Valid()
      modifies this
      ensures Valid()
      ensures r.Unauthorized? <==> viewer.None?
      ensures r.Ok? <==>
        viewer.Some? && GetByUserAndApp(old(peers), old(nextPeerId), viewer.value, "").Some? &&
        linkId in old(links) &&
        old(links)[linkId].rightPeer == GetByUserAndApp(old(peers), old(nextPeerId), viewer.value, "").value.id
      ensures !r.Ok? ==> links == old(links)
      ensures r.Ok? ==> links == old(links)[linkId := old(links)[linkId].(confirmed := true)]
      ensures registry == old(registry) && peers == old(peers) && nextPeerId == old(nextPeerId)
      ensures nextLinkId == old(nextLinkId) && users == old(users)
    {
      r := ConfirmPeerLink(viewer, linkId, "");
    }

    /** `executeRevokePeerLink` as written, with the same undefined `$appName`. */
    method RevokePeerLinkAsWritten(viewer: Option<UserId>, linkId: int) returns (r: Response<()>)
      requires Valid()
      modifies this
      ensures Valid()
      ensures r.Unauthorized? <==> viewer.None?
      ensures r.Ok? <==>
        viewer.Some? && GetByUserAndApp(old(peers), old(nextPeerId), viewer.value, "").Some? &&
        linkId in old(links) &&
        Involves(old(links)[linkId], GetByUserAndApp(old(peers), old(nextPeerId), viewer.value, "").value.id)
      ensures !r.Ok? ==> links == old(links)
      ensures r.Ok? ==> links == old(links) - {linkId}
      ensures registry == old(registry) && peers == old(peers) && nextPeerId == old(nextPeerId)
      ensures nextLinkId == old(nextLinkId) && users == old(users)
    {
      r := RevokePeerLink(viewer, linkId, "");
    }
  }
}
