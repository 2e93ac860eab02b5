/** The collaborators the controller queries, as pure lookups over values:
    the peer server's list of online peers, the peer directory (offline
    peers by id), the link store (links by id) and the identity store.
    Lists drawn from a table come in ascending id order. */
module Stores {
  import opened PeerTypes

  /** Everything the read operations look at. Every id of the peer
      directory is below `nextPeerId`, every id of the link store below
      `nextLinkId` (the next ids the two tables hand out). */
  datatype Snapshot = Snapshot(
    registry: seq<OnlinePeer>,
    peers: map<int, OfflinePeer>,
    nextPeerId: nat,
    links: map<int, PeerLink>,
    nextLinkId: nat,
    users: map<UserId, UserSummary>)

  // ------------------------------------------------------ peer server

  /** `getPeer`: the first online peer with that id. */
  function GetPeer(registry: seq<OnlinePeer>, id: int): (r: Option<OnlinePeer>)
    ensures r.None? <==> forall i :: 0 <= i < |registry| ==> registry[i].id != id
    ensures r.Some? ==> r.value in registry && r.value.id == id
  {
    if registry == [] then None
    else if registry[0].id == id then Some(registry[0])
    else GetPeer(registry[1..], id)
  }

  /** `listPeersByUser`: the online peers attached to a user, in server order. */
  function ListPeersByUser(registry: seq<OnlinePeer>, userId: UserId): (r: seq<OnlinePeer>)
    ensures forall o :: o in r <==> o in registry && o.userId == Val(userId)
    decreases |registry|
  {
    if registry == [] then []
    else
      var rest := ListPeersByUser(registry[..|registry| - 1], userId);
      var last := registry[|registry| - 1];
      assert registry == registry[..|registry| - 1] + [last];
      if last.userId == Val(userId) then rest + [last] else rest
  }

  /** `updatePeer`: every online peer with the id of `peer` is replaced by it. */
  function UpdatePeer(registry: seq<OnlinePeer>, peer: OnlinePeer): (r: seq<OnlinePeer>)
    ensures |r| == |registry|
    ensures forall i :: 0 <= i < |r| ==>
      r[i] == if registry[i].id == peer.id then peer else registry[i]
  {
    seq(|registry|, i requires 0 <= i < |registry| =>
      if registry[i].id == peer.id then peer else registry[i])
  }

  /** `updatePeer` keeps the id at every position. */
  lemma UpdatePeerKeepsIds(registry: seq<OnlinePeer>, peer: OnlinePeer)
    ensures forall i :: 0 <= i < |registry| ==> UpdatePeer(registry, peer)[i].id == registry[i].id
  {
  }

  /** After `updatePeer`, `getPeer` finds the new version of the peer. */
  lemma {:induction false} UpdatePeerThenGet(registry: seq<OnlinePeer>, peer: OnlinePeer)
    requires exists i :: 0 <= i < |registry| && registry[i].id == peer.id
    ensures GetPeer(UpdatePeer(registry, peer), peer.id) == Some(peer)
    decreases |registry|
  {
    if registry[0].id != peer.id {
      var i :| 0 <= i < |registry| && registry[i].id == peer.id;
      assert registry[1..][i - 1].id == peer.id;
      assert UpdatePeer(registry, peer)[1..] == UpdatePeer(registry[1..], peer);
      UpdatePeerThenGet(registry[1..], peer);
    }
  }

  /** `updatePeer` leaves what `getPeer` finds for every other id alone. */
  lemma {:induction false} UpdatePeerKeepsOthers(registry: seq<OnlinePeer>, peer: OnlinePeer, id: int)
    requires id != peer.id
    ensures GetPeer(UpdatePeer(registry, peer), id) == GetPeer(registry, id)
    decreases |registry|
  {
    if registry != [] {
      assert UpdatePeer(registry, peer)[1..] == UpdatePeer(registry[1..], peer);
      UpdatePeerKeepsOthers(registry[1..], peer, id);
    }
  }

  // --------------------------------------------------- peer directory

  /** The table row `k` holds `v`, for an id below `bound`. */
  ghost predicate Row<V>(rows: map<int, V>, bound: nat, v: V) {
    exists k :: 0 <= k < bound && k in rows && rows[k] == v
  }

  /** `getById` on the peer directory or the link store. */
  function GetById<V>(rows: map<int, V>, id: int): (r: Option<V>)
    ensures r.Some? <==> id in rows
    ensures r.Some? ==> r.value == rows[id]
  {
    if id in rows then Some(rows[id]) else None
  }

  /** `listByUser`: the offline peers a user registered, by ascending id
      (ids below `bound`). */
  function ListByUser(peers: map<int, OfflinePeer>, bound: nat, userId: UserId): (r: seq<OfflinePeer>)
    ensures forall p :: p in r ==> p.userId == userId && Row(peers, bound, p)
    ensures forall k :: 0 <= k < bound && k in peers && peers[k].userId == userId ==> peers[k] in r
  {
    if bound == 0 then []
    else
      var rest := ListByUser(peers, bound - 1, userId);
      var k := bound - 1;
      if k in peers && peers[k].userId == userId then rest + [peers[k]] else rest
  }

  /** The first peer of `ps` registered for application `app`. */
  function FirstForApp(ps: seq<OfflinePeer>, app: string): (r: Option<OfflinePeer>)
    ensures r.None? <==> forall p :: p in ps ==> p.app != app
    ensures r.Some? ==> r.value in ps && r.value.app == app
    ensures r.Some? ==> exists i :: 0 <= i < |ps| && ps[i] == r.value && forall j :: 0 <= j < i ==> ps[j].app != app
  {
    if ps == [] then None
    else if ps[0].app == app then Some(ps[0])
    else FirstForApp(ps[1..], app)
  }

  /** `getByUserAndApp`: the offline peer a user registered for an
      application (the one with the smallest id, should there be several). */
  function GetByUserAndApp(peers: map<int, OfflinePeer>, bound: nat, userId: UserId, app: string): (r: Option<OfflinePeer>)
    ensures r.None? <==> forall k :: 0 <= k < bound && k in peers ==> !(peers[k].userId == userId && peers[k].app == app)
    ensures r.Some? ==> Row(peers, bound, r.value) && r.value.userId == userId && r.value.app == app
  {
    FirstForApp(ListByUser(peers, bound, userId), app)
  }

  /** When exactly one peer of the directory belongs to `userId` and
      `app`, `getByUserAndApp` finds that one. */
  lemma GetByUserAndAppUnique(peers: map<int, OfflinePeer>, bound: nat, userId: UserId, app: string, k: int)
    requires 0 <= k < bound && k in peers && peers[k].userId == userId && peers[k].app == app
    requires forall j :: 0 <= j < bound && j in peers && peers[j].userId == userId && peers[j].app == app ==> j == k
    ensures GetByUserAndApp(peers, bound, userId, app) == Some(peers[k])
  {
    var r := GetByUserAndApp(peers, bound, userId, app);
    var j :| 0 <= j < bound && j in peers && peers[j] == r.value;
  }

  /** Filing a row at `bound` does not change the rows below it. */
  lemma {:induction false} ListByUserBelow(peers: map<int, OfflinePeer>, bound: nat, p: OfflinePeer,
                                           userId: UserId, n: nat)
    requires n <= bound
    ensures ListByUser(peers[bound := p], n, userId) == ListByUser(peers, n, userId)
    decreases n
  {
    if n > 0 {
      ListByUserBelow(peers, bound, p, userId, n - 1);
    }
  }

  lemma {:induction false} FirstForAppAppend(ps: seq<OfflinePeer>, q: OfflinePeer, app: string)
    requires FirstForApp(ps, app).Some?
    ensures FirstForApp(ps + [q], app) == FirstForApp(ps, app)
    decreases |ps|
  {
    assert (ps + [q])[0] == ps[0];
    if ps[0].app != app {
      assert (ps + [q])[1..] == ps[1..] + [q];
      FirstForAppAppend(ps[1..], q, app);
    }
  }

  lemma {:induction false} FirstForAppAppendNone(ps: seq<OfflinePeer>, q: OfflinePeer, app: string)
    requires FirstForApp(ps, app).None?
    ensures FirstForApp(ps + [q], app) == if q.app == app then Some(q) else None
    decreases |ps|
  {
    if ps == [] {
      assert ps + [q] == [q];
    } else {
      assert (ps + [q])[0] == ps[0];
      assert (ps + [q])[1..] == ps[1..] + [q];
      FirstForAppAppendNone(ps[1..], q, app);
    }
  }

  /** No peer of `userId` for `app` is filed under an id below `k`. */
  ghost predicate NoneBelow(peers: map<int, OfflinePeer>, k: int, userId: UserId, app: string) {
    forall j :: 0 <= j < k && j in peers ==> !(peers[j].userId == userId && peers[j].app == app)
  }

  /** One more row of the directory: `getByUserAndApp` keeps an earlier
      find, else finds that row when it matches. */
  lemma GetByUserAndAppStep(peers: map<int, OfflinePeer>, n: nat, userId: UserId, app: string)
    ensures GetByUserAndApp(peers, n + 1, userId, app) ==
      if GetByUserAndApp(peers, n, userId, app).Some? then GetByUserAndApp(peers, n, userId, app)
      else if n in peers && peers[n].userId == userId && peers[n].app == app then Some(peers[n])
      else None
  {
    var xs := ListByUser(peers, n, userId);
    if n in peers && peers[n].userId == userId {
      if FirstForApp(xs, app).Some? {
        FirstForAppAppend(xs, peers[n], app);
      } else {
        FirstForAppAppendNone(xs, peers[n], app);
      }
    }
  }

  /** `getByUserAndApp` finds the peer of the user for the application
      filed under the smallest id. */
  lemma {:induction false} GetByUserAndAppLowest(peers: map<int, OfflinePeer>, bound: nat, userId: UserId,
                                                 app: string, k: int)
    requires 0 <= k < bound && k in peers && peers[k].userId == userId && peers[k].app == app
    requires NoneBelow(peers, k, userId, app)
    ensures GetByUserAndApp(peers, bound, userId, app) == Some(peers[k])
    decreases bound
  {
    var n: nat := bound - 1;
    GetByUserAndAppStep(peers, n, userId, app);
    if n > k {
      GetByUserAndAppLowest(peers, n, userId, app, k);
    } else {
      assert GetByUserAndApp(peers, n, userId, app).None?;
    }
  }

  /** Registering another peer does not change which peer
      `getByUserAndApp` finds for a user who already had one. */
  lemma RegisterKeepsFirst(peers: map<int, OfflinePeer>, bound: nat, p: OfflinePeer, userId: UserId, app: string)
    requires GetByUserAndApp(peers, bound, userId, app).Some?
    ensures GetByUserAndApp(peers[bound := p], bound + 1, userId, app) == GetByUserAndApp(peers, bound, userId, app)
  {
    ListByUserBelow(peers, bound, p, userId, bound);
    if p.userId == userId {
      FirstForAppAppend(ListByUser(peers, bound, userId), p, app);
    }
  }

  /** A user's first peer for an application is the one
      `getByUserAndApp` finds from then on. */
  lemma RegisterThenFind(peers: map<int, OfflinePeer>, bound: nat, p: OfflinePeer)
    requires GetByUserAndApp(peers, bound, p.userId, p.app).None?
    ensures GetByUserAndApp(peers[bound := p], bound + 1, p.userId, p.app) == Some(p)
  {
    GetByUserAndAppUnique(peers[bound := p], bound + 1, p.userId, p.app, bound);
  }

  /** After registering `p`, `getByUserAndApp` finds the user's earlier
      peer for the application if there is one, else `p`. */
  lemma RegisterFinds(peers: map<int, OfflinePeer>, bound: nat, p: OfflinePeer)
    ensures GetByUserAndApp(peers[bound := p], bound + 1, p.userId, p.app) ==
      if GetByUserAndApp(peers, bound, p.userId, p.app).Some?
      then GetByUserAndApp(peers, bound, p.userId, p.app)
      else Some(p)
  {
    if GetByUserAndApp(peers, bound, p.userId, p.app).Some? {
      RegisterKeepsFirst(peers, bound, p, p.userId, p.app);
    } else {
      RegisterThenFind(peers, bound, p);
    }
  }

  // -------------------------------------------------------- link store

  /** `listByPeer`: the links that have `peer` at either end, by ascending
      id (ids below `bound`). */
  function ListByPeer(links: map<int, PeerLink>, bound: nat, peer: int): (r: seq<PeerLink>)
    ensures forall l :: l in r ==> Involves(l, peer) && Row(links, bound, l)
    ensures forall k :: 0 <= k < bound && k in links && Involves(links[k], peer) ==> links[k] in r
  {
    if bound == 0 then []
    else
      var rest := ListByPeer(links, bound - 1, peer);
      var k := bound - 1;
      if k in links && Involves(links[k], peer) then rest + [links[k]] else rest
  }

  /** `confirmedByPeers`: a confirmed link joins the two peers, whichever of
      them requested it. */
  predicate ConfirmedByPeers(links: map<int, PeerLink>, a: int, b: int) {
    exists k :: k in links && links[k].confirmed &&
      ((links[k].leftPeer == a && links[k].rightPeer == b) ||
       (links[k].leftPeer == b && links[k].rightPeer == a))
  }

  /** A new, unconfirmed link joins nobody. */
  lemma RequestJoinsNobody(links: map<int, PeerLink>, l: PeerLink, a: int, b: int)
    requires l.id !in links && !l.confirmed
    ensures ConfirmedByPeers(links[l.id := l], a, b) <==> ConfirmedByPeers(links, a, b)
  {
    if ConfirmedByPeers(links[l.id := l], a, b) {
      var k :| k in links[l.id := l] && links[l.id := l][k].confirmed &&
        ((links[l.id := l][k].leftPeer == a && links[l.id := l][k].rightPeer == b) ||
         (links[l.id := l][k].leftPeer == b && links[l.id := l][k].rightPeer == a));
      assert k in links && links[k] == links[l.id := l][k];
    }
    if ConfirmedByPeers(links, a, b) {
      var k :| k in links && links[k].confirmed &&
        ((links[k].leftPeer == a && links[k].rightPeer == b) || (links[k].leftPeer == b && links[k].rightPeer == a));
      assert links[l.id := l][k] == links[k];
    }
  }

  /** Confirming a link joins its two ends. */
  lemma ConfirmJoinsEnds(links: map<int, PeerLink>, id: int)
    requires id in links
    ensures ConfirmedByPeers(links[id := links[id].(confirmed := true)], links[id].leftPeer, links[id].rightPeer)
  {
    var after := links[id := links[id].(confirmed := true)];
    assert after[id].confirmed && after[id].leftPeer == links[id].leftPeer && after[id].rightPeer == links[id].rightPeer;
  }

  /** Confirming a link joins no pair that its ends do not make up. */
  lemma ConfirmJoinsOnlyEnds(links: map<int, PeerLink>, id: int, a: int, b: int)
    requires id in links
    requires ConfirmedByPeers(links[id := links[id].(confirmed := true)], a, b)
    ensures ConfirmedByPeers(links, a, b) ||
      (links[id].leftPeer == a && links[id].rightPeer == b) || (links[id].leftPeer == b && links[id].rightPeer == a)
  {
    var after := links[id := links[id].(confirmed := true)];
    var k :| k in after && after[k].confirmed &&
      ((after[k].leftPeer == a && after[k].rightPeer == b) || (after[k].leftPeer == b && after[k].rightPeer == a));
    if k != id {
      assert links[k] == after[k];
    }
  }

  /** Deleting a link never joins two peers. */
  lemma RevokeJoinsNobody(links: map<int, PeerLink>, id: int, a: int, b: int)
    requires ConfirmedByPeers(links - {id}, a, b)
    ensures ConfirmedByPeers(links, a, b)
  {
    var rest := links - {id};
    var k :| k in rest && rest[k].confirmed &&
      ((rest[k].leftPeer == a && rest[k].rightPeer == b) || (rest[k].leftPeer == b && rest[k].rightPeer == a));
    assert links[k] == rest[k];
  }
}
