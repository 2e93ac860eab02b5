/** A client of the controller: two users link their peers of one
    application, look each other up, then one of them drops the link. The
    steps on the controller follow from the operations' contracts; the
    lemmas on Alice's linked-peer listing unfold the listing's definitions
    on the one state they are about. */
module Scenario {
  import opened PeerTypes
  import opened Stores
  import opened Dedup
  import opened Disclosure
  import opened Listing
  import opened Controller

  const Alice: UserId := 1
  const Bob: UserId := 2
  const Stranger: UserId := 3
  const BobSummary := UserSummary("bob", "Bob")
  const Users := map[Alice := UserSummary("alice", "Alice"), Bob := BobSummary]
  const Directory := map[0 := OfflinePeer(0, Alice, "chat", false), 1 := OfflinePeer(1, Bob, "chat", false)]
  /** Bob is connected to the peer server with one presence. */
  const BobOnline := OnlinePeer(7, Val(Bob), "chat")
  const Registry := [BobOnline]

  /** The state once both users registered a peer for "chat". */
  ghost predicate Registered(c: PeerController)
    reads c
  {
    c.Valid() && !c.unrestricted && c.registry == Registry &&
    c.peers == Directory && c.nextPeerId == 2 && c.users == Users
  }

  /** The state once Alice asked for a link to Bob's peer. */
  ghost predicate Linked(c: PeerController, confirmed: bool)
    reads c
  {
    Registered(c) && c.links == map[0 := PeerLink(0, 0, 1, confirmed)] && c.nextLinkId == 1
  }

  /** The peer registered as written never reaches the peer directory, so
      its owner has no peer to ask for a link from. */
  method AsWrittenRegisterLosesPeer() {
    var c := new PeerController(false, Registry, Users);
    var reg := c.RegisterPeerAsWritten(Some(Alice), None, "chat");
    assert reg.Ok?;
    var l := c.RequestPeerLink(Some(Alice), 1, "chat");
    assert l == NotFound;
  }

  method RegisterBoth() returns (c: PeerController)
    ensures fresh(c) && Registered(c) && c.links == map[] && c.nextLinkId == 0
  {
    c := new PeerController(false, Registry, Users);

    // Nobody logged in cannot register.
    var denied := c.RegisterPeer(None, Some(true), "chat");
    assert denied == Unauthorized && c.peers == map[];

    var a := c.RegisterPeer(Some(Alice), None, "chat");
    var b := c.RegisterPeer(Some(Bob), None, "chat");
    assert a == Ok(0) && b == Ok(1);
  }

  method Request(c: PeerController)
    requires Registered(c) && c.links == map[] && c.nextLinkId == 0
    modifies c
    ensures Linked(c, false)
  {
    GetByUserAndAppUnique(Directory, 2, Alice, "chat", 0);

    // Alice asks for a link to Bob's peer.
    var l := c.RequestPeerLink(Some(Alice), 1, "chat");
    assert l == Ok(0);
  }

  /** The confirmation and revocation as written look the viewer's peer up
      for the application "", so they fail for peers of a real application. */
  method AsWrittenLinkOperationsFail(c: PeerController)
    requires Linked(c, false)
    modifies c
    ensures Linked(c, false)
  {
    assert GetByUserAndApp(Directory, 2, Bob, "").None?;
    assert GetByUserAndApp(Directory, 2, Alice, "").None?;
    var confirm := c.ConfirmPeerLinkAsWritten(Some(Bob), 0);
    assert confirm == NotFound;
    var revoke := c.RevokePeerLinkAsWritten(Some(Alice), 0);
    assert revoke == NotFound;
  }

  /** Only the requested end of a link may confirm it. */
  method EarlyConfirm(c: PeerController)
    requires Linked(c, false)
    modifies c
    ensures Linked(c, false)
  {
    GetByUserAndAppUnique(Directory, 2, Alice, "chat", 0);

    // Alice may not confirm her own request.
    var early := c.ConfirmPeerLink(Some(Alice), 0, "chat");
    assert early == NotFound;
  }

  method Confirm(c: PeerController)
    requires Linked(c, false)
    modifies c
    ensures Linked(c, true)
  {
    GetByUserAndAppUnique(Directory, 2, Bob, "chat", 1);

    // Bob confirms.
    var ok := c.ConfirmPeerLink(Some(Bob), 0, "chat");
    assert ok.Ok?;
  }

  method LookUpBob(c: PeerController)
    requires Linked(c, true)
  {
    GetByUserAndAppUnique(Directory, 2, Bob, "chat", 1);

    // Without a login nobody sees who owns Bob's peer.
    var anonymous := c.GetPeerByUserAndApp(None, Bob, "chat");
    assert anonymous.Ok? && anonymous.value.userId.None? && anonymous.value.user.None?;
  }

  /** The controller's state once Bob confirmed Alice's request. */
  const ConfirmedLink := PeerLink(0, 0, 1, true)
  const AfterConfirm := Snapshot(Registry, Directory, 2, map[0 := ConfirmedLink], 1, Users)

  lemma AliceAttachedToBob()
    ensures AttachedToOffline(AfterConfirm, Some(Alice), Bob, "chat")
  {
    GetByUserAndAppUnique(Directory, 2, Alice, "chat", 0);
    GetByUserAndAppUnique(Directory, 2, Bob, "chat", 1);
    assert ConfirmedByPeers(AfterConfirm.links, 0, 1) by {
      assert AfterConfirm.links[0].confirmed;
    }
  }

  /** Through the confirmed link Alice sees who owns Bob's peer. */
  method AliceLooksUpBob(c: PeerController)
    requires Linked(c, true)
  {
    GetByUserAndAppUnique(Directory, 2, Bob, "chat", 1);
    AliceAttachedToBob();
    assert c.State() == AfterConfirm;
    var found := c.GetPeerByUserAndApp(Some(Alice), Bob, "chat");
    assert found.Ok? && found.value.userId == Some(Val(Bob)) && found.value.user == Some(BobSummary);
  }

  /** The record Alice's link listing shows of Bob's presence. */
  const BobRecord := PeerData(true, true, "chat", Some(Val(Bob)), Some(7), Some(BobSummary))

  lemma BobSessions()
    ensures Sessions(AfterConfirm, true, Bob) == [Some(BobOnline)]
  {
    assert ListPeersByUser(Registry, Bob) == [BobOnline] by {
      assert ListPeersByUser(Registry[..0], Bob) == [];
    }
  }

  lemma BobLinkRecords()
    ensures LinkRecords(AfterConfirm, false, "chat", true, Directory[0], ConfirmedLink) == [BobRecord]
  {
    var os := [Some(BobOnline)];
    BobSessions();
    assert SessionRecords(AfterConfirm, false, "chat", Directory[1], true, os) == [BobRecord] by {
      assert os[..0] == [];
    }
  }

  lemma AliceCandidates()
    ensures LinkedCandidates(AfterConfirm, false, "chat", true, [Directory[0]]) == [BobRecord]
  {
    assert ListByPeer(AfterConfirm.links, 1, 0) == [ConfirmedLink];
    BobLinkRecords();
    assert LinksRecords(AfterConfirm, false, "chat", true, Directory[0], [ConfirmedLink]) == [BobRecord] by {
      assert [ConfirmedLink][..0] == [];
    }
    assert [Directory[0]][..0] == [];
  }

  /** Alice's linked peers, once Bob confirmed: Bob's presence, with his
      identity. */
  lemma AliceSeesBob()
    ensures LinkedPeers(AfterConfirm, false, "chat", true, Alice) == [BobRecord]
  {
    GetByUserAndAppUnique(Directory, 2, Alice, "chat", 0);
    assert UserPeers(AfterConfirm, Alice, "chat") == [Directory[0]];
    AliceCandidates();
    assert AddAll([], [BobRecord]) == [BobRecord] by {
      assert [BobRecord][..0] == [];
    }
  }

  method AliceListsLinkedPeers(c: PeerController)
    requires Linked(c, true)
  {
    var linked := c.ListLinkedPeers(Some(Alice), "chat", true);
    AliceSeesBob();
    assert c.State() == AfterConfirm;
    assert linked == Ok([BobRecord]);
  }

  method RevokeLink(c: PeerController)
    requires Linked(c, true)
    modifies c
    ensures Registered(c) && c.links == map[]
  {
    GetByUserAndAppUnique(Directory, 2, Bob, "chat", 1);
    assert GetByUserAndApp(Directory, 2, Stranger, "chat").None?;

    // A user without a peer for the application cannot revoke the link; Bob can.
    var stranger := c.RevokePeerLink(Some(Stranger), 0, "chat");
    assert stranger == NotFound;
    var gone := c.RevokePeerLink(Some(Bob), 0, "chat");
    assert gone.Ok?;
  }

  method LinkLifecycle() {
    AsWrittenRegisterLosesPeer();
    var c := RegisterBoth();
    Request(c);
    AsWrittenLinkOperationsFail(c);
    EarlyConfirm(c);
    Confirm(c);
    LookUpBob(c);
    AliceLooksUpBob(c);
    AliceListsLinkedPeers(c);
    RevokeLink(c);
  }
}
