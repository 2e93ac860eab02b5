/** Entities handled by the peer controller: online presences held by the
    peer server, offline (registered) peers, links between offline peers,
    the user summary of the identity store, and the peer record that the
    API returns. */
module PeerTypes {

  type UserId = int

  datatype Option<+T> = None | Some(value: T)

  /** A value the source may hold as `null`. */
  datatype Nullable<+T> = Null | Val(value: T)

  /** Response of an API operation: a value, or the HTTP error it raises
      (401 Unauthorized or 404 Not Found). */
  datatype Response<+T> = Ok(value: T) | Unauthorized | NotFound

  /** A peer currently connected to the peer server. `userId` is null until
      a user attaches the peer to their account. */
  datatype OnlinePeer = OnlinePeer(id: int, userId: Nullable<UserId>, app: string)

  /** A peer registered by a user for one application. */
  datatype OfflinePeer = OfflinePeer(id: int, userId: UserId, app: string, isPublic: bool)

  /** A link requested by `leftPeer` towards `rightPeer` (offline peer ids). */
  datatype PeerLink = PeerLink(id: int, leftPeer: int, rightPeer: int, confirmed: bool)

  /** What the identity store tells about a user. */
  datatype UserSummary = UserSummary(username: string, realname: string)

  /** The record returned for one peer. `registered`, `online` and `app`
      are always there; `userId`, `peerId` and `user` are optional keys
      (`None` is a missing key). The `userId` key may hold null, copied from
      an online peer nobody has attached yet. */
  datatype PeerData = PeerData(
    registered: bool,
    online: bool,
    app: string,
    userId: Option<Nullable<UserId>>,
    peerId: Option<int>,
    user: Option<UserSummary>)

  /** PHP's `empty()` on a string argument (a missing argument is ""). */
  predicate Empty(s: string) {
    s == "" || s == "0"
  }

  /** The link has `peer` as one of its two ends. */
  predicate Involves(l: PeerLink, peer: int) {
    l.leftPeer == peer || l.rightPeer == peer
  }
}
