/** The server's native WebRTC session (archive-server/src/session/native_rtc.rs):
    the session state reported for each peer-connection state, and the
    `attempted_close` flag that makes `close` issue at most one close. */
module Session {

  /** The peer connection's own state, as the WebRTC library reports it. */
  datatype PeerState = Unspecified | New | Connecting | Connected | Disconnected | Failed | Closed

  /** The state the session reports to the game server. */
  datatype SessionState = Connecting | Connected | Disconnected | Closed

  /** `get_state`: a peer that is new or still connecting is connecting; a
      connected peer, and a peer whose connection dropped for now, count as
      connected; an unspecified or failed peer is disconnected; a closed
      peer is closed. */
  function GetState(p: PeerState): (r: SessionState)
    ensures r == SessionState.Connecting <==> p == PeerState.New || p == PeerState.Connecting
    ensures r == SessionState.Connected <==> p == PeerState.Connected || p == PeerState.Disconnected
    ensures r == SessionState.Disconnected <==> p == PeerState.Unspecified || p == PeerState.Failed
    ensures r == SessionState.Closed <==> p == PeerState.Closed
  {
    match p
    case Unspecified => SessionState.Disconnected
    case New => SessionState.Connecting
    case Connecting => SessionState.Connecting
    case Connected => SessionState.Connected
    case Disconnected => SessionState.Connected
    case Failed => SessionState.Disconnected
    case Closed => SessionState.Closed
  }

  /** Every session state is reported for some peer state. */
  lemma GetStateOnto(s: SessionState)
    ensures exists p :: GetState(p) == s
  {
    match s
    case Connecting => assert GetState(PeerState.New) == s;
    case Connected => assert GetState(PeerState.Connected) == s;
    case Disconnected => assert GetState(PeerState.Failed) == s;
    case Closed => assert GetState(PeerState.Closed) == s;
  }

  /** A session: its peer connection's state and whether a close was
      already attempted. */
  datatype NativeSession = NativeSession(peer: PeerState, attemptedClose: bool)

  /** `close`: the first call sets the flag and issues the (asynchronous)
      close of the peer connection; any later call returns at once.  The
      outcome of the asynchronous close is not modelled, so the peer state
      is left as it is.  The second component says whether a close was
      issued. */
  function Close(s: NativeSession): (r: (NativeSession, bool))
    ensures r.0.attemptedClose
    ensures r.0.peer == s.peer
    ensures r.1 <==> !s.attemptedClose
  {
    if s.attemptedClose then (s, false) else (s.(attemptedClose := true), true)
  }

  /** Closing twice is closing once. */
  lemma CloseIdempotent(s: NativeSession)
    ensures Close(Close(s).0) == (Close(s).0, false)
  {
  }

  /** `n` calls of `close` in a row: the session afterwards and how many
      closes were issued. */
  function CloseTimes(s: NativeSession, n: nat): (r: (NativeSession, nat))
    ensures n > 0 ==> r.0.attemptedClose
    ensures s.attemptedClose ==> r.0.attemptedClose
    ensures r.0.peer == s.peer
    ensures r.1 == (if n > 0 && !s.attemptedClose then 1 else 0)
    decreases n
  {
    if n == 0 then (s, 0)
    else
      var (s1, issued) := Close(s);
      var (s2, more) := CloseTimes(s1, n - 1);
      (s2, (if issued then 1 else 0) + more)
  }
}
