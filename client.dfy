/** `GrpcClient`: the base URL, the normalised token and the lazily
    opened HTTP/2 session, with `connect`, `close` and the start of `call`. */
module Client {
  import opened Wrappers
  import opened Framing
  import opened Requests
  import opened Settlement

  /** An HTTP/2 session as `http2.connect` returns it. The session is a
      library object; all this model keeps of it is the URL it was opened
      to and whether it was closed. */
  class Session {
    const url: string
    var closed: bool

    constructor (url: string)
      ensures this.url == url && !closed
    {
      this.url := url;
      closed := false;
    }

    method Close()
      modifies this
      ensures closed
    {
      closed := true;
    }

    /** The session ends without the client asking: a connection error
        (swallowed by the no-op `error` listener) or the server's GOAWAY. */
    method Fail()
      modifies this
      ensures closed
    {
      closed := true;
    }
  }

  class GrpcClient {
    const baseUrl: string
    const token: string
    var client: Session?
    /** Every session this client has opened. */
    ghost var sessions: set<Session>

    /** At most one open session: the held one, which may itself have
        been closed by the peer. Every other session the client opened has
        been closed. */
    ghost predicate Valid()
      reads this, sessions
    {
      && (client != null ==> client in sessions)
      && (forall s :: s in sessions && s != client ==> s.closed)
    }

    /** The sessions, among those the client opened, that are still open. */
    ghost function LiveSessions(): set<Session>
      reads this, sessions
    {
      set s | s in sessions && !s.closed
    }

    lemma AtMostOneLiveSession()
      requires Valid()
      ensures LiveSessions() <= if client == null then {} else {client}
      ensures client != null && !client.closed ==> LiveSessions() == {client}
    {
    }

    /** The held session is lost underneath the client; the field still
        holds it, so the next `connect` returns the dead session. */
    method SessionLost()
      requires Valid() && client != null
      modifies client
      ensures Valid() && client == old(client) && client.closed
    {
      client.Fail();
    }

    constructor (baseUrl: string, token: string)
      ensures Valid()
      ensures this.baseUrl == baseUrl && this.token == NormalizeToken(token)
      ensures client == null && sessions == {}
    {
      this.baseUrl := baseUrl;
      this.token := NormalizeToken(token);
      client := null;
      sessions := {};
    }

    /** `connect()`: the held session when there is one, otherwise a new
        session to the base URL, which is then held. */
    method Connect() returns (session: Session)
      requires Valid()
      modifies this
      ensures Valid()
      ensures client == session
      ensures old(client) != null ==> session == old(client) && sessions == old(sessions)
      ensures old(client) == null ==> (fresh(session) && session.url == baseUrl && !session.closed
                                       && sessions == old(sessions) + {session})
    {
      if client == null {
        client := new Session(baseUrl);
        sessions := sessions + {client};
      }
      session := client;
    }

    /** `close()`: closes and drops the held session; nothing happens when
        there is none. */
    method Close()
      requires Valid()
      modifies this, client
      ensures Valid()
      ensures client == null && sessions == old(sessions)
      ensures old(client) != null ==> old(client).closed
    {
      if client != null {
        client.Close();
        client := null;
      }
    }

    /** The start of `call(service, method, ...)`: take the shared session,
        send the request head, arm the timer and write the encoded
        request. The returned call then receives the stream's events. */
    method Call<V>(service: string, rpc: string, serialized: Result<Bytes, string>, codec: Codec<V>)
      returns (session: Session, pending: PendingCall<V>)
      requires Valid()
      modifies this
      ensures Valid()
      ensures client == session && (old(client) != null ==> session == old(client))
      ensures old(client) == null ==> fresh(session) && session.url == baseUrl && !session.closed
      ensures fresh(pending) && pending.Valid()
      ensures pending.head == MakeRequestHead(baseUrl, token, service, rpc)
      ensures pending.codec == codec
      ensures pending.requestBody == if !session.closed && serialized.Ok? && Frame(serialized.value).Ok? then Some(Frame(serialized.value).value) else None
      ensures pending.State() == Start(!session.closed, serialized)
      ensures session.closed ==> pending.State().outcome == Rejected(SessionClosed) && !pending.State().timerArmed
    {
      session := Connect();
      pending := new PendingCall(MakeRequestHead(baseUrl, token, service, rpc), !session.closed, serialized, codec);
    }
  }

  /** What callers may rely on across calls: `connect` twice gives one
      session, `close` drops it and a second `close` is harmless, and the
      next `connect` opens a new one. */
  method ConnectionLifecycle(c: GrpcClient) returns (first: Session, second: Session, third: Session)
    requires c.Valid() && c.client == null
    modifies c
    ensures first == second && first.closed && first != third && !third.closed
    ensures c.client == third
  {
    first := c.Connect();
    second := c.Connect();
    c.Close();
    c.Close();
    third := c.Connect();
  }

  /** A session lost underneath the client stays held: every `call` on it
      is rejected at once, without a timer, until `close` drops it; the
      next `call` then opens a new session and proceeds normally. */
  method LostSessionUntilClose<V>(c: GrpcClient, service: string, rpc: string,
                                  serialized: Result<Bytes, string>, codec: Codec<V>)
    returns (lost: PendingCall<V>, recovered: PendingCall<V>)
    requires c.Valid() && c.client != null
    modifies c, c.client
    ensures lost.State().outcome == Rejected(SessionClosed) && !lost.State().timerArmed
    ensures recovered.State() == Initial(serialized)
    ensures c.Valid()
  {
    c.SessionLost();
    var dead;
    dead, lost := c.Call(service, rpc, serialized, codec);
    c.Close();
    var renewed;
    renewed, recovered := c.Call(service, rpc, serialized, codec);
  }
}
