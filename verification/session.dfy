/** The client's session operations as a trace of the messages it writes:
    the handshake (`Initialize`), the three queries (`Hover`, `Definition`,
    `References`) and the shutdown (`Close`). Each blocking receive is modelled
    by the payloads the reader dispatches while the caller waits. */
module Session {
  import opened Base
  import opened Text
  import opened Correlation
  import opened Position

  /** The `params` member of an outgoing message. */
  datatype Params =
    | Absent                                   // no params member at all
    | JsonNull                                 // params: null
    | EmptyObject                              // params: {}
    | InitializeParams(rootUri: string)        // processId null, rootUri, the fixed capabilities
    | DidOpenParams(uri: string, languageId: string, version: int, text: Bytes)
    | PositionParams(uri: string, position: Pos, includeDeclaration: Option<bool>)

  /** A message the client writes to the server, before JSON encoding and framing. */
  datatype Outbound =
    | Request(id: int, name: string, params: Params)
    | Notification(name: string, params: Params)

  /** The client: its workspace root, its correlation state, and everything it
      has written so far. */
  datatype Client = Client(root: string, corr: Correlator, wire: seq<Outbound>)

  /** How an operation that waits for a reply ends: with the reply's raw result,
      still waiting (no reply came, so the caller is blocked for good), or,
      for a query, without sending anything because the file could not be read. */
  datatype Outcome = Answered(result: Bytes) | Waiting | FileUnreadable

  datatype Query = Hover | Definition | References


  function MethodOf(q: Query): string {
    match q
    case Hover => "textDocument/hover"
    case Definition => "textDocument/definition"
    case References => "textDocument/references"
  }

  /** Request ids on the wire increase from one request to the next. */
  ghost predicate RequestIdsIncrease(wire: seq<Outbound>) {
    forall i, j | 0 <= i < j < |wire| && wire[i].Request? && wire[j].Request? :: wire[i].id < wire[j].id
  }

  /** The invariant of a client: a valid correlator, only issued ids awaited,
      request ids increasing on the wire and all below the counter. */
  ghost predicate ClientOk(s: Client) {
    && Valid(s.corr)
    && IdsBelowCounter(s.corr)
    && RequestIdsIncrease(s.wire)
    && (forall i | 0 <= i < |s.wire| && s.wire[i].Request? :: s.wire[i].id < s.corr.nextId)
  }

  /** Writing a request with the current counter value keeps request ids
      increasing, as does writing notifications. */
  lemma AppendFreshRequest(wire: seq<Outbound>, before: seq<Outbound>, id: int, name: string, params: Params, after: seq<Outbound>)
    requires RequestIdsIncrease(wire)
    requires forall i | 0 <= i < |wire| && wire[i].Request? :: wire[i].id < id
    requires forall i | 0 <= i < |before| :: before[i].Notification?
    requires forall i | 0 <= i < |after| :: after[i].Notification?
    ensures var w := wire + before + [Request(id, name, params)] + after;
      && RequestIdsIncrease(w)
      && forall i | 0 <= i < |w| && w[i].Request? :: w[i].id <= id
  {
  }

  /** NewLSPClient's initial state: ids start at 1, nothing written yet. */
  function Start(root: string): (s: Client)
    ensures ClientOk(s) && s.corr.nextId == 1 && s.wire == []
    ensures s.root == root && s.corr == Init() && s.corr.table == map[]
  {
    Client(root, Init(), [])
  }

  /** The handshake: the `initialize` request is registered before it is sent,
      the caller waits for its reply, and only then sends `initialized`. */
  function Initialize(s: Client, inbound: seq<Incoming>): (r: (Client, Outcome))
    requires ClientOk(s)
    ensures ClientOk(r.0) && r.0.root == s.root && r.0.corr.nextId == s.corr.nextId + 1
    ensures !r.1.FileUnreadable?
    ensures var req := Request(s.corr.nextId, "initialize", InitializeParams(FileScheme + s.root));
      if r.1.Answered? then r.0.wire == s.wire + [req, Notification("initialized", EmptyObject)]
      else r.0.wire == s.wire + [req]
    ensures r.1.Answered? <==> FirstReply(inbound, s.corr.nextId).Some?
    ensures r.1.Answered? ==> r.1.result == FirstReply(inbound, s.corr.nextId).value
  {
    var (id, c1) := NextId(s.corr);
    var (h, c2) := Register(c1, id);
    var req := Request(id, "initialize", InitializeParams(FileScheme + s.root));
    var sent := s.wire + [req];
    AppendFreshRequest(s.wire, [], id, req.name, req.params, []);
    AppendFreshRequest(s.wire, [], id, req.name, req.params, [Notification("initialized", EmptyObject)]);
    assert s.wire + [] + [req] + [] == sent;
    var c3 := DispatchAll(c2, inbound);
    AwaitedIdGetsFirstReply(c2, inbound, id);
    match Receive(c3, h)
    case None => (Client(s.root, c3, sent), Waiting)
    case Some((result, c4)) =>
      (Client(s.root, c4, sent + [Notification("initialized", EmptyObject)]), Answered(result))
  }

  /** Hover, Definition and References: read the file (nothing is sent when
      that fails), send `didOpen` with its full text, then register, send and
      await the positional request, whose position is the 0-based one. */
  function RunQuery(s: Client, q: Query, path: string, content: Option<Bytes>, at: Pos, inbound: seq<Incoming>)
    : (r: (Client, Outcome))
    requires ClientOk(s)
    ensures ClientOk(r.0) && r.0.root == s.root
    ensures content.None? <==> r.1.FileUnreadable?
    ensures content.None? ==> r.0 == s
    ensures content.Some? ==>
      && r.0.corr.nextId == s.corr.nextId + 1
      && r.0.wire == s.wire + [
           Notification("textDocument/didOpen", DidOpenParams(FileScheme + path, "go", 1, content.value)),
           Request(s.corr.nextId, MethodOf(q),
                   PositionParams(FileScheme + path, ToWire(at), if q == References then Some(true) else None))]
      && (r.1.Answered? <==> FirstReply(inbound, s.corr.nextId).Some?)
      && (r.1.Answered? ==> r.1.result == FirstReply(inbound, s.corr.nextId).value)
  {
    match content
    case None => (s, FileUnreadable)
    case Some(text) =>
      var uri := FileScheme + path;
      var open := Notification("textDocument/didOpen", DidOpenParams(uri, "go", 1, text));
      var (id, c1) := NextId(s.corr);
      var req := Request(id, MethodOf(q), PositionParams(uri, ToWire(at), if q == References then Some(true) else None));
      var (h, c2) := Register(c1, id);
      var sent := s.wire + [open, req];
      AppendFreshRequest(s.wire, [open], id, req.name, req.params, []);
      assert s.wire + [open] + [req] + [] == sent;
      var c3 := DispatchAll(c2, inbound);
      AwaitedIdGetsFirstReply(c2, inbound, id);
      match Receive(c3, h)
      case None => (Client(s.root, c3, sent), Waiting)
      case Some((result, c4)) => (Client(s.root, c4, sent), Answered(result))
  }

  /** Close: `shutdown` with a fresh id, then `exit`, without registering or
      awaiting the shutdown reply. */
  function Close(s: Client): (r: Client)
    requires ClientOk(s)
    ensures ClientOk(r) && r.root == s.root
    ensures r.wire == s.wire + [Request(s.corr.nextId, "shutdown", JsonNull), Notification("exit", Absent)]
    ensures r.corr.table == s.corr.table && s.corr.nextId !in r.corr.table
  {
    var (id, c1) := NextId(s.corr);
    AppendFreshRequest(s.wire, [], id, "shutdown", JsonNull, [Notification("exit", Absent)]);
    assert s.wire + [] + [Request(id, "shutdown", JsonNull)] + [Notification("exit", Absent)]
        == s.wire + [Request(id, "shutdown", JsonNull), Notification("exit", Absent)];
    Client(s.root, c1, s.wire + [Request(id, "shutdown", JsonNull), Notification("exit", Absent)])
  }

  /** The reply to `shutdown` is never awaited: the reader drops it. */
  lemma ShutdownReplyDropped(s: Client, result: Bytes)
    requires ClientOk(s)
    ensures Dispatch(Close(s).corr, Message(Some(s.corr.nextId), result)) == Close(s).corr
  {
  }

  /** A whole session that gets its replies: handshake, one query, close. The
      wire carries exactly these six messages in this order, the requests with
      ids 1, 2 and 3, `didOpen` before the query, `initialized` after the
      initialize reply, and `exit` right after `shutdown`. */
  lemma WholeSession(root: string, q: Query, path: string, text: Bytes, at: Pos,
                     handshake: seq<Incoming>, answers: seq<Incoming>)
    requires FirstReply(handshake, 1).Some? && FirstReply(answers, 2).Some?
    ensures var (s1, o1) := Initialize(Start(root), handshake);
      var (s2, o2) := RunQuery(s1, q, path, Some(text), at, answers);
      && o1.Answered? && o2.Answered?
      && Close(s2).wire == [
           Request(1, "initialize", InitializeParams(FileScheme + root)),
           Notification("initialized", EmptyObject),
           Notification("textDocument/didOpen", DidOpenParams(FileScheme + path, "go", 1, text)),
           Request(2, MethodOf(q), PositionParams(FileScheme + path, ToWire(at),
                                                 if q == References then Some(true) else None)),
           Request(3, "shutdown", JsonNull),
           Notification("exit", Absent)]
  {
    var s0 := Start(root);
    var (s1, o1) := Initialize(s0, handshake);
    assert s1.corr.nextId == 2 && o1.Answered?;
    assert s1.wire == [Request(1, "initialize", InitializeParams(FileScheme + root)),
                       Notification("initialized", EmptyObject)];
    var (s2, o2) := RunQuery(s1, q, path, Some(text), at, answers);
    assert s2.corr.nextId == 3 && o2.Answered?;
    var w := Close(s2).wire;
    assert w == s1.wire + s2.wire[2..] + w[4..];
    Concat(s1.wire, s2.wire[2..], w[4..]);
  }

  lemma Concat<T>(a: seq<T>, b: seq<T>, c: seq<T>)
    requires |a| == 2 && |b| == 2 && |c| == 2
    ensures a + b + c == [a[0], a[1], b[0], b[1], c[0], c[1]]
  {
  }
}
