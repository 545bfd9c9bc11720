/**
 * The SMDR receiver (smdr/server.py): the canonical field list, the decode
 * chain applied to every received chunk, the listener whose socket is
 * replaced only after the new one is bound, and the per-connection loop that
 * hands each chunk to the callback.
 *
 * Sockets and threads are represented by numbers drawn from a counter; what
 * the operating system answers to bind, listen and recv is given to each
 * method as a parameter.
 */
module Server {
  import opened Text
  import opened Utf8

  // ---------------------------------------------------------------------------
  // Field names
  // ---------------------------------------------------------------------------

  /** FIELD_NAMES: the 37 SMDR fields, in record order. */
  function FieldNames(): (r: seq<string>)
    ensures |r| == 37
  {
    ["call_start_time", "connected_time", "ring_time", "caller", "direction",
     "called_number", "dialed_number", "account_code", "is_internal", "call_id",
     "continuation", "party1_device", "party1_name", "party2_device", "party2_name",
     "hold_time", "park_time", "authorization_valid", "authorization_code",
     "user_charged", "call_charge", "currency", "amount_at_last_user_change",
     "call_units", "units_at_last_user_change", "cost_per_unit", "mark_up",
     "external_targeting_cause", "external_targeter_id", "external_targeted_number",
     "calling_party_server_ip_address", "unique_call_id_caller_extension",
     "called_party_server_ip_address", "unique_call_id_called_extension",
     "smdr_record_time", "caller_consent_directive", "calling_number_verification"]
  }

  const FieldCount: nat := 37

  // ---------------------------------------------------------------------------
  // Peers and chunks
  // ---------------------------------------------------------------------------

  /** A peer address, the (host, port) pair a socket reports. */
  datatype Address = Address(host: string, port: int)

  /** f"{addr[0]}:{addr[1]}". */
  function AddressText(a: Address): string
  {
    a.host + [':'] + IntToString(a.port)
  }

  /**
   * What one recv() returns: real bytes, or an object that merely behaves like
   * bytes (as the receiver's own tests substitute), described by its length and
   * by what each of its decode attempts yields (None where it raises).
   */
  datatype Chunk =
    | Data(bytes: seq<byte>)
    | Foreign(size: nat, asUtf8: Option<string>, asLatin1: Option<string>, asRepr: Option<string>)

  /** `not data`: the chunk has length zero. */
  predicate IsEmpty(c: Chunk)
  {
    match c
    case Data(b) => b == []
    case Foreign(n, _, _, _) => n == 0
  }

  /** The last-resort text when every decoding attempt raised. */
  const Undecodable: string := "<undecodable data>"

  /** The fallback chain: the first attempt that did not raise, else the sentinel. */
  function Fallback(utf8: Option<string>, latin1: Option<string>, repr: Option<string>): (r: string)
    ensures utf8.Some? ==> r == utf8.value
    ensures utf8.None? && latin1.Some? ==> r == latin1.value
    ensures utf8.None? && latin1.None? && repr.Some? ==> r == repr.value
    ensures utf8.None? && latin1.None? && repr.None? ==> r == Undecodable
  {
    if utf8.Some? then utf8.value
    else if latin1.Some? then latin1.value
    else if repr.Some? then repr.value
    else Undecodable
  }

  /** The text handed to the callback for one chunk. */
  function DecodeChunk(c: Chunk): string
  {
    match c
    case Data(b) => Fallback(Some(Utf8.Decode(b)), Some(Latin1Decode(b)), None)
    case Foreign(_, u, l, r) => Fallback(u, l, r)
  }

  /** For real bytes the UTF-8 stage never raises, so its result is the text. */
  lemma DecodeChunkOfBytes(b: seq<byte>)
    ensures DecodeChunk(Data(b)) == Utf8.Decode(b)
    ensures |b| > 0 ==> |DecodeChunk(Data(b))| > 0
  {
  }

  /** Text sent as UTF-8 arrives unchanged when it comes in one chunk. */
  lemma DecodeChunkOfText(s: string)
    ensures DecodeChunk(Data(Utf8.Encode(s))) == s
  {
    DecodeEncode(s);
  }

  /** An object whose UTF-8 decode raises but whose Latin-1 decode succeeds yields the latter. */
  lemma DecodeChunkFallsBack(n: nat, latin1: string, repr: Option<string>)
    ensures DecodeChunk(Foreign(n, None, Some(latin1), repr)) == latin1
    ensures DecodeChunk(Foreign(n, None, None, None)) == Undecodable
  {
  }

  // ---------------------------------------------------------------------------
  // The per-connection loop
  // ---------------------------------------------------------------------------

  /** What happens at one turn of the receive loop. */
  datatype RecvEvent =
    | Received(chunk: Chunk)   // recv returned this chunk
    | RecvFailed               // recv raised OSError
    | FlagCleared              // the running flag was found cleared at the loop head

  /** One call of on_data(text, addr). */
  datatype Delivery = Delivery(text: string, addr: Address)

  /** True for the events that end the loop. */
  predicate Ends(e: RecvEvent)
  {
    !e.Received? || IsEmpty(e.chunk)
  }

  /** The callback calls a connection produces: one per chunk up to the first ending event. */
  function Delivered(events: seq<RecvEvent>, addr: Address): (r: seq<Delivery>)
    ensures |r| <= |events|
  {
    if events == [] || Ends(events[0]) then []
    else [Delivery(DecodeChunk(events[0].chunk), addr)] + Delivered(events[1..], addr)
  }

  /** The position of the first ending event, or the number of events. */
  function FirstEnd(events: seq<RecvEvent>): (k: nat)
    ensures k <= |events|
    ensures forall i :: 0 <= i < k ==> !Ends(events[i])
    ensures k < |events| ==> Ends(events[k])
  {
    if events == [] || Ends(events[0]) then 0 else 1 + FirstEnd(events[1..])
  }

  /**
   * on_data is called exactly once per chunk before the first empty chunk,
   * recv error or cleared flag, in arrival order, with the chunk's decoded text.
   */
  lemma {:induction false} DeliveredInOrder(events: seq<RecvEvent>, addr: Address)
    ensures |Delivered(events, addr)| == FirstEnd(events)
    ensures forall k :: 0 <= k < FirstEnd(events) ==>
              Delivered(events, addr)[k] == Delivery(DecodeChunk(events[k].chunk), addr)
  {
    if events != [] && !Ends(events[0]) {
      DeliveredInOrder(events[1..], addr);
      var d := Delivered(events, addr);
      forall k | 0 <= k < FirstEnd(events)
        ensures d[k] == Delivery(DecodeChunk(events[k].chunk), addr)
      {
        if k > 0 {
          assert d[k] == Delivered(events[1..], addr)[k - 1];
          assert events[1..][k - 1] == events[k];
        }
      }
    }
  }

  /** Events after the first ending event have no effect. */
  lemma {:induction false} DeliveredIgnoresLaterEvents(events: seq<RecvEvent>, more: seq<RecvEvent>, addr: Address)
    requires FirstEnd(events) < |events|
    ensures Delivered(events + more, addr) == Delivered(events, addr)
  {
    if !Ends(events[0]) {
      assert (events + more)[1..] == events[1..] + more;
      DeliveredIgnoresLaterEvents(events[1..], more, addr);
    }
  }

  // ---------------------------------------------------------------------------
  // Binding
  // ---------------------------------------------------------------------------

  /** What the operating system answers to bind(("0.0.0.0", port)) for a port in range. */
  datatype BindOutcome = BindOk | BindRefused(cause: string)

  /** What listen(5) followed by getsockname() gives. */
  datatype ListenOutcome = Listening(actualPort: int) | ListenFailed(cause: string)

  /** Python's own complaint about a port outside 0..65535. */
  const PortRangeMessage: string := "bind(): port must be 0-65535."

  predicate PortInRange(port: int)
  {
    0 <= port <= 65535
  }

  /** The bind attempt: None when bound, else the text of the exception. */
  function TryBind(port: int, outcome: BindOutcome): (r: Option<string>)
    ensures !PortInRange(port) ==> r == Some(PortRangeMessage)
    ensures PortInRange(port) ==> (r.None? <==> outcome.BindOk?)
  {
    if !PortInRange(port) then Some(PortRangeMessage)
    else match outcome
      case BindOk => None
      case BindRefused(cause) => Some(cause)
  }

  /** The RuntimeError message start() raises when the bind fails. */
  function BindErrorMessage(port: int, cause: string): string
  {
    "Could not bind to port " + IntToString(port) + ": " + cause
  }

  /**
   * is_port_available: True exactly when setting the socket option and the
   * probe bind both succeed. The probe socket is closed on every path, so
   * nothing about the probe outlives the call.
   */
  function IsPortAvailable(port: int, optionSet: bool, outcome: BindOutcome): (available: bool)
    ensures available ==> PortInRange(port) && outcome.BindOk?
    ensures optionSet && PortInRange(port) && outcome.BindOk? ==> available
    ensures !optionSet ==> !available
  {
    optionSet && TryBind(port, outcome).None?
  }

  /** The error start() raises. */
  datatype StartError = CouldNotBind(message: string) | ListenError(cause: string)

  datatype StartResult = Started | Raised(error: StartError)

  /** What the operating system guarantees of the port getsockname() reports. */
  predicate AssignedBy(requested: int, actual: int)
  {
    1 <= actual <= 65535 && (requested != 0 ==> actual == requested)
  }

  /** A client connection and the thread serving it. */
  datatype Client = Client(conn: nat, thread: nat)

  /** The connection sockets of the clients, in list order. */
  function Conns(cs: seq<Client>): seq<nat>
  {
    seq(|cs|, i requires 0 <= i < |cs| => cs[i].conn)
  }

  /** What accept() gives at one turn of the accept loop. */
  datatype AcceptOutcome = AcceptedFrom(addr: Address) | AcceptFailed

  /**
   * SMDRServer. `closed` records, in order, every socket the server has
   * closed; `nextId` numbers the sockets and threads it creates.
   */
  class Listener {
    var sock: Option<nat>
    var port: int
    var running: bool
    var clients: seq<Client>
    var acceptThread: Option<nat>
    var closed: seq<nat>
    var nextId: nat
    const hasCallback: bool

    /** A stopped server with the default port 7000. */
    constructor(hasCallback: bool)
      ensures this.hasCallback == hasCallback
      ensures sock == None && port == 7000 && !running && clients == [] && acceptThread == None
      ensures closed == [] && nextId == 0
    {
      this.hasCallback := hasCallback;
      sock := None;
      port := 7000;
      running := false;
      clients := [];
      acceptThread := None;
      closed := [];
      nextId := 0;
    }

    /** No socket, no clients, no accept thread, flag cleared. */
    predicate Stopped()
      reads this
    {
      !running && sock == None && clients == [] && acceptThread == None
    }

    /** The sockets stop() closes, in the order it closes them. */
    function StopCloses(): (r: seq<nat>)
      reads this
      ensures |r| == |clients| + (if sock.Some? then 1 else 0)
    {
      (if sock.Some? then [sock.value] else []) + Conns(clients)
    }

    /**
     * stop(): clears the flag, closes the listening socket and every client
     * connection, and forgets them. A second call changes nothing.
     */
    method Stop()
      modifies this
      ensures Stopped()
      ensures closed == old(closed) + old(StopCloses())
      ensures port == old(port) && nextId == old(nextId)
      ensures old(Stopped()) ==> closed == old(closed)
    {
      running := false;
      if sock.Some? {
        closed := closed + [sock.value];
        sock := None;
      }
      ghost var head := closed;
      var i := 0;
      while i < |clients|
        invariant 0 <= i <= |clients| && clients == old(clients)
        invariant closed == head + Conns(clients)[..i]
        invariant sock == None && !running && port == old(port) && nextId == old(nextId)
      {
        assert Conns(clients)[..i + 1] == Conns(clients)[..i] + [clients[i].conn];
        closed := closed + [clients[i].conn];
        i := i + 1;
      }
      assert Conns(clients)[..i] == Conns(clients);
      clients := [];
      acceptThread := None;
    }

    /**
     * start(port): binds a new socket first. When bind or listen fails the new
     * socket is closed and the running listener is left exactly as it was;
     * otherwise the old listener is stopped and the new socket takes its place.
     */
    method Start(requested: int, bind: BindOutcome, listen: ListenOutcome) returns (r: StartResult)
      modifies this
      ensures var bound := TryBind(requested, bind);
        && (bound.Some? ==> r == Raised(CouldNotBind(BindErrorMessage(requested, bound.value))))
        && (bound.None? && listen.ListenFailed? ==> r == Raised(ListenError(listen.cause)))
        && (bound.None? && listen.Listening? <==> r == Started)
      ensures r.Raised? ==>
        && sock == old(sock) && port == old(port) && running == old(running)
        && clients == old(clients) && acceptThread == old(acceptThread)
        && closed == old(closed) + [old(nextId)]
      ensures r == Started ==>
        && closed == old(closed) + old(StopCloses())
        && sock == Some(old(nextId)) && port == listen.actualPort && running && clients == []
        && acceptThread == Some(old(nextId) + 1)
        && (AssignedBy(requested, listen.actualPort) ==> port != 0)
    {
      var newSock := nextId;
      nextId := nextId + 1;
      var bound := TryBind(requested, bind);
      if bound.Some? {
        closed := closed + [newSock];
        return Raised(CouldNotBind(BindErrorMessage(requested, bound.value)));
      }
      if listen.ListenFailed? {
        closed := closed + [newSock];
        return Raised(ListenError(listen.cause));
      }
      Stop();
      sock := Some(newSock);
      port := listen.actualPort;
      running := true;
      acceptThread := Some(nextId);
      nextId := nextId + 1;
      r := Started;
    }

    /**
     * One turn of the accept loop: while running, an accepted connection gets
     * a handler thread and joins the client list; a failed accept ends the loop.
     */
    method AcceptOne(outcome: AcceptOutcome) returns (more: bool)
      modifies this
      ensures more <==> old(running) && outcome.AcceptedFrom?
      ensures more ==> clients == old(clients) + [Client(old(nextId), old(nextId) + 1)] && nextId == old(nextId) + 2
      ensures !more ==> clients == old(clients) && nextId == old(nextId)
      ensures sock == old(sock) && port == old(port) && running == old(running)
      ensures acceptThread == old(acceptThread) && closed == old(closed)
    {
      if !running || outcome.AcceptFailed? {
        return false;
      }
      clients := clients + [Client(nextId, nextId + 1)];
      nextId := nextId + 2;
      more := true;
    }

    /**
     * The receive loop of _handle_client: receives until an empty chunk, a
     * recv error or a cleared flag, calling on_data (when there is one) with
     * each decoded chunk. `raises(k)` says whether the k-th callback raised;
     * such an exception is logged (`logged[k]`) and the loop goes on with the
     * next chunk, so the calls do not depend on it.
     */
    static method ReceiveLoop(events: seq<RecvEvent>, addr: Address, raises: nat -> bool, hasCallback: bool)
      returns (calls: seq<Delivery>, logged: seq<bool>)
      ensures calls == if hasCallback then Delivered(events, addr) else []
      ensures |logged| == |calls| && forall k :: 0 <= k < |calls| ==> logged[k] == raises(k)
    {
      calls, logged := [], [];
      var i := 0;
      ghost var seen: seq<Delivery> := [];
      assert events[0..] == events;
      while i < |events| && !Ends(events[i])
        invariant 0 <= i <= |events|
        invariant Delivered(events, addr) == seen + Delivered(events[i..], addr)
        invariant calls == if hasCallback then seen else []
        invariant |logged| == |calls| && forall k :: 0 <= k < |calls| ==> logged[k] == raises(k)
        decreases |events| - i
      {
        var text := DecodeChunk(events[i].chunk);
        assert events[i..][1..] == events[i + 1..];
        seen := seen + [Delivery(text, addr)];
        if hasCallback {
          logged := logged + [raises(|calls|)];
          calls := calls + [Delivery(text, addr)];
        }
        i := i + 1;
      }
    }

    /**
     * _handle_client: the receive loop runs while the flag is set; however
     * it ends, the `with conn:` block closes the connection conn.
     */
    method HandleClient(conn: nat, events: seq<RecvEvent>, addr: Address, raises: nat -> bool)
      returns (calls: seq<Delivery>, logged: seq<bool>)
      modifies this
      ensures calls == if old(running) && hasCallback then Delivered(events, addr) else []
      ensures |logged| == |calls| && forall k :: 0 <= k < |calls| ==> logged[k] == raises(k)
      ensures closed == old(closed) + [conn]
      ensures sock == old(sock) && port == old(port) && running == old(running)
      ensures clients == old(clients) && acceptThread == old(acceptThread) && nextId == old(nextId)
    {
      calls, logged := [], [];
      if running {
        calls, logged := ReceiveLoop(events, addr, raises, hasCallback);
      }
      closed := closed + [conn];
    }
  }
}
