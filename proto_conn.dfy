// A protocol connection (src/proto/proto_conn.c): the server side of one
// client's connection. A client must say hello, naming its client id and the
// protocol versions it speaks, before it may issue any other command; the
// connection queues the responses and asks the socket layer to wake it when
// it can receive or send.
module ProtoConn {
  import opened Wrappers
  import opened ProtoTa
  import opened Clients
  import ClientSpec
  import SdErr
  import Sd = ServiceDiscovery

  /** The out-queue length at which the connection stops taking requests. */
  const SOFT_OUT_WIRE_LIMIT: nat := 128

  /** The conditions await_update asks the socket to wait for. */
  datatype Await = Await(receivable: bool, sendable: bool)

  /** The fields of a hello request: client id, minimum and maximum protocol version. */
  datatype Hello = Hello(clientId: int, minVersion: int, maxVersion: int)

  /** The hello fields of validated request values. */
  function HelloOf(vs: seq<Option<Value>>): (h: Hello)
    requires Typed(HelloTa.reqFields, vs, false)
    ensures h.clientId >= 0 && h.minVersion >= 0 && h.maxVersion >= 0
  {
    Hello(vs[0].value.n, vs[1].value.n, vs[2].value.n)
  }

  /** A failure response to a hello, with its reason. */
  function FailWith(taId: int, reason: string): Response {
    Response("hello", taId, FailMsg, [Some(StrValue(reason))])
  }

  /** The completion of a hello, with the protocol version agreed. */
  function CompleteHello(taId: int): Response {
    Response("hello", taId, CompleteMsg, [Some(Uint63Value(PROTO_VERSION))])
  }

  class Conn {
    const sd: Sd.Sd
    /** The client id the handshake settled on, or -1 before. */
    var clientId: int
    var term: bool
    /** Responses waiting to be sent, oldest first. */
    var outQueue: seq<Response>

    ghost predicate Valid()
      reads this, sd, sd.db
    {
      sd.Valid()
    }

    /** proto_conn_create. */
    constructor (sd: Sd.Sd)
      requires sd.Valid()
      ensures Valid() && this.sd == sd && clientId == -1 && !term && outQueue == []
    {
      this.sd := sd;
      clientId := -1;
      term := false;
      outQueue := [];
    }

    /** has_finished_handshake. */
    predicate HasFinishedHandshake()
      reads this
    {
      clientId >= 0
    }

    /** Once the handshake is done, the connection's own client is connected (or gone). */
    predicate OwnClientConnected()
      reads this, sd, sd.db
    {
      HasFinishedHandshake() && clientId in sd.db.clients ==> IsConnected(sd.db.clients[clientId])
    }

    /**
     * await_update: a terminated connection waits for nothing; otherwise it
     * waits to send while responses are queued, and to receive while fewer
     * than SOFT_OUT_WIRE_LIMIT are.
     */
    method AwaitUpdate() returns (cond: Await)
      ensures cond.receivable <==> !term && |outQueue| < SOFT_OUT_WIRE_LIMIT
      ensures cond.sendable <==> !term && |outQueue| > 0
      ensures !term ==> cond.receivable || cond.sendable
    {
      cond := Await(false, false);
      if !term {
        if |outQueue| > 0 {
          cond := cond.(sendable := true);
        }
        if |outQueue| < SOFT_OUT_WIRE_LIMIT {
          cond := cond.(receivable := true);
        }
      }
    }

    /** queue_response: the response goes to the back of the out-queue. */
    method QueueResponse(msg: Response)
      modifies this
      ensures outQueue == old(outQueue) + [msg]
      ensures clientId == old(clientId) && term == old(term)
    {
      outQueue := outQueue + [msg];
      var _ := AwaitUpdate();
    }

    /**
     * handle_hello. After the handshake, a hello with the same client id is
     * completed again and one with another id is denied. Before it, a
     * version range without PROTO_VERSION is refused, as is the id of a
     * client that is connected elsewhere; otherwise the client is connected
     * and the connection takes its id.
     */
    method HandleHello(ta: Ta, remoteAddr: string, now: nat)
      requires Valid() && ta.Valid() && ta.state == Requested && ta.taType == Some(HelloTa)
      requires OwnClientConnected()
      modifies this, sd.db, ta
      ensures Valid() && term == old(term) && ta.taId == old(ta.taId) && OwnClientConnected()
      ensures |outQueue| == |old(outQueue)| + 1 && outQueue[..|outQueue| - 1] == old(outQueue)
      ensures var h := HelloOf(old(ta.reqValues));
        var cid := old(clientId);
        var db := old(sd.db.clients);
        var reply := outQueue[|outQueue| - 1];
        (cid >= 0 && h.clientId != cid ==>
              reply == FailWith(ta.taId, "permission-denied") && ta.state == Failed
              && clientId == cid && sd.db.State() == old(sd.db.State()))
        && (cid >= 0 && h.clientId == cid ==>
              reply == CompleteHello(ta.taId) && ta.state == Completed
              && clientId == cid && sd.db.State() == old(sd.db.State()))
        && (cid < 0 && (h.minVersion > PROTO_VERSION || h.maxVersion < PROTO_VERSION) ==>
              reply == FailWith(ta.taId, "unsupported-protocol-version") && ta.state == Failed
              && clientId == cid && sd.db.State() == old(sd.db.State()))
        && (cid < 0 && h.minVersion <= PROTO_VERSION <= h.maxVersion
            && h.clientId in db && IsConnected(db[h.clientId]) ==>
              reply == FailWith(ta.taId, "client-id-exists") && ta.state == Failed
              && clientId == cid && sd.db.State() == old(sd.db.State()))
        && (cid < 0 && h.minVersion <= PROTO_VERSION <= h.maxVersion
            && !(h.clientId in db && IsConnected(db[h.clientId])) ==>
              reply == CompleteHello(ta.taId) && ta.state == Completed && clientId == h.clientId
              && h.clientId in sd.db.clients && IsConnected(sd.db.clients[h.clientId]))
    {
      var h := HelloOf(ta.reqValues);
      if HasFinishedHandshake() {
        HelloAgain(ta, h);
      } else {
        HelloFirst(ta, h, remoteAddr, now);
      }
    }

    /** handle_hello after the handshake: the same id is completed again, another is denied. */
    method HelloAgain(ta: Ta, h: Hello)
      requires ta.Valid() && ta.state == Requested && ta.taType == Some(HelloTa) && clientId >= 0
      modifies this, ta
      ensures term == old(term) && clientId == old(clientId) && ta.taId == old(ta.taId)
      ensures h.clientId != clientId ==>
                outQueue == old(outQueue) + [FailWith(ta.taId, "permission-denied")] && ta.state == Failed
      ensures h.clientId == clientId ==>
                outQueue == old(outQueue) + [CompleteHello(ta.taId)] && ta.state == Completed
    {
      var response;
      if clientId != h.clientId {
        response := ta.Respond(FailEvent, [Some(StrValue("permission-denied"))]);
      } else {
        response := ta.Respond(CompleteEvent, [Some(Uint63Value(PROTO_VERSION))]);
      }
      QueueResponse(response);
    }

    /**
     * handle_hello before the handshake: a version range without
     * PROTO_VERSION is refused, as is the id of a client connected
     * elsewhere; otherwise the client is connected and the connection takes
     * its id.
     */
    method HelloFirst(ta: Ta, h: Hello, remoteAddr: string, now: nat)
      requires Valid() && ta.Valid() && ta.state == Requested && ta.taType == Some(HelloTa)
      requires clientId < 0 && h.clientId >= 0
      modifies this, sd.db, ta
      ensures Valid() && term == old(term) && ta.taId == old(ta.taId)
      ensures h.minVersion > PROTO_VERSION || h.maxVersion < PROTO_VERSION ==>
                outQueue == old(outQueue) + [FailWith(ta.taId, "unsupported-protocol-version")] && ta.state == Failed
                && clientId == old(clientId) && sd.db.State() == old(sd.db.State())
      ensures h.minVersion <= PROTO_VERSION <= h.maxVersion && h.clientId in old(sd.db.clients)
              && IsConnected(old(sd.db.clients)[h.clientId]) ==>
                outQueue == old(outQueue) + [FailWith(ta.taId, "client-id-exists")] && ta.state == Failed
                && clientId == old(clientId) && sd.db.State() == old(sd.db.State())
      ensures h.minVersion <= PROTO_VERSION <= h.maxVersion
              && !(h.clientId in old(sd.db.clients) && IsConnected(old(sd.db.clients)[h.clientId])) ==>
                outQueue == old(outQueue) + [CompleteHello(ta.taId)] && ta.state == Completed && clientId == h.clientId
                && h.clientId in sd.db.clients && IsConnected(sd.db.clients[h.clientId])
    {
      var response;
      if h.minVersion > PROTO_VERSION || h.maxVersion < PROTO_VERSION {
        response := ta.Respond(FailEvent, [Some(StrValue("unsupported-protocol-version"))]);
        QueueResponse(response);
        return;
      }
      ghost var t := sd.db.State();
      var rc := sd.ClientConnect(h.clientId, remoteAddr, now);
      if rc == SdErr.CLIENT_ALREADY_EXISTS {
        response := ta.Respond(FailEvent, [Some(StrValue("client-id-exists"))]);
        QueueResponse(response);
        return;
      }
      clientId := h.clientId;
      response := ta.Respond(CompleteEvent, [Some(Uint63Value(PROTO_VERSION))]);
      QueueResponse(response);
    }

    /**
     * handle_req: a request that fails validation, or any command but hello
     * before the handshake, is refused with -1. A hello is handled here; any
     * other command goes to its handler, which is not part of this model.
     */
    method HandleReq(msg: Json, remoteAddr: string, now: nat) returns (rc: int)
      requires Valid() && OwnClientConnected()
      modifies this, sd.db
      ensures Valid() && term == old(term) && OwnClientConnected()
      ensures rc == 0 || rc == -1
      ensures ParseRequest(msg).None? ==> rc == -1
      ensures ParseRequest(msg).Some? && ParseRequest(msg).value.taType.cmd != "hello" ==>
                (rc == -1 <==> old(clientId) < 0)
      ensures ParseRequest(msg).Some? && ParseRequest(msg).value.taType.cmd == "hello" ==> rc == 0
      ensures rc == -1 ==>
                clientId == old(clientId) && outQueue == old(outQueue) && sd.db.State() == old(sd.db.State())
    {
      var ta := new Ta();
      rc := ta.Req(msg);
      if rc < 0 {
        return -1;
      }
      assert ta.taType.value in Types;
      TypeNamedFindsEach(0);
      if ta.taType.value.cmd == "hello" {
        HandleHello(ta, remoteAddr, now);
        return 0;
      }
      if !HasFinishedHandshake() {
        return -1;
      }
      return 0;
    }

    /**
     * term: a connection that finished its handshake disconnects its
     * client; the connection is then terminated.
     */
    method Term(now: nat)
      requires Valid() && !term && OwnClientConnected()
      modifies this, sd, sd.db
      ensures Valid() && term && clientId == old(clientId) && outQueue == old(outQueue)
      ensures !HasFinishedHandshake() ==> sd.db.State() == old(sd.db.State())
      ensures HasFinishedHandshake() && clientId in old(sd.db.clients) ==>
                sd.db.State() == ClientSpec.Disconnect(old(sd.db.State()), clientId, now).tables
    {
      if HasFinishedHandshake() {
        var _, _ := sd.ClientDisconnect(clientId, now);
      }
      term := true;
    }

    /**
     * try_receive of one message: a refused request terminates the
     * connection, so a client that skips the hello is cut off.
     */
    method Receive(msg: Json, remoteAddr: string, now: nat) returns (rc: int)
      requires Valid() && !term && OwnClientConnected()
      modifies this, sd, sd.db
      ensures Valid() && (!term ==> OwnClientConnected())
      ensures rc == 0 || rc == -1
      ensures term <==> rc == -1
      ensures ParseRequest(msg).None? ==> term
      ensures old(clientId) < 0 && ParseRequest(msg).Some? && ParseRequest(msg).value.taType.cmd != "hello" ==>
                term && clientId == old(clientId) && outQueue == old(outQueue)
    {
      rc := HandleReq(msg, remoteAddr, now);
      if rc < 0 {
        Term(now);
      }
    }
  }
}
