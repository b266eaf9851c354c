/** The relay of server.py: one connection's handler `handle_client`
    (lines 7-58) acting on the shared registry `clients` (line 5). */
module Server {
  import opened Json
  import opened Position
  import opened Clients

  /** One inbound frame together with the outcome of the sends its broadcast
      would make: the connections whose `send` raises. The network is not
      modelled, so this set is the oracle for it. */
  datatype Incoming = Incoming(raw: Inbound, failing: set<ConnId>)

  /** The registry after handling one frame from `sender`. */
  function Step(t: Registry, sender: ConnId, m: Incoming): Registry {
    if Classify(m.raw).Accepted? then AfterPass(t, sender, m.failing) else t
  }

  /** The registry after handling the frames of `inbox` in order. */
  function Steps(t: Registry, sender: ConnId, inbox: seq<Incoming>): Registry {
    if inbox == [] then t
    else Step(Steps(t, sender, inbox[..|inbox| - 1]), sender, inbox[|inbox| - 1])
  }

  /** The connections tried for one frame from `sender`. */
  function Pass(t: Registry, sender: ConnId, m: Incoming): seq<ConnId> {
    if Classify(m.raw).Accepted? then Recipients(t, sender) else []
  }

  /** The connections tried for each frame of `inbox`, frame by frame. */
  function Trace(t: Registry, sender: ConnId, inbox: seq<Incoming>): seq<seq<ConnId>> {
    if inbox == [] then []
    else
      var init := inbox[..|inbox| - 1];
      Trace(t, sender, init) + [Pass(Steps(t, sender, init), sender, inbox[|inbox| - 1])]
  }

  /** A whole connection: registration, the receive loop, and the cleanup in
      the `finally` block. */
  function Session(t: Registry, cid: ConnId, sock: Socket, inbox: seq<Incoming>): Registry {
    Remove(Steps(Put(t, cid, sock), cid, inbox), cid)
  }

  /** The send loop of one broadcast pass (server.py, lines 32-40), over the
      registry as it stands when the pass starts. Every connection other than
      the sender is tried, in iteration order; a failed send is recorded and
      the loop goes on. */
  method FanOut(snap: Registry, sender: ConnId, failing: set<ConnId>)
    returns (attempts: seq<ConnId>, disconnected: seq<ConnId>)
    ensures attempts == Recipients(snap, sender)
    ensures disconnected == FailedRecipients(snap, sender, failing)
  {
    attempts, disconnected := [], [];
    for i := 0 to |snap.order|
      invariant attempts == Minus(snap.order[..i], {sender})
      invariant disconnected == Among(attempts, failing)
    {
      var other := snap.order[i];
      assert snap.order[..i + 1] == snap.order[..i] + [other];
      MinusSnoc(snap.order[..i], other, {sender});
      if other != sender {
        AmongSnoc(attempts, other, failing);
        attempts := attempts + [other];
        if other in failing {
          disconnected := disconnected + [other];
        }
      }
    }
    assert snap.order[..|snap.order|] == snap.order;
  }

  // ---- Properties of the handler ------------------------------------------

  /** A frame that is not an accepted "pos" update leaves the registry alone. */
  lemma RejectedFrameIsInert(t: Registry, sender: ConnId, m: Incoming)
    requires !Classify(m.raw).Accepted?
    ensures Step(t, sender, m) == t
  {
  }

  /** When no send fails, a pass evicts nobody. */
  lemma NoFailureNoEviction(t: Registry, sender: ConnId)
    requires t.Valid()
    ensures AfterPass(t, sender, {}) == t
  {
    var failed := FailedRecipients(t, sender, {});
    if failed != [] {
      AmongMember(Recipients(t, sender), {}, failed[0]);
    }
  }

  /** Handling any run of frames only ever removes entries: every surviving
      connection keeps its socket, and the sender's own entry is never
      removed by its own broadcasts. */
  lemma {:induction false} StepsSpec(t: Registry, sender: ConnId, inbox: seq<Incoming>)
    requires t.Valid()
    ensures Steps(t, sender, inbox).Valid()
    ensures forall id :: id in Steps(t, sender, inbox).conns ==>
      id in t.conns && Steps(t, sender, inbox).conns[id] == t.conns[id]
    ensures sender in t.conns ==> sender in Steps(t, sender, inbox).conns
  {
    if inbox != [] {
      var init := inbox[..|inbox| - 1];
      var m := inbox[|inbox| - 1];
      var u := Steps(t, sender, init);
      StepsSpec(t, sender, init);
      AfterPassSpec(u, sender, m.failing);
    }
  }

  /** When a connection's handler has finished, its own id is no longer
      registered, no connection has been added, and every connection still
      registered keeps its socket. */
  lemma SessionSpec(t: Registry, cid: ConnId, sock: Socket, inbox: seq<Incoming>)
    requires t.Valid()
    ensures Session(t, cid, sock, inbox).Valid()
    ensures cid !in Session(t, cid, sock, inbox).conns
    ensures forall id :: id in Session(t, cid, sock, inbox).conns ==>
      id in t.conns && Session(t, cid, sock, inbox).conns[id] == t.conns[id]
  {
    var t1 := Put(t, cid, sock);
    PutSpec(t, cid, sock);
    StepsSpec(t1, cid, inbox);
    RemoveSpec(Steps(t1, cid, inbox), cid);
  }

  /** If no send fails during a connection's lifetime, the registry ends as it
      was before the connection arrived (without `cid`). */
  lemma QuietSession(t: Registry, cid: ConnId, sock: Socket, inbox: seq<Incoming>)
    requires t.Valid()
    requires forall i :: 0 <= i < |inbox| ==> inbox[i].failing == {}
    ensures Session(t, cid, sock, inbox) == Remove(t, cid)
  {
    PutSpec(t, cid, sock);
    QuietSteps(Put(t, cid, sock), cid, inbox);
    RemovePut(t, cid, sock);
  }

  /** Registering and then removing an id is the same as removing it. */
  lemma RemovePut(t: Registry, cid: ConnId, sock: Socket)
    requires t.Valid()
    ensures Remove(Put(t, cid, sock), cid) == Remove(t, cid)
  {
    if cid !in t.conns {
      var o := t.order + [cid];
      assert o[..|o| - 1] == t.order;
      assert Minus(o, {cid}) == Minus(t.order, {cid});
      MinusAbsent(t.order, {}, {cid});
      MinusNone(t.order);
      assert {} + {cid} == {cid};
      assert t.conns[cid := sock] - {cid} == t.conns;
    }
  }

  lemma {:induction false} QuietSteps(t: Registry, sender: ConnId, inbox: seq<Incoming>)
    requires t.Valid()
    requires forall i :: 0 <= i < |inbox| ==> inbox[i].failing == {}
    ensures Steps(t, sender, inbox) == t
  {
    if inbox != [] {
      QuietSteps(t, sender, inbox[..|inbox| - 1]);
      NoFailureNoEviction(t, sender);
    }
  }

  /** The i-th entry of the trace is the pass made for the i-th frame, on the
      registry left by the frames before it. */
  lemma {:induction false} TraceSpec(t: Registry, sender: ConnId, inbox: seq<Incoming>)
    ensures |Trace(t, sender, inbox)| == |inbox|
    ensures forall i :: 0 <= i < |inbox| ==>
      Trace(t, sender, inbox)[i] == Pass(Steps(t, sender, inbox[..i]), sender, inbox[i])
  {
    if inbox != [] {
      var n := |inbox| - 1;
      var init := inbox[..n];
      TraceSpec(t, sender, init);
      var tr := Trace(t, sender, inbox);
      assert tr == Trace(t, sender, init) + [Pass(Steps(t, sender, init), sender, inbox[n])];
      forall i | 0 <= i < |inbox|
        ensures tr[i] == Pass(Steps(t, sender, inbox[..i]), sender, inbox[i])
      {
        if i < n {
          assert init[..i] == inbox[..i];
          assert tr[i] == Trace(t, sender, init)[i];
        }
      }
    }
  }

  /** Throughout a connection's lifetime none of its updates is echoed back to
      it, and each one is tried at most once on every other connection. */
  lemma NoSelfEcho(t: Registry, sender: ConnId, inbox: seq<Incoming>)
    requires t.Valid()
    ensures forall i :: 0 <= i < |Trace(t, sender, inbox)| ==>
      sender !in Trace(t, sender, inbox)[i] && Distinct(Trace(t, sender, inbox)[i])
  {
    TraceSpec(t, sender, inbox);
    forall i | 0 <= i < |inbox|
      ensures sender !in Trace(t, sender, inbox)[i] && Distinct(Trace(t, sender, inbox)[i])
    {
      var u := Steps(t, sender, inbox[..i]);
      StepsSpec(t, sender, inbox[..i]);
      RecipientsSpec(u, sender);
    }
  }

  /** A "pos" update without name or color is accepted with the defaults
      filled in and its coordinates copied. */
  lemma DefaultsScenario()
    ensures
      var msg := Decoded(Obj(map["type" := Str("pos"), "id" := Str("a1"),
                                 "x" := Num(1.0), "y" := Num(2.0), "z" := Num(3.0)]));
      Classify(msg) == Accepted(Payload(Str("a1"), Str("Player"), Num(1.0), Num(2.0), Num(3.0), Str("#3498db")))
  {
    var f := map["type" := Str("pos"), "id" := Str("a1"),
                 "x" := Num(1.0), "y" := Num(2.0), "z" := Num(3.0)];
    assert IsPos(f);
    assert Required <= f.Keys;
    assert "name" !in f && "color" !in f;
  }

  /** Three connections A, B and C; an accepted update from A is tried on B
      and then C, never on A, and with no failure the registry is unchanged. */
  lemma ThreeClientScenario(a: ConnId, b: ConnId, c: ConnId, sa: Socket, sb: Socket, sc: Socket, m: Incoming)
    requires a != b && a != c && b != c
    requires Classify(m.raw).Accepted? && m.failing == {}
    ensures
      var t := Registry([a, b, c], map[a := sa, b := sb, c := sc]);
      Recipients(t, a) == [b, c] && Step(t, a, m) == t
  {
    RecipientsOfFirst(a, b, c);
    AmongSnoc([], b, {});
    AmongSnoc([b], c, {});
    assert [b] + [c] == [b, c];
  }

  lemma RecipientsOfFirst(a: ConnId, b: ConnId, c: ConnId)
    requires a != b && a != c
    ensures Minus([a, b, c], {a}) == [b, c]
  {
    MinusSnoc([], a, {a});
    assert [] + [a] == [a];
    MinusSnoc([a], b, {a});
    assert [a] + [b] == [a, b];
    MinusSnoc([a, b], c, {a});
    assert [a, b] + [c] == [a, b, c];
  }

  /** The same three connections, but the send to B fails: C is still tried,
      and after the pass B alone has been evicted. */
  lemma FailedPeerScenario(a: ConnId, b: ConnId, c: ConnId, sa: Socket, sb: Socket, sc: Socket, m: Incoming)
    requires a != b && a != c && b != c
    requires Classify(m.raw).Accepted? && m.failing == {b}
    ensures
      var t := Registry([a, b, c], map[a := sa, b := sb, c := sc]);
      Step(t, a, m) == Registry([a, c], map[a := sa, c := sc])
  {
    var t := Registry([a, b, c], map[a := sa, b := sb, c := sc]);
    RecipientsOfFirst(a, b, c);
    OnlyFirstFails(b, c);
    assert AfterPass(t, a, {b}) == EvictAll(t, [b]);
    assert EvictAll(t, [b]) == EvictAll(Remove(t, b), [b][1..]);
    assert [b][1..] == [];
    RemoveMiddle(a, b, c, sa, sb, sc);
  }

  lemma OnlyFirstFails(b: ConnId, c: ConnId)
    requires b != c
    ensures Among([b, c], {b}) == [b]
  {
    AmongSnoc([], b, {b});
    AmongSnoc([b], c, {b});
    assert [b] + [c] == [b, c];
  }

  lemma RemoveMiddle(a: ConnId, b: ConnId, c: ConnId, sa: Socket, sb: Socket, sc: Socket)
    requires a != b && a != c && b != c
    ensures Remove(Registry([a, b, c], map[a := sa, b := sb, c := sc]), b)
         == Registry([a, c], map[a := sa, c := sc])
  {
    MinusSnoc([], a, {b});
    assert [] + [a] == [a];
    MinusSnoc([a], b, {b});
    MinusSnoc([a, b], c, {b});
    assert [a, b] + [c] == [a, b, c];
    assert map[a := sa, b := sb, c := sc] - {b} == map[a := sa, c := sc];
  }

  // ---- The relay's state ----------------------------------------------------

  /** The shared registry: the module-level dictionary `clients`, with its
      insertion order. */
  class Relay {
    var order: seq<ConnId>
    var clients: map<ConnId, Socket>

    function View(): Registry
      reads this
    {
      Registry(order, clients)
    }

    ghost predicate Valid()
      reads this
    {
      View().Valid()
    }

    /** `clients = {}` at start-up. */
    constructor ()
      ensures Valid() && View() == Empty
    {
      order, clients := [], map[];
    }

    /** Registration of a new connection, `clients[client_id] = websocket`. */
    method Accept(cid: ConnId, sock: Socket)
      requires Valid()
      modifies this
      ensures Valid() && View() == Put(old(View()), cid, sock)
      ensures clients == old(clients)[cid := sock]
    {
      PutSpec(View(), cid, sock);
      if cid !in clients {
        order := order + [cid];
      }
      clients := clients[cid := sock];
    }

    /** `if id in clients: del clients[id]`: used for each failed recipient and
      for the connection's own cleanup. Reports whether an entry was deleted. */
    method Disconnect(cid: ConnId) returns (removed: bool)
      requires Valid()
      modifies this
      ensures Valid() && View() == Remove(old(View()), cid)
      ensures clients == old(clients) - {cid}
      ensures removed == (cid in old(clients))
    {
      RemoveSpec(View(), cid);
      removed := cid in clients;
      if removed {
        order := Minus(order, {cid});
        clients := clients - {cid};
      }
    }

    /** The deferred eviction loop (server.py, lines 42-45), run after the send
      loop has finished. Returns the ids it actually deleted: each at most
      once, and exactly the listed ids that were still registered. */
    method Evict(ds: seq<ConnId>) returns (removed: seq<ConnId>)
      requires Valid()
      modifies this
      ensures Valid() && View() == EvictAll(old(View()), ds)
      ensures clients == old(clients) - Elems(ds)
      ensures Distinct(removed)
      ensures Elems(removed) == Elems(ds) * old(clients).Keys
    {
      removed := [];
      for i := 0 to |ds|
        invariant Valid()
        invariant EvictAll(View(), ds[i..]) == EvictAll(old(View()), ds)
        invariant clients.Keys == old(clients).Keys - Elems(ds[..i])
        invariant Distinct(removed)
        invariant Elems(removed) == Elems(ds[..i]) * old(clients).Keys
      {
        var d := ds[i];
        EvictAllStep(View(), ds, i);
        assert ds[..i + 1] == ds[..i] + [d];
        ElemsSnoc(ds[..i], d);
        assert d in clients ==> d !in Elems(removed);
        var gone := Disconnect(d);
        if gone {
          ElemsSnoc(removed, d);
          DistinctSnoc(removed, d);
          removed := removed + [d];
        }
      }
      assert ds[..|ds|] == ds;
      EvictAllSpec(old(View()), ds);
    }

    /** One broadcast pass: the send loop over the registry as it stands,
      then the eviction of the recipients whose send failed. */
    method Broadcast(sender: ConnId, failing: set<ConnId>)
      returns (attempts: seq<ConnId>, evicted: seq<ConnId>)
      requires Valid()
      modifies this
      ensures Valid() && View() == AfterPass(old(View()), sender, failing)
      ensures attempts == Recipients(old(View()), sender)
      ensures Distinct(evicted)
      ensures Elems(evicted) == Elems(FailedRecipients(old(View()), sender, failing))
    {
      var disconnected;
      attempts, disconnected := FanOut(View(), sender, failing);
      evicted := Evict(disconnected);
      forall x | x in disconnected ensures x in old(clients) {
        AmongMember(attempts, failing, x);
        MinusMember(old(order), {sender}, x);
      }
    }

    /** The body of the receive loop for one frame (server.py, lines 14-50):
      classify it, and broadcast the payload only when it is accepted. Every
      send attempt carries the payload of the verdict. */
    method HandleMessage(sender: ConnId, m: Incoming)
      returns (verdict: Verdict, attempts: seq<ConnId>)
      requires Valid()
      modifies this
      ensures Valid() && View() == Step(old(View()), sender, m)
      ensures verdict == Classify(m.raw)
      ensures attempts == if verdict.Accepted? then Recipients(old(View()), sender) else []
    {
      verdict := Classify(m.raw);
      attempts := [];
      if verdict.Accepted? {
        var evicted;
        attempts, evicted := Broadcast(sender, m.failing);
      }
    }

    /** `handle_client` for one connection: register it, handle every frame
      it sends in order (a rejected frame does not end the loop), then remove
      its own entry. Returns, per frame, the connections tried. */
    method HandleClient(cid: ConnId, sock: Socket, inbox: seq<Incoming>)
      returns (passes: seq<seq<ConnId>>)
      requires Valid()
      modifies this
      ensures Valid() && View() == Session(old(View()), cid, sock, inbox)
      ensures passes == Trace(Put(old(View()), cid, sock), cid, inbox)
    {
      Accept(cid, sock);
      ghost var start := View();
      passes := [];
      for i := 0 to |inbox|
        invariant Valid() && View() == Steps(start, cid, inbox[..i])
        invariant passes == Trace(start, cid, inbox[..i])
      {
        assert inbox[..i + 1][..i] == inbox[..i];
        var verdict, attempts := HandleMessage(cid, inbox[i]);
        passes := passes + [attempts];
      }
      assert inbox[..|inbox|] == inbox;
      var _ := Disconnect(cid);
    }
  }
}
