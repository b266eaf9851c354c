/** The connection registry `clients` of server.py (line 5) as a value: a
    dictionary from connection id to socket. Python dictionaries iterate in
    insertion order, and the fan-out loop sends in that order, so a registry
    is the order of its keys together with the map. */
module Clients {

  /** `str(id(websocket))`, assigned by the relay, never by the client. */
  type ConnId = string

  /** The transport handle of one connection; opaque to the relay. */
  datatype Socket = Socket(handle: nat)

  predicate Distinct(s: seq<ConnId>) {
    forall i, j :: 0 <= i < j < |s| ==> s[i] != s[j]
  }

  datatype Registry = Registry(order: seq<ConnId>, conns: map<ConnId, Socket>) {
    /** Every key appears once in the iteration order, and the order lists exactly the keys. */
    ghost predicate Valid() {
      Distinct(order) && forall id :: id in order <==> id in conns
    }
  }

  const Empty: Registry := Registry([], map[])

  /** The ids listed in `ds`. */
  function Elems(ds: seq<ConnId>): set<ConnId> {
    set d | d in ds
  }

  /** The elements of `s` not in `gone`, in their order. */
  function Minus(s: seq<ConnId>, gone: set<ConnId>): seq<ConnId> {
    if s == [] then []
    else Minus(s[..|s| - 1], gone) + (if s[|s| - 1] in gone then [] else [s[|s| - 1]])
  }

  /** The elements of `s` that are in `keep`, in their order. */
  function Among(s: seq<ConnId>, keep: set<ConnId>): seq<ConnId> {
    if s == [] then []
    else Among(s[..|s| - 1], keep) + (if s[|s| - 1] in keep then [s[|s| - 1]] else [])
  }

  /** `clients[id] = sock`: a new key goes last, an existing key keeps its place. */
  function Put(t: Registry, id: ConnId, sock: Socket): Registry {
    Registry(if id in t.conns then t.order else t.order + [id], t.conns[id := sock])
  }

  /** `if id in clients: del clients[id]`. */
  function Remove(t: Registry, id: ConnId): Registry {
    if id in t.conns then Registry(Minus(t.order, {id}), t.conns - {id}) else t
  }

  /** The deferred eviction loop: `Remove` applied to each id in turn. */
  function EvictAll(t: Registry, ds: seq<ConnId>): Registry
    decreases ds
  {
    if ds == [] then t else EvictAll(Remove(t, ds[0]), ds[1..])
  }

  /** The connections a pass started by `sender` sends to, in send order. */
  function Recipients(t: Registry, sender: ConnId): seq<ConnId> {
    Minus(t.order, {sender})
  }

  /** The recipients whose send failed, in the order they were collected. */
  function FailedRecipients(t: Registry, sender: ConnId, failing: set<ConnId>): seq<ConnId> {
    Among(Recipients(t, sender), failing)
  }

  /** The registry after a whole broadcast pass: every failed recipient evicted. */
  function AfterPass(t: Registry, sender: ConnId, failing: set<ConnId>): Registry {
    EvictAll(t, FailedRecipients(t, sender, failing))
  }

  // ---- Filters ------------------------------------------------------------

  lemma {:induction false} MinusMember(s: seq<ConnId>, gone: set<ConnId>, x: ConnId)
    ensures x in Minus(s, gone) <==> x in s && x !in gone
  {
    if s != [] {
      MinusMember(s[..|s| - 1], gone, x);
      assert s == s[..|s| - 1] + [s[|s| - 1]];
    }
  }

  lemma {:induction false} AmongMember(s: seq<ConnId>, keep: set<ConnId>, x: ConnId)
    ensures x in Among(s, keep) <==> x in s && x in keep
  {
    if s != [] {
      AmongMember(s[..|s| - 1], keep, x);
      assert s == s[..|s| - 1] + [s[|s| - 1]];
    }
  }

  lemma {:induction false} MinusDistinct(s: seq<ConnId>, gone: set<ConnId>)
    requires Distinct(s)
    ensures Distinct(Minus(s, gone))
  {
    if s != [] {
      var init, last := s[..|s| - 1], s[|s| - 1];
      MinusDistinct(init, gone);
      MinusMember(init, gone, last);
      assert last !in init;
    }
  }

  lemma {:induction false} AmongDistinct(s: seq<ConnId>, keep: set<ConnId>)
    requires Distinct(s)
    ensures Distinct(Among(s, keep))
  {
    if s != [] {
      var init, last := s[..|s| - 1], s[|s| - 1];
      AmongDistinct(init, keep);
      AmongMember(init, keep, last);
      assert last !in init;
    }
  }

  /** Dropping one id from a duplicate-free order shortens it by one exactly
      when the id occurs in it. */
  lemma {:induction false} MinusOneLength(s: seq<ConnId>, x: ConnId)
    requires Distinct(s)
    ensures |Minus(s, {x})| == if x in s then |s| - 1 else |s|
  {
    if s != [] {
      var init, last := s[..|s| - 1], s[|s| - 1];
      MinusOneLength(init, x);
      assert s == init + [last];
      assert last !in init;
    }
  }

  /** Removing two sets one after the other removes their union. */
  lemma {:induction false} MinusMinus(s: seq<ConnId>, a: set<ConnId>, b: set<ConnId>)
    ensures Minus(Minus(s, a), b) == Minus(s, a + b)
  {
    if s != [] {
      var init, last := s[..|s| - 1], s[|s| - 1];
      MinusMinus(init, a, b);
      if last in a {
        assert Minus(s, a) == Minus(init, a);
      } else {
        var m := Minus(init, a) + [last];
        assert Minus(s, a) == m;
        assert m[..|m| - 1] == Minus(init, a);
      }
    }
  }

  /** Ids in `extra` that do not occur in `s` make no difference. */
  lemma {:induction false} MinusAbsent(s: seq<ConnId>, gone: set<ConnId>, extra: set<ConnId>)
    requires forall x :: x in extra ==> x !in s
    ensures Minus(s, gone + extra) == Minus(s, gone)
  {
    if s != [] {
      MinusAbsent(s[..|s| - 1], gone, extra);
    }
  }

  // ---- Registry operations ------------------------------------------------

  /** Registration keeps the registry consistent and maps `id` to `sock`,
      leaving every other entry as it was. */
  lemma PutSpec(t: Registry, id: ConnId, sock: Socket)
    requires t.Valid()
    ensures Put(t, id, sock).Valid()
    ensures Put(t, id, sock).conns == t.conns[id := sock]
  {
    if id !in t.conns {
      var o := t.order + [id];
      forall i, j | 0 <= i < j < |o| ensures o[i] != o[j] {
        if j == |o| - 1 { assert o[i] in t.order; }
      }
    }
  }

  /** Removal is the map difference `conns - {id}`, keeps the registry
      consistent, and is idempotent: removing an absent id changes nothing. */
  lemma RemoveSpec(t: Registry, id: ConnId)
    requires t.Valid()
    ensures Remove(t, id).Valid()
    ensures Remove(t, id).conns == t.conns - {id}
    ensures Remove(t, id).order == Minus(t.order, {id})
    ensures Remove(Remove(t, id), id) == Remove(t, id)
    ensures id !in t.conns ==> Remove(t, id) == t
  {
    MinusDistinct(t.order, {id});
    forall x ensures x in Minus(t.order, {id}) <==> x in t.conns - {id} {
      MinusMember(t.order, {id}, x);
    }
    if id !in t.conns {
      MinusAbsent(t.order, {}, {id});
      assert {} + {id} == {id};
      MinusNone(t.order);
    }
  }

  lemma {:induction false} MinusNone(s: seq<ConnId>)
    ensures Minus(s, {}) == s
  {
    if s != [] {
      MinusNone(s[..|s| - 1]);
      assert s == s[..|s| - 1] + [s[|s| - 1]];
    }
  }

  lemma ElemsCons(ds: seq<ConnId>)
    requires ds != []
    ensures Elems(ds) == {ds[0]} + Elems(ds[1..])
  {
    assert ds == [ds[0]] + ds[1..];
  }

  lemma {:induction false} EvictAllValid(t: Registry, ds: seq<ConnId>)
    requires t.Valid()
    ensures EvictAll(t, ds).Valid()
    decreases ds
  {
    if ds != [] {
      RemoveSpec(t, ds[0]);
      EvictAllValid(Remove(t, ds[0]), ds[1..]);
    }
  }

  lemma {:induction false} EvictAllConns(t: Registry, ds: seq<ConnId>)
    requires t.Valid()
    ensures EvictAll(t, ds).conns == t.conns - Elems(ds)
    decreases ds
  {
    if ds != [] {
      RemoveSpec(t, ds[0]);
      EvictAllConns(Remove(t, ds[0]), ds[1..]);
      ElemsCons(ds);
    }
  }

  lemma {:induction false} EvictAllOrder(t: Registry, ds: seq<ConnId>)
    requires t.Valid()
    ensures EvictAll(t, ds).order == Minus(t.order, Elems(ds))
    decreases ds
  {
    if ds == [] {
      assert Elems(ds) == {};
      MinusNone(t.order);
    } else {
      var d, rest := ds[0], ds[1..];
      RemoveSpec(t, d);
      EvictAllOrder(Remove(t, d), rest);
      ElemsCons(ds);
      var R := Elems(rest);
      if d in t.conns {
        MinusMinus(t.order, {d}, R);
      } else {
        MinusAbsent(t.order, R, {d});
        assert R + {d} == Elems(ds);
      }
    }
  }

  /** The eviction loop removes exactly the listed ids, whatever the order
      or repetitions of the list: an id that is already gone costs nothing,
      and the survivors keep their order. */
  lemma EvictAllSpec(t: Registry, ds: seq<ConnId>)
    requires t.Valid()
    ensures EvictAll(t, ds).Valid()
    ensures EvictAll(t, ds).conns == t.conns - Elems(ds)
    ensures EvictAll(t, ds).order == Minus(t.order, Elems(ds))
  {
    EvictAllValid(t, ds);
    EvictAllConns(t, ds);
    EvictAllOrder(t, ds);
  }

  /** After a broadcast pass the registry is the old one minus exactly the
      recipients whose send failed: the sender and every recipient whose
      send succeeded keep their entry and their socket, and the iteration
      order of the survivors is unchanged. */
  lemma AfterPassSpec(t: Registry, sender: ConnId, failing: set<ConnId>)
    requires t.Valid()
    ensures AfterPass(t, sender, failing).Valid()
    ensures forall id :: id in AfterPass(t, sender, failing).conns <==>
      id in t.conns && (id == sender || id !in failing)
    ensures forall id :: id in AfterPass(t, sender, failing).conns ==>
      AfterPass(t, sender, failing).conns[id] == t.conns[id]
    ensures AfterPass(t, sender, failing).order == Minus(t.order, failing - {sender})
  {
    var failed := FailedRecipients(t, sender, failing);
    EvictAllSpec(t, failed);
    var F := Elems(failed);
    forall x ensures x in F <==> x in t.order && x != sender && x in failing {
      AmongMember(Recipients(t, sender), failing, x);
      MinusMember(t.order, {sender}, x);
    }
    // Both sets drop the same elements of `t.order`.
    var G := failing - {sender};
    MinusAbsent(t.order, F, G - F);
    MinusAbsent(t.order, G, F - G);
    assert F + (G - F) == G + (F - G);
  }

  /** In a pass every registered connection other than the sender gets
      exactly one send attempt, and the sender gets none. */
  lemma RecipientsSpec(t: Registry, sender: ConnId)
    requires t.Valid()
    ensures forall id :: id in Recipients(t, sender) <==> id in t.conns && id != sender
    ensures Distinct(Recipients(t, sender))
    ensures |Recipients(t, sender)| == if sender in t.conns then |t.conns| - 1 else |t.conns|
  {
    forall id ensures id in Recipients(t, sender) <==> id in t.conns && id != sender {
      MinusMember(t.order, {sender}, id);
    }
    MinusDistinct(t.order, {sender});
    MinusOneLength(t.order, sender);
    DistinctCard(t);
  }

  /** A duplicate-free sequence has as many distinct ids as entries. */
  lemma {:induction false} DistinctElemsCard(s: seq<ConnId>)
    requires Distinct(s)
    ensures |Elems(s)| == |s|
  {
    if s != [] {
      var init, last := s[..|s| - 1], s[|s| - 1];
      assert Distinct(init);
      DistinctElemsCard(init);
      assert s == init + [last];
      assert last !in init;
      assert Elems(s) == Elems(init) + {last};
    }
  }

  /** A consistent registry has as many keys as its order has entries. */
  lemma DistinctCard(t: Registry)
    requires t.Valid()
    ensures |t.conns| == |t.order|
  {
    DistinctElemsCard(t.order);
    assert t.conns.Keys == Elems(t.order);
  }

  lemma ElemsSnoc(s: seq<ConnId>, x: ConnId)
    ensures Elems(s + [x]) == Elems(s) + {x}
  {
  }

  lemma DistinctSnoc(s: seq<ConnId>, x: ConnId)
    requires Distinct(s) && x !in Elems(s)
    ensures Distinct(s + [x])
  {
  }

  /** One step of the eviction loop. */
  lemma EvictAllStep(t: Registry, ds: seq<ConnId>, i: nat)
    requires i < |ds|
    ensures EvictAll(t, ds[i..]) == EvictAll(Remove(t, ds[i]), ds[i + 1..])
  {
    assert ds[i..][1..] == ds[i + 1..];
  }

  /** Filtering a sequence extended by one element. */
  lemma MinusSnoc(s: seq<ConnId>, x: ConnId, gone: set<ConnId>)
    ensures Minus(s + [x], gone) == Minus(s, gone) + (if x in gone then [] else [x])
  {
    assert (s + [x])[..|s + [x]| - 1] == s;
  }

  lemma AmongSnoc(s: seq<ConnId>, x: ConnId, keep: set<ConnId>)
    ensures Among(s + [x], keep) == Among(s, keep) + (if x in keep then [x] else [])
  {
    assert (s + [x])[..|s + [x]| - 1] == s;
  }
}
