# Position relay: a Dafny model

This project models the relay server of a multiplayer parkour game
(`server.py`). The server keeps a registry `clients` of live WebSocket
connections. Each key is a connection id that the server assigns.
For every frame a connection sends, the handler does four things:
- it decodes the frame as JSON;
- it keeps only `"pos"` updates that carry `id`, `x`, `y` and `z`;
- it builds a normalised seven-key payload, filling in a default `name` and `color`;
- it sends the payload to every other registered connection.

Recipients whose send fails are collected during the pass and evicted once
the pass is over. When the connection's receive loop ends, its own entry is
removed if it is still there.

Modules:
- `Json` (json.dfy): the decoded JSON value and the outcome of decoding one frame.
- `Position` (position.dfy): validation and normalisation, as pure functions.
  `Classify` returns a `Verdict`. It tells apart the ways a frame is
  discarded and carries the payload when the frame is accepted.
- `Clients` (clients.dfy): the registry as a value. A Python dictionary
  iterates in insertion order, so a `Registry` is the key order plus the map.
  This module also defines the operations on it (`Put`, `Remove`, `EvictAll`,
  `AfterPass`) and their lemmas.
- `Server` (server.py's handler, in server.dfy):
  - the send loop `FanOut`;
  - the specification of one frame (`Step`), of a run of frames (`Steps`)
    and of a whole connection (`Session`);
  - the class `Relay`, whose fields `order` and `clients` are the global
    dictionary, and whose methods update them in place.

The network is an oracle. Each inbound frame comes with the set of
connection ids whose `send` will raise during the broadcast that frame
triggers (`Incoming.failing`). The receive loop's frames are a sequence
(`inbox`), and its end is the end of that sequence.

Rejected frames are not all logged the same way. A decoded object whose
`type` is missing or is not `"pos"` is dropped silently (server.py:17). A
`"pos"` object missing a required key is logged (server.py:19). `Verdict`
keeps the two cases apart as `NotPos` and `MissingField`.

## Model

| member | source | states |
|---|---|---|
| `Position.Classify` | server.py:15-30 | A frame is accepted iff it decodes to an object whose `type` is `"pos"` and that has `id`, `x`, `y`, `z`. An undecodable frame, a non-object and an object whose `type` is not "pos" are told apart as rejections. An accepted payload has exactly the keys type, id, name, x, y, z, color, with `type` = "pos", `id`/`x`/`y`/`z` copied, `name` defaulting to "Player" and `color` to "#3498db"; all other keys are dropped |
| `Position.NormaliseIdempotent` | server.py:22-30 | The outbound payload, read back as an inbound frame, is accepted and normalises to itself |
| `Position.MissingKeyRejected` | server.py:18-20 | A "pos" object lacking any of id, x, y, z is rejected as a missing field, whatever else it carries |
| `Clients.PutSpec` | server.py:9 | Registration keeps the registry consistent and maps the new id to its socket, leaving other entries alone |
| `Clients.RemoveSpec` | server.py:55-58 | Guarded deletion equals `conns - {id}`, keeps the key order of the rest, is idempotent, and is a no-op for an absent id |
| `Clients.EvictAllSpec` | server.py:42-45 | The eviction loop removes exactly the listed ids, whatever their order or repetitions; absent ids are skipped; survivors keep their order |
| `Clients.AfterPassSpec` | server.py:32-45 | After a pass the registry is the old one minus exactly the recipients whose send failed. The sender and every successful recipient keep their entry and socket |
| `Clients.RecipientsSpec` | server.py:34-37 | A pass tries each registered connection other than the sender exactly once (no duplicates) and never the sender. It makes n-1 attempts when the sender is one of n registered connections |
| `Clients.MinusMember` | server.py:34-35 | An id is in the filtered send order iff it is in the order and not excluded |
| `Clients.AmongMember` | server.py:38-40 | An id is collected as disconnected iff it was tried and its send failed |
| `Clients.DistinctCard` | server.py:5 | A consistent registry has as many keys as its iteration order has entries |
| `Server.FanOut` | server.py:32-40 | The send loop tries exactly the recipients of the registry as it stands at the start of the pass, in iteration order. The attempts do not depend on which sends fail. It collects exactly the failed recipients, in order |
| `Server.RejectedFrameIsInert` | server.py:15-20 | A frame that is not an accepted "pos" update (bad JSON, non-object, other type, missing field) leaves the registry unchanged |
| `Server.NoFailureNoEviction` | server.py:32-45 | A pass in which no send fails evicts nobody |
| `Server.StepsSpec` | server.py:13-50 | Any run of frames only removes entries. Survivors keep their sockets, and the sender's own entry is never removed by its own broadcasts |
| `Server.SessionSpec` | server.py:7-58 | When a handler finishes, its own id is no longer registered. No connection has been added, and every remaining connection keeps its socket |
| `Server.QuietSession` | server.py:7-58 | If no send fails during a connection's lifetime, the registry ends as it was before the connection arrived, without that id |
| `Server.RemovePut` | server.py:9 | Registering an id and then removing it is the same as removing it |
| `Server.QuietSteps` | server.py:32-45 | Frames whose broadcasts meet no failure leave the registry unchanged |
| `Server.TraceSpec` | server.py:13-50 | The per-frame record of a connection has one entry per frame. Entry i is the pass made for frame i, on the registry left by the frames before it: none for a rejected frame, every other registered connection for an accepted one |
| `Server.NoSelfEcho` | server.py:34-35 | Throughout a connection's lifetime none of its updates is sent back to it, and within each pass every other connection is tried at most once |
| `Server.DefaultsScenario` | server.py:22-30 | The update `{type:"pos", id:"a1", x:1, y:2, z:3}` is accepted with name "Player" and color "#3498db" and its id and coordinates copied |
| `Server.ThreeClientScenario` | server.py:32-45 | With A, B and C registered, an accepted update from A is tried on B and then C, never on A. With no failure the registry is unchanged |
| `Server.FailedPeerScenario` | server.py:32-45 | With A, B and C registered, if the send to B fails during A's broadcast, the registry afterwards holds exactly A and C, in that order, with their sockets |
| `Server.Relay.constructor` | server.py:5 | The registry starts empty |
| `Server.Relay.Accept` | server.py:8-9 | `clients[cid] = sock`: the new state is `Put` of the old one |
| `Server.Relay.Disconnect` | server.py:55-58 | Removes the id if present and reports whether it was. The new map is the old map minus that id |
| `Server.Relay.Evict` | server.py:42-45 | Runs the deferred eviction. The new map is the old map minus the listed ids. The ids actually deleted are distinct and are exactly the listed ids that were still registered |
| `Server.Relay.Broadcast` | server.py:32-45 | One pass: the attempts are the recipients of the old registry. The new state is `AfterPass` of the old one, and the evicted ids are distinct and exactly the failed recipients |
| `Server.Relay.HandleMessage` | server.py:14-50 | One frame: the verdict is `Classify` of the frame. The relay broadcasts only when the frame is accepted and otherwise changes nothing |
| `Server.Relay.HandleClient` | server.py:7-58 | One connection: register it, then handle every frame in order (a rejected frame does not end the loop), then remove its own entry. The new state is `Session` of the old one. The per-frame record of the connections tried is `Trace` of the frames (see `TraceSpec`, `NoSelfEcho`) |

## Left out

- Transport and event loop (`asyncio`, `websockets.serve`, `main`, the binding to 0.0.0.0:8765, server.py:60-65): I/O plumbing. Send outcomes are an oracle set of failing connection ids per frame, and a connection's frames are a finite sequence.
- Concurrency between handlers: other handlers can change `clients` during the `await` at server.py:37, and the resulting error is swallowed at server.py:49. The model runs each pass sequentially over the registry as it stands when the pass starts.
- Errors raised by the receive iteration itself (server.py:52-53) are modelled as the end of the frame sequence. The cleanup that follows is the same.
- Logging (`print`): not modelled. The `Verdict` cases keep apart the situations that are logged differently.
- JSON text: `json.loads` is modelled only by its outcome (`Inbound`). `json.dumps` is not modelled: the sent payload is the value `ToWire(p)`, and the key order of the serialised text is not kept, since an object is a map.
- Numbers are `real`. Float rounding and the non-standard NaN/Infinity literals are not modelled, because the relay only copies numbers.
- Server.FanOut: records each attempt by connection id. The socket addressed is that id's entry in the registry, and every attempt carries the payload of the frame's verdict. Neither is repeated in each record.
- Connection ids are taken as given keys. The model makes no claim that `str(id(websocket))` values are never reused.
- The game client scripts `sk.py` and `client.py` (movement, lane progress, timers, scoreboard, entity creation) are not part of this model. They are engine and UI code.
