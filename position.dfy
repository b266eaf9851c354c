/** Validation and normalisation of one inbound position update
    (server.py, lines 15-30). Pure functions of the decoded message. */
module Position {
  import opened Json

  const PosTag: Value := Str("pos")
  const DefaultName: Value := Str("Player")
  const DefaultColor: Value := Str("#3498db")

  /** The keys an accepted "pos" message must carry. */
  const Required: set<string> := {"id", "x", "y", "z"}

  /** The keys of every outbound payload, and no others. */
  const PayloadKeys: set<string> := {"type", "id", "name", "x", "y", "z", "color"}

  /** The normalised outbound update: the seven keys of the payload built by
      the relay, with "type" fixed to "pos" and so not stored. */
  datatype Payload = Payload(id: Value, name: Value, x: Value, y: Value, z: Value, color: Value)

  /** What the relay decides about one inbound frame. Only `Accepted` leads
      to a broadcast; every other verdict is logged and discarded. */
  datatype Verdict =
    | NotJson                   // decode error, caught and logged
    | NotObject                 // valid JSON but not an object: `.get` raises, caught and logged
    | NotPos                    // an object whose "type" is absent or not "pos": ignored silently
    | MissingField              // a "pos" object lacking one of `Required`: logged, skipped
    | Accepted(payload: Payload)

  /** `d.get(key, default)` on a decoded object. */
  function GetOr(fields: map<string, Value>, key: string, default: Value): Value {
    if key in fields then fields[key] else default
  }

  /** `data.get("type") == "pos"`. */
  predicate IsPos(fields: map<string, Value>) {
    "type" in fields && fields["type"] == PosTag
  }

  /** Builds the outbound payload from an object that has every required key. */
  function Normalise(fields: map<string, Value>): Payload
    requires Required <= fields.Keys
  {
    Payload(fields["id"], GetOr(fields, "name", DefaultName),
            fields["x"], fields["y"], fields["z"],
            GetOr(fields, "color", DefaultColor))
  }

  /** The payload as the JSON object that is serialised and sent. */
  function ToWire(p: Payload): Value {
    Obj(map["type" := PosTag, "id" := p.id, "name" := p.name,
            "x" := p.x, "y" := p.y, "z" := p.z, "color" := p.color])
  }

  /** Classifies one inbound frame. A frame is accepted exactly when it decodes
      to an object tagged "pos" that has "id", "x", "y" and "z"; the payload
      then has exactly the seven payload keys, copies "id", "x", "y" and "z",
      takes "name" and "color" from the message when present and otherwise
      the defaults, and drops every other key. */
  function Classify(m: Inbound): (r: Verdict)
    ensures r == NotJson <==> m.Undecodable?
    ensures r == NotObject <==> m.Decoded? && !m.v.Obj?
    ensures r == NotPos <==>
      m.Decoded? && m.v.Obj? && !("type" in m.v.fields && m.v.fields["type"] == Str("pos"))
    ensures r.Accepted? <==>
      m.Decoded? && m.v.Obj? && "type" in m.v.fields && m.v.fields["type"] == Str("pos")
      && "id" in m.v.fields && "x" in m.v.fields && "y" in m.v.fields && "z" in m.v.fields
    ensures r.Accepted? ==>
      var f, w := m.v.fields, ToWire(r.payload).fields;
      && w.Keys == PayloadKeys
      && w["type"] == Str("pos")
      && w["id"] == f["id"] && w["x"] == f["x"] && w["y"] == f["y"] && w["z"] == f["z"]
      && w["name"] == (if "name" in f then f["name"] else Str("Player"))
      && w["color"] == (if "color" in f then f["color"] else Str("#3498db"))
  {
    match m
    case Undecodable => NotJson
    case Decoded(v) =>
      if !v.Obj? then NotObject
      else if !IsPos(v.fields) then NotPos
      else if !(Required <= v.fields.Keys) then MissingField
      else Accepted(Normalise(v.fields))
  }

  /** The outbound payload is itself a valid inbound update, and the relay
      would forward it unchanged: normalisation is idempotent. */
  lemma NormaliseIdempotent(p: Payload)
    ensures Classify(Decoded(ToWire(p))) == Accepted(p)
  {
    var f := ToWire(p).fields;
    assert IsPos(f);
    assert Required <= f.Keys;
  }

  /** A "pos" object that lacks any required key is skipped, whatever else it carries. */
  lemma MissingKeyRejected(fields: map<string, Value>, k: string)
    requires IsPos(fields) && k in Required && k !in fields
    ensures Classify(Decoded(Obj(fields))) == MissingField
  {
  }
}
