/** The event stream a SAX reader delivers for a document. */
module Events {
  import opened JsonTree

  datatype Event =
    | StartObject
    | EndObject
    | StartArray
    | EndArray
    | Key(name: string)
    | StringValue(s: string)
    | IntValue(i: int)
    | DoubleValue(millionths: int)
    | BoolValue(b: bool)
    | NullValue

  function EventsOf(v: Json): seq<Event>
    decreases v, 1
  {
    match v
    case Null => [NullValue]
    case Bool(b) => [BoolValue(b)]
    case Int(i) => [IntValue(i)]
    case Dec(m) => [DoubleValue(m)]
    case Str(s) => [StringValue(s)]
    case Arr(elems) => [StartArray] + (ElemEvents(elems) + [EndArray])
    case Obj(members) => [StartObject] + (MemberEvents(members) + [EndObject])
  }

  function ElemEvents(elems: seq<Json>): seq<Event>
    decreases elems, 0
  {
    if elems == [] then [] else EventsOf(elems[0]) + ElemEvents(elems[1..])
  }

  function MemberEvents(ms: seq<Member>): seq<Event>
    decreases ms, 0
  {
    if ms == [] then [] else [Key(ms[0].name)] + (EventsOf(ms[0].value) + MemberEvents(ms[1..]))
  }
}
