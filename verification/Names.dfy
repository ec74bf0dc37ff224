/** Opaque identifiers. The server compares them and nothing else. */
module Names {
  datatype Option<+T> = None | Some(value: T)

  datatype SessionId = SessionId(hex: string)

  /** A v1 route id or a v2 route tag. */
  datatype RouteId = RouteId(tag: string)

  /** A configured mesh node. */
  datatype NodeId = NodeId(text: string)

  /** A dedupe key. */
  datatype Key = Key(text: string)
}
