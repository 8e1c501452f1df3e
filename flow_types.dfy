/** The records the flow editor keeps in its graph store and hands to the exporter. */
module FlowTypes {

  datatype Option<T> = None | Some(value: T)

  /** The outcome of an operation that can be refused with a user-facing message. */
  datatype Result<T> = Ok(value: T) | Err(message: string)

  /** A canvas position; the model never computes with it, it only carries it. */
  datatype Position = Position(x: real, y: real)

  /** A node's payload: the fields of its `data` object (`title`, `message`, ...). */
  type Payload = map<string, string>

  /** A flow node: id, the node type tag (`type` in the source), position and payload. */
  datatype Node = Node(id: string, nodeType: string, position: Position, data: Payload)

  /** A directed edge between two node ids, with its rendering type tag. */
  datatype Edge = Edge(id: string, source: string, target: string, edgeType: string)

  /** The parameters of a connect event: the source and target node ids. */
  datatype Connection = Connection(source: string, target: string)
}
