/** The parts of a process definition and of the task and instance rows that the engine's decisions look at. */
module Definitions {
  import opened Text

  /** Node types the engine distinguishes. A node that is not listed in the chain has type `Other("")`. */
  datatype NodeType =
    | Fork | Inclusive | Join
    | UserTask | AiAgent | Delay
    | Start | StartTask | End
    | Switch | JsSwitch | MsgTypeSwitch
    | Other(name: string)

  datatype Node = Node(id: Id, typ: NodeType, isAsync: bool)

  datatype Connection = Connection(fromId: Id, toId: Id, relation: string)

  datatype Chain = Chain(nodes: seq<Node>, connections: seq<Connection>, firstNodeIndex: int)

  /** The gateways that activate several branches at once. */
  predicate IsBranching(t: NodeType) {
    t == Fork || t == Inclusive
  }

  /** The gateways a rollback must not cross. */
  predicate IsGateway(t: NodeType) {
    t == Fork || t == Join || t == Inclusive
  }

  datatype TaskStatus =
    | Created | Assigned | Waiting | Pending | Active | Delegated | Suspended
    | Completed | Returned | Withdrawn | Terminated

  predicate IsTerminalTask(s: TaskStatus) {
    s == Completed || s == Terminated || s == Returned || s == Withdrawn
  }

  datatype Option<+T> = None | Some(value: T)
}
