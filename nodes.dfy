/**
 * The node records a traced program is turned into, and the session they
 * belong to. Each node variant is one constructor of a closed sum type; the
 * fields every node shares (id, session, source span, stored value) sit in
 * the enclosing `Node`.
 */
module Nodes {
  import opened Wrappers
  import opened Ids

  /** A Python runtime object; nothing about it is inspected here. */
  type Value(==)

  /** Source position of the code a node was traced from; each part may be unknown. */
  datatype Span = Span(
    lineno: Option<int>,
    colOffset: Option<int>,
    endLineno: Option<int>,
    endColOffset: Option<int>)

  datatype Library = Library(id: Id, name: string, version: Option<string>, path: Option<string>)

  datatype StateDependencyType = Read | Write

  datatype NodeKind =
    | CallNode(
        functionName: string,
        functionModule: Option<Id>,
        locallyDefinedFunctionId: Option<Id>,
        arguments: seq<Id>,
        assignedVariableName: Option<string>,
        globalReads: seq<(string, Id)>)
    | ArgumentNode(
        keyword: Option<string>,
        positionalOrder: Option<int>,
        valueNodeId: Option<Id>,
        valueLiteral: Option<Value>)
    | ImportNode(
        library: Library,
        attributes: Option<seq<(string, string)>>,
        alias: Option<string>,
        moduleValue: Option<Value>)
    | VariableNode(sourceVariableId: Id)
    | DataSourceNode(accessPath: string)
    | StateChangeNode(
        stateDependencyType: StateDependencyType,
        associatedNodeId: Id,
        initialValueNodeId: Id)
    | LoopNode(importNodes: Option<seq<Id>>, inputStateChangeNodes: Option<seq<Id>>)
    | ConditionNode(importNodes: Option<seq<Id>>, inputStateChangeNodes: Option<seq<Id>>)
    | FunctionDefinitionNode(importNodes: Option<seq<Id>>, inputStateChangeNodes: Option<seq<Id>>)

  /** One recorded computation or binding step. */
  datatype Node = Node(id: Id, sessionId: Id, span: Span, value: Option<Value>, kind: NodeKind)

  datatype SessionType = Jupyter | Script | Static

  /** Metadata and source text of one traced program run. */
  datatype SessionContext = SessionContext(
    id: Id,
    environmentType: SessionType,
    fileName: string,
    code: string,
    sessionName: Option<string>,
    userName: Option<string>,
    libraries: seq<Library>)
}
