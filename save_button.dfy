/** The save button: validation of the flow before export, the exported document, and the
    button's enabled/label state. Everything here is a pure function of the node and edge
    lists; the `onError` callback becomes an `Err` result and the download is left out. */
module SaveButton {
  import opened FlowTypes
  import opened Seqs

  const TooFewNodesMessage := "Flow must have more than 1 node to be saved."
  const MultipleRootsMessage := "Cannot save Flow"
  const FormatVersion := "1.0.0"

  /** An exported node: only id, type, position and data. */
  datatype NodeRecord = NodeRecord(id: string, nodeType: string, position: Position, data: Payload)

  /** An exported edge: only id, source, target and type. */
  datatype EdgeRecord = EdgeRecord(id: string, source: string, target: string, edgeType: string)

  /** `createdAt` is the clock reading taken at save time, passed in by the caller. */
  datatype Metadata = Metadata(createdAt: string, version: string, totalNodes: nat, totalEdges: nat)

  /** The flattened document handed to the download. */
  datatype FlowDocument = FlowDocument(nodes: seq<NodeRecord>, edges: seq<EdgeRecord>, metadata: Metadata)

  // ---------------------------------------------------------------------------
  // Roots

  /** Whether some edge targets node `id` (`edges.some(edge => edge.target === id)`). */
  function TargetHasEdge(edges: seq<Edge>, id: string): (r: bool)
    ensures r <==> exists i :: 0 <= i < |edges| && edges[i].target == id
  {
    if edges == [] then false
    else edges[0].target == id || TargetHasEdge(edges[1..], id)
  }

  /** A root is a node that no edge targets. */
  ghost predicate IsRoot(edges: seq<Edge>, n: Node) {
    forall i :: 0 <= i < |edges| ==> edges[i].target != n.id
  }

  /** Two different positions of the node list hold roots. */
  ghost predicate HasTwoRoots(nodes: seq<Node>, edges: seq<Edge>) {
    exists i, j :: 0 <= i < j < |nodes| && IsRoot(edges, nodes[i]) && IsRoot(edges, nodes[j])
  }

  function WithoutIncoming(edges: seq<Edge>): Node -> bool {
    (n: Node) => !TargetHasEdge(edges, n.id)
  }

  /** `nodesWithoutIncoming`: the roots, in node-list order. */
  function Roots(nodes: seq<Node>, edges: seq<Edge>): (r: seq<Node>)
    ensures forall i :: 0 <= i < |r| ==> r[i] in nodes && IsRoot(edges, r[i])
    ensures forall i :: 0 <= i < |nodes| && IsRoot(edges, nodes[i]) ==> nodes[i] in r
  {
    Filter(nodes, WithoutIncoming(edges))
  }

  /** "More than one node without incoming connections" means two root positions. */
  lemma RootsMoreThanOne(nodes: seq<Node>, edges: seq<Edge>)
    ensures |Roots(nodes, edges)| > 1 <==> HasTwoRoots(nodes, edges)
  {
    FilterAtLeastTwo(nodes, WithoutIncoming(edges));
  }

  // ---------------------------------------------------------------------------
  // Export and its inverse

  function ToRecord(n: Node): NodeRecord {
    NodeRecord(n.id, n.nodeType, n.position, n.data)
  }

  function FromRecord(r: NodeRecord): Node {
    Node(r.id, r.nodeType, r.position, r.data)
  }

  function ToEdgeRecord(e: Edge): EdgeRecord {
    EdgeRecord(e.id, e.source, e.target, e.edgeType)
  }

  function FromEdgeRecord(r: EdgeRecord): Edge {
    Edge(r.id, r.source, r.target, r.edgeType)
  }

  /** The `nodes` list of the document: a projection of every node, in order. */
  function ExportNodes(nodes: seq<Node>): (r: seq<NodeRecord>)
    ensures |r| == |nodes|
    ensures forall i :: 0 <= i < |nodes| ==>
      r[i].id == nodes[i].id && r[i].nodeType == nodes[i].nodeType &&
      r[i].position == nodes[i].position && r[i].data == nodes[i].data
  {
    MapSeq(nodes, ToRecord)
  }

  /** The `edges` list of the document: a projection of every edge, in order. */
  function ExportEdges(edges: seq<Edge>): (r: seq<EdgeRecord>)
    ensures |r| == |edges|
    ensures forall i :: 0 <= i < |edges| ==>
      r[i].id == edges[i].id && r[i].source == edges[i].source &&
      r[i].target == edges[i].target && r[i].edgeType == edges[i].edgeType
  {
    MapSeq(edges, ToEdgeRecord)
  }

  /** Reading a document back into node and edge lists. */
  function ImportDocument(doc: FlowDocument): (seq<Node>, seq<Edge>) {
    (MapSeq(doc.nodes, FromRecord), MapSeq(doc.edges, FromEdgeRecord))
  }

  /** The metadata agrees with the document's own lists and carries the format version. */
  ghost predicate Consistent(doc: FlowDocument) {
    doc.metadata.totalNodes == |doc.nodes| &&
    doc.metadata.totalEdges == |doc.edges| &&
    doc.metadata.version == FormatVersion
  }

  // ---------------------------------------------------------------------------
  // validateAndSaveFlow

  /** Validates the flow and builds the document; the first failing check wins. */
  function SaveFlow(nodes: seq<Node>, edges: seq<Edge>, createdAt: string): (r: Result<FlowDocument>)
    ensures |nodes| <= 1 ==> r == Err(TooFewNodesMessage)
    ensures r.Err? ==> r.message == TooFewNodesMessage || r.message == MultipleRootsMessage
    ensures r.Ok? ==> Consistent(r.value) && r.value.metadata.createdAt == createdAt
    ensures r.Ok? ==> |r.value.nodes| == |nodes| && |r.value.edges| == |edges|
  {
    if |nodes| <= 1 then
      Err(TooFewNodesMessage)
    else if |Roots(nodes, edges)| > 1 then
      Err(MultipleRootsMessage)
    else
      Ok(FlowDocument(ExportNodes(nodes), ExportEdges(edges),
                      Metadata(createdAt, FormatVersion, |nodes|, |edges|)))
  }

  /** Saving succeeds exactly when there are at least two nodes and no two roots; with
      enough nodes, two roots are reported as "Cannot save Flow". */
  lemma SaveAcceptsExactly(nodes: seq<Node>, edges: seq<Edge>, createdAt: string)
    ensures SaveFlow(nodes, edges, createdAt).Ok? <==> 2 <= |nodes| && !HasTwoRoots(nodes, edges)
    ensures 2 <= |nodes| && HasTwoRoots(nodes, edges) ==>
      SaveFlow(nodes, edges, createdAt) == Err(MultipleRootsMessage)
  {
    RootsMoreThanOne(nodes, edges);
  }

  /** The exported document reads back as exactly the saved node and edge lists. */
  lemma {:induction false} SaveRoundTrip(nodes: seq<Node>, edges: seq<Edge>, createdAt: string)
    requires SaveFlow(nodes, edges, createdAt).Ok?
    ensures ImportDocument(SaveFlow(nodes, edges, createdAt).value) == (nodes, edges)
  {
    var doc := SaveFlow(nodes, edges, createdAt).value;
    var (ns, es) := ImportDocument(doc);
    assert ns == nodes by {
      forall i | 0 <= i < |nodes| ensures ns[i] == nodes[i] {
        assert ns[i] == FromRecord(doc.nodes[i]);
      }
    }
    assert es == edges by {
      forall i | 0 <= i < |edges| ensures es[i] == edges[i] {
        assert es[i] == FromEdgeRecord(doc.edges[i]);
      }
    }
  }

  // ---------------------------------------------------------------------------
  // getButtonState

  datatype Icon = SaveIcon | DownloadIcon

  datatype ButtonState = ButtonState(disabled: bool, text: string, icon: Icon)

  /** The button is disabled with "No Nodes to Save" or "Need More Nodes" below two nodes,
      and enabled with "Save Changes" and the download icon from two nodes on. */
  function GetButtonState(nodes: seq<Node>): (r: ButtonState)
    ensures r.disabled <==> |nodes| <= 1
    ensures r.disabled <==> r.icon == SaveIcon
    ensures |nodes| == 0 ==> r.text == "No Nodes to Save"
    ensures |nodes| == 1 ==> r.text == "Need More Nodes"
    ensures r.text == "Save Changes" <==> !r.disabled
  {
    if |nodes| == 0 then ButtonState(true, "No Nodes to Save", SaveIcon)
    else if |nodes| == 1 then ButtonState(true, "Need More Nodes", SaveIcon)
    else ButtonState(false, "Save Changes", DownloadIcon)
  }

  /** The button is disabled exactly when the first validation check would refuse the save. */
  lemma DisabledExactlyWhenTooFewNodes(nodes: seq<Node>, edges: seq<Edge>, createdAt: string)
    ensures GetButtonState(nodes).disabled <==> SaveFlow(nodes, edges, createdAt) == Err(TooFewNodesMessage)
  {
  }

  // ---------------------------------------------------------------------------
  // Scenarios

  function Sample(id: string): Node {
    Node(id, "textMessage", Position(0.0, 0.0), map["message" := id])
  }

  /** Two nodes and no edges: both are roots, so the save is refused. */
  lemma DisconnectedPairRejected(createdAt: string)
    ensures SaveFlow([Sample("a"), Sample("b")], [], createdAt) == Err(MultipleRootsMessage)
  {
  }

  /** A two-node cycle has no root at all and is accepted. */
  lemma CycleAccepted(createdAt: string)
    ensures SaveFlow([Sample("a"), Sample("b")],
                     [Edge("e1", "a", "b", "smoothstep"), Edge("e2", "b", "a", "smoothstep")],
                     createdAt).Ok?
  {
  }
}
