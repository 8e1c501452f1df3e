/** The graph store of the flow editor: the node list, the edge list, the selected node and
    the error message, and the handlers that change them. Each handler is one atomic step;
    the list computations inside them are the pure functions declared first. */
module App {
  import opened FlowTypes
  import opened Seqs
  import SaveButton

  const TextMessageType := "textMessage"
  const ConnectionEdgeType := "smoothstep"
  const OneOutgoingMessage := "Each node can only have one outgoing connection!"

  /** The payload of a freshly dropped node. */
  const DefaultData: Payload := map["title" := "Send Message", "message" := "New message"]

  const InitialNodes: seq<Node> := [
    Node("1", TextMessageType, Position(250.0, 100.0),
         map["title" := "Send Message", "message" := "test message 1"]),
    Node("2", TextMessageType, Position(600.0, 50.0),
         map["title" := "Send Message", "message" := "test message 2"]),
    Node("3", TextMessageType, Position(600.0, 300.0),
         map["title" := "Send Message", "message" := "textNode"])
  ]

  const InitialEdges: seq<Edge> := [Edge("edge-1", "1", "2", ConnectionEdgeType)]

  // ---------------------------------------------------------------------------
  // Graph invariants

  ghost predicate HasNode(nodes: seq<Node>, id: string) {
    exists i :: 0 <= i < |nodes| && nodes[i].id == id
  }

  /** Referential integrity: every edge's endpoints name nodes of the list. */
  ghost predicate EdgesReferToNodes(nodes: seq<Node>, edges: seq<Edge>) {
    forall k :: 0 <= k < |edges| ==> HasNode(nodes, edges[k].source) && HasNode(nodes, edges[k].target)
  }

  /** The connection policy's invariant: no two edges share a source. */
  ghost predicate SingleOutgoing(edges: seq<Edge>) {
    forall i, j :: 0 <= i < j < |edges| ==> edges[i].source != edges[j].source
  }

  // ---------------------------------------------------------------------------
  // onConnect

  /** Whether some edge leaves `source` (`edges.some(edge => edge.source === source)`). */
  function SourceHasEdge(edges: seq<Edge>, source: string): (r: bool)
    ensures r <==> exists i :: 0 <= i < |edges| && edges[i].source == source
  {
    if edges == [] then false
    else edges[0].source == source || SourceHasEdge(edges[1..], source)
  }

  /** The edge list after a connect event: the new edge is appended unless its source
      already has an outgoing edge. Only the source is examined; the target and self-loops
      are not. */
  function ConnectEdges(edges: seq<Edge>, c: Connection, edgeId: string): (r: seq<Edge>)
    ensures edges <= r && |r| <= |edges| + 1
    ensures |r| == |edges| + 1 <==> !SourceHasEdge(edges, c.source)
    ensures |r| == |edges| + 1 ==> r[|edges|] == Edge(edgeId, c.source, c.target, ConnectionEdgeType)
    ensures SourceHasEdge(r, c.source)
    ensures SingleOutgoing(edges) ==> SingleOutgoing(r)
  {
    if SourceHasEdge(edges, c.source) then edges
    else edges + [Edge(edgeId, c.source, c.target, ConnectionEdgeType)]
  }

  // ---------------------------------------------------------------------------
  // updateNodeData

  /** `{ ...base, ...patch }`: the keys of both, the patch winning on shared keys. */
  function MergeData(base: Payload, patch: Payload): (r: Payload)
    ensures r.Keys == base.Keys + patch.Keys
    ensures forall k :: k in patch ==> r[k] == patch[k]
    ensures forall k :: k in base && k !in patch ==> r[k] == base[k]
  {
    base + patch
  }

  /** The node list after merging `patch` into the data of every node named `id`. */
  function UpdateNodes(nodes: seq<Node>, id: string, patch: Payload): (r: seq<Node>)
    ensures |r| == |nodes|
    ensures forall i :: 0 <= i < |nodes| ==>
      r[i].id == nodes[i].id && r[i].nodeType == nodes[i].nodeType && r[i].position == nodes[i].position
    ensures forall i :: 0 <= i < |nodes| && nodes[i].id == id ==> r[i].data == MergeData(nodes[i].data, patch)
    ensures forall i :: 0 <= i < |nodes| && nodes[i].id != id ==> r[i] == nodes[i]
    ensures (forall i :: 0 <= i < |nodes| ==> nodes[i].id != id) ==> r == nodes
  {
    MapSeq(nodes, (n: Node) => if n.id == id then n.(data := MergeData(n.data, patch)) else n)
  }

  /** Editing a node's data keeps every edge's endpoints valid. */
  lemma UpdateKeepsIntegrity(nodes: seq<Node>, edges: seq<Edge>, id: string, patch: Payload)
    requires EdgesReferToNodes(nodes, edges)
    ensures EdgesReferToNodes(UpdateNodes(nodes, id, patch), edges)
  {
  }

  // ---------------------------------------------------------------------------
  // deleteNode

  function NotNamed(id: string): Node -> bool {
    (n: Node) => n.id != id
  }

  function NotTouching(id: string): Edge -> bool {
    (e: Edge) => e.source != id && e.target != id
  }

  /** `nds.filter(node => node.id !== id)`. */
  function RemoveNode(nodes: seq<Node>, id: string): (r: seq<Node>)
    ensures forall i :: 0 <= i < |r| ==> r[i] in nodes && r[i].id != id
    ensures forall i :: 0 <= i < |nodes| && nodes[i].id != id ==> nodes[i] in r
  {
    Filter(nodes, NotNamed(id))
  }

  /** `eds.filter(edge => edge.source !== id && edge.target !== id)`. */
  function RemoveEdgesOf(edges: seq<Edge>, id: string): (r: seq<Edge>)
    ensures forall i :: 0 <= i < |r| ==> r[i] in edges && r[i].source != id && r[i].target != id
    ensures forall i :: 0 <= i < |edges| && edges[i].source != id && edges[i].target != id ==> edges[i] in r
  {
    Filter(edges, NotTouching(id))
  }

  /** Deletion keeps the survivors in their order: it works piece by piece, and on a single
      node or edge it drops exactly the ones that match. */
  lemma DeletionKeepsOrder(a: seq<Node>, b: seq<Node>, ea: seq<Edge>, eb: seq<Edge>, id: string)
    ensures RemoveNode(a + b, id) == RemoveNode(a, id) + RemoveNode(b, id)
    ensures RemoveEdgesOf(ea + eb, id) == RemoveEdgesOf(ea, id) + RemoveEdgesOf(eb, id)
    ensures |a| == 1 ==> RemoveNode(a, id) == if a[0].id == id then [] else a
    ensures |ea| == 1 ==> RemoveEdgesOf(ea, id) == if ea[0].source == id || ea[0].target == id then [] else ea
  {
    FilterConcat(a, b, NotNamed(id));
    FilterConcat(ea, eb, NotTouching(id));
    if |a| == 1 {
      assert a[1..] == [];
    }
    if |ea| == 1 {
      assert ea[1..] == [];
    }
  }

  /** Deleting a node that is not there changes neither list. */
  lemma DeleteAbsentIsNoOp(nodes: seq<Node>, edges: seq<Edge>, id: string)
    requires !HasNode(nodes, id)
    requires EdgesReferToNodes(nodes, edges)
    ensures RemoveNode(nodes, id) == nodes && RemoveEdgesOf(edges, id) == edges
  {
    FilterKeepsAll(nodes, NotNamed(id));
    forall k | 0 <= k < |edges| ensures NotTouching(id)(edges[k]) {
      var a :| 0 <= a < |nodes| && nodes[a].id == edges[k].source;
      var b :| 0 <= b < |nodes| && nodes[b].id == edges[k].target;
    }
    FilterKeepsAll(edges, NotTouching(id));
  }

  /** The deletion cascade keeps referential integrity. */
  lemma DeleteKeepsIntegrity(nodes: seq<Node>, edges: seq<Edge>, id: string)
    requires EdgesReferToNodes(nodes, edges)
    ensures EdgesReferToNodes(RemoveNode(nodes, id), RemoveEdgesOf(edges, id))
  {
  }

  /** Any filter of the edge list keeps the single-outgoing-edge invariant. */
  lemma {:induction false} FilterKeepsSingleOutgoing(edges: seq<Edge>, keep: Edge -> bool)
    requires SingleOutgoing(edges)
    ensures SingleOutgoing(Filter(edges, keep))
  {
    if edges != [] {
      var t := edges[1..];
      FilterKeepsSingleOutgoing(t, keep);
      if keep(edges[0]) {
        var ft := Filter(t, keep);
        var r := [edges[0]] + ft;
        forall i, j | 0 <= i < j < |r| ensures r[i].source != r[j].source {
          if i == 0 {
            assert r[j] == ft[j - 1];
            var m :| 0 <= m < |t| && t[m] == ft[j - 1];
            assert t[m] == edges[m + 1];
          } else {
            assert r[i] == ft[i - 1] && r[j] == ft[j - 1];
          }
        }
      }
    }
  }

  // ---------------------------------------------------------------------------
  // The initial flow

  /** The starting graph satisfies both invariants and has two roots ("1" and "3"), so it
      cannot be saved as it is. */
  lemma InitialFlow(createdAt: string)
    ensures SingleOutgoing(InitialEdges) && EdgesReferToNodes(InitialNodes, InitialEdges)
    ensures SaveButton.SaveFlow(InitialNodes, InitialEdges, createdAt) == Err(SaveButton.MultipleRootsMessage)
  {
    assert InitialNodes[0].id == "1" && InitialNodes[1].id == "2";
    assert SaveButton.IsRoot(InitialEdges, InitialNodes[0]);
    assert SaveButton.IsRoot(InitialEdges, InitialNodes[2]);
    SaveButton.SaveAcceptsExactly(InitialNodes, InitialEdges, createdAt);
  }

  // ---------------------------------------------------------------------------
  // The store

  class FlowStore {
    var nodes: seq<Node>
    var edges: seq<Edge>
    /** The node last clicked, as it was when clicked. */
    var selected: Option<Node>
    var error: Option<string>

    constructor ()
      ensures nodes == InitialNodes && edges == InitialEdges
      ensures selected == None && error == None
      ensures SingleOutgoing(edges) && EdgesReferToNodes(nodes, edges)
    {
      nodes := InitialNodes;
      edges := InitialEdges;
      selected := None;
      error := None;
      InitialFlow("");
    }

    /** onConnect: refuses a second outgoing edge from the same source with an error, and
        otherwise appends the edge and clears the error. */
    method Connect(c: Connection, edgeId: string)
      modifies this
      ensures edges == ConnectEdges(old(edges), c, edgeId)
      ensures error == if SourceHasEdge(old(edges), c.source) then Some(OneOutgoingMessage) else None
      ensures nodes == old(nodes) && selected == old(selected)
      ensures old(SingleOutgoing(edges)) ==> SingleOutgoing(edges)
    {
      if SourceHasEdge(edges, c.source) {
        error := Some(OneOutgoingMessage);
        return;
      }
      edges := edges + [Edge(edgeId, c.source, c.target, ConnectionEdgeType)];
      error := None;
    }

    /** onNodeClick. */
    method SelectNode(n: Node)
      modifies this
      ensures selected == Some(n)
      ensures nodes == old(nodes) && edges == old(edges) && error == old(error)
    {
      selected := Some(n);
    }

    /** onPaneClick. */
    method Deselect()
      modifies this
      ensures selected == None
      ensures nodes == old(nodes) && edges == old(edges) && error == old(error)
    {
      selected := None;
    }

    /** The error notification's close action. */
    method DismissError()
      modifies this
      ensures error == None
      ensures nodes == old(nodes) && edges == old(edges) && selected == old(selected)
    {
      error := None;
    }

    /** onDrop: with a non-empty node type and an initialised canvas, appends one node
        carrying the default payload; otherwise does nothing. */
    method Drop(nodeType: string, canvasReady: bool, id: string, position: Position)
      modifies this
      ensures nodeType == "" || !canvasReady ==> nodes == old(nodes)
      ensures nodeType != "" && canvasReady ==> nodes == old(nodes) + [Node(id, nodeType, position, DefaultData)]
      ensures edges == old(edges) && selected == old(selected) && error == old(error)
      ensures old(EdgesReferToNodes(nodes, edges)) ==> EdgesReferToNodes(nodes, edges)
    {
      if nodeType == "" || !canvasReady {
        return;
      }
      ghost var before := nodes;
      nodes := nodes + [Node(id, nodeType, position, DefaultData)];
      assert forall i :: 0 <= i < |before| ==> nodes[i] == before[i];
    }

    /** updateNodeData: merges `patch` into the data of the nodes named `id`. */
    method UpdateNodeData(id: string, patch: Payload)
      modifies this
      ensures nodes == UpdateNodes(old(nodes), id, patch)
      ensures edges == old(edges) && selected == old(selected) && error == old(error)
      ensures old(EdgesReferToNodes(nodes, edges)) ==> EdgesReferToNodes(nodes, edges)
    {
      if EdgesReferToNodes(nodes, edges) {
        UpdateKeepsIntegrity(nodes, edges, id, patch);
      }
      nodes := UpdateNodes(nodes, id, patch);
    }

    /** deleteNode: removes the nodes named `id` and every edge touching `id`, and clears
        the selection. */
    method DeleteNode(id: string)
      modifies this
      ensures nodes == RemoveNode(old(nodes), id)
      ensures edges == RemoveEdgesOf(old(edges), id)
      ensures selected == None && error == old(error)
      ensures old(SingleOutgoing(edges)) ==> SingleOutgoing(edges)
      ensures old(EdgesReferToNodes(nodes, edges)) ==> EdgesReferToNodes(nodes, edges)
    {
      if SingleOutgoing(edges) {
        FilterKeepsSingleOutgoing(edges, NotTouching(id));
      }
      if EdgesReferToNodes(nodes, edges) {
        DeleteKeepsIntegrity(nodes, edges, id);
      }
      nodes := RemoveNode(nodes, id);
      edges := RemoveEdgesOf(edges, id);
      selected := None;
    }

    /** clearAllNodes. */
    method ClearAll()
      modifies this
      ensures nodes == [] && edges == [] && selected == None && error == None
      ensures SingleOutgoing(edges) && EdgesReferToNodes(nodes, edges)
    {
      nodes := [];
      edges := [];
      selected := None;
      error := None;
    }

    /** validateAndSaveFlow with its `onError` callback wired to the error cell: a refused
        save reports its message there; an accepted one yields the document and leaves the
        store as it was. The button's disabled state is not consulted here. */
    method Save(createdAt: string) returns (doc: Option<SaveButton.FlowDocument>)
      modifies this
      ensures nodes == old(nodes) && edges == old(edges) && selected == old(selected)
      ensures SaveButton.SaveFlow(nodes, edges, createdAt).Ok? ==>
        doc == Some(SaveButton.SaveFlow(nodes, edges, createdAt).value) && error == old(error)
      ensures SaveButton.SaveFlow(nodes, edges, createdAt).Err? ==>
        doc == None && error == Some(SaveButton.SaveFlow(nodes, edges, createdAt).message)
    {
      var r := SaveButton.SaveFlow(nodes, edges, createdAt);
      if r.Err? {
        error := Some(r.message);
        doc := None;
      } else {
        doc := Some(r.value);
      }
    }
  }

  // ---------------------------------------------------------------------------
  // Scenario

  /** From an empty edge list, A→B is accepted and A→C is then refused: only A→B remains. */
  lemma SecondOutgoingRefused()
    ensures ConnectEdges(ConnectEdges([], Connection("A", "B"), "e1"), Connection("A", "C"), "e2")
            == [Edge("e1", "A", "B", ConnectionEdgeType)]
  {
  }
}
