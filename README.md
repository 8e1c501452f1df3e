# Chatbot flow builder: graph store and save validation

This project models the logic of a visual chatbot-flow editor. The user drops text-message
nodes onto a canvas and connects them with directed edges. They can edit a node's payload,
delete nodes, or clear the canvas. Finally, they save the flow as a JSON document.

There are four modules:

- `FlowTypes` holds the records. A `Node` has an id, a type tag, a position and a payload
  (`map<string, string>`). An `Edge` has an id, a source id, a target id and a type tag.
  A `Connection` holds the parameters of a connect event.
- `Seqs` defines `Filter` and `MapSeq`, which stand for the array methods `filter` and
  `map` that the handlers use, together with their order and counting lemmas.
- `App` is the graph store. The class `FlowStore` has the four state cells (`nodes`,
  `edges`, `selected`, `error`). It has one method per handler: connect, drop, update,
  delete, clear all, select, deselect, dismiss the error, and save. The pure list
  computations these methods use are proved against the store's two invariants:
  - single outgoing edge: no two edges share a source;
  - referential integrity: every edge endpoint names an existing node.
- `SaveButton` is the validator and exporter, and it is pure:
  - a flow with at most one node is refused with "Flow must have more than 1 node to be
    saved.";
  - a flow with more than one root is refused with "Cannot save Flow" (a root is a node
    that no edge targets);
  - otherwise the function returns the flattened document and its metadata;
  - it also computes the button's disabled state, label and icon.

Behaviour worth noting:

- A dropped node's payload is `{title: "Send Message", message: "New message"}`.
- `deleteNode` always clears the selection, whichever node was selected.
- A refused connection sets the error message; the node list, the edge list and the
  selection stay as they were.

## Model

| member | source | states |
|---|---|---|
| `App.SourceHasEdge` | src/App.jsx:75 | true exactly when some edge of the list has the given source |
| `App.ConnectEdges` | src/App.jsx:75-88 | the existing edges are kept as a prefix; exactly one edge is added iff no edge had that source (the target and self-loops are not examined); the added edge carries the params' source and target and type `smoothstep`; afterwards the source has an outgoing edge; the single-outgoing-edge invariant is preserved |
| `App.FlowStore.Connect` | src/App.jsx:73-92 | the edge list becomes `ConnectEdges` of the old one; the error is the one-outgoing-connection message on refusal and cleared on acceptance; nodes and selection unchanged; the invariant is preserved |
| `App.MergeData` | src/App.jsx:146 | the merged payload has the keys of both maps; patch keys take the patch's values, other keys keep the old values |
| `App.UpdateNodes` | src/App.jsx:144-148 | same length and order; every node keeps id, type and position; nodes with the id get the merged data; all other nodes are identical; no match means no change |
| `App.UpdateKeepsIntegrity` | src/App.jsx:143-149 | editing node data keeps every edge's endpoints pointing at existing nodes |
| `App.FlowStore.UpdateNodeData` | src/App.jsx:143-149 | nodes become `UpdateNodes` of the old list; edges, selection and error unchanged; referential integrity preserved |
| `App.RemoveNode` | src/App.jsx:153 | the result holds only nodes of the input whose id differs, and every such node survives |
| `App.RemoveEdgesOf` | src/App.jsx:154 | the result holds only edges touching neither endpoint, and every such edge survives |
| `App.DeletionKeepsOrder` | src/App.jsx:153-154 | deletion distributes over concatenation and drops a single element exactly when it matches, so survivors keep their order |
| `App.DeleteAbsentIsNoOp` | src/App.jsx:152-156 | deleting an id that names no node leaves an integral graph unchanged |
| `App.DeleteKeepsIntegrity` | src/App.jsx:153-154 | after the cascade every remaining edge's endpoints still name remaining nodes |
| `App.FilterKeepsSingleOutgoing` | src/App.jsx:154 | filtering the edge list preserves "no two edges share a source" |
| `App.FlowStore.DeleteNode` | src/App.jsx:152-156 | nodes and edges become the filtered lists; selection cleared; error unchanged; both invariants preserved |
| `App.FlowStore.ClearAll` | src/App.jsx:159-164 | both lists empty, selection and error cleared |
| `App.FlowStore.Drop` | src/App.jsx:118-137 | an empty type or an uninitialised canvas changes nothing; otherwise exactly one node with the default payload is appended after the unchanged existing nodes |
| `App.FlowStore.SelectNode` | src/App.jsx:95-97 | the clicked node becomes the selection, nothing else changes |
| `App.FlowStore.Deselect` | src/App.jsx:100-102 | the selection is cleared, nothing else changes |
| `App.FlowStore.DismissError` | src/App.jsx:172 | the error is cleared, nothing else changes |
| `App.FlowStore.Save` | src/App.jsx:188-192 | `validateAndSaveFlow` with `onError` wired to the error cell: a refused save puts its message there and returns nothing; an accepted save returns the document; the lists are unchanged |
| `App.FlowStore.constructor` | src/App.jsx:23-68 | the store starts with the three initial nodes, the one initial edge, no selection and no error, and satisfies both invariants |
| `App.InitialFlow` | src/App.jsx:23-62 | the initial graph satisfies both invariants and has two roots, so saving it is refused with "Cannot save Flow" |
| `App.SecondOutgoingRefused` | src/App.jsx:75-88 | from no edges, A→B is accepted and A→C is then refused, leaving only A→B |
| `SaveButton.TargetHasEdge` | src/components/SaveButton.jsx:14 | true exactly when some edge targets the given id |
| `SaveButton.Roots` | src/components/SaveButton.jsx:13-15 | the result holds only nodes no edge targets, and every such node appears |
| `SaveButton.RootsMoreThanOne` | src/components/SaveButton.jsx:13-17 | more than one node without incoming edges iff two distinct positions hold roots |
| `SaveButton.ExportNodes` | src/components/SaveButton.jsx:24-29 | order- and length-preserving projection onto id, type, position and data |
| `SaveButton.ExportEdges` | src/components/SaveButton.jsx:30-35 | order- and length-preserving projection onto id, source, target and type |
| `SaveButton.SaveFlow` | src/components/SaveButton.jsx:5-42 | at most one node is refused with the too-few-nodes message before any other check; refusals carry only the two messages; the document's metadata counts match its lists, its version is 1.0.0 and its timestamp is the given one |
| `SaveButton.SaveAcceptsExactly` | src/components/SaveButton.jsx:7-20 | the save succeeds iff there are at least two nodes and no two roots (so zero roots is accepted); with two or more nodes, two roots give "Cannot save Flow" |
| `SaveButton.SaveRoundTrip` | src/components/SaveButton.jsx:23-35 | reading the exported document back gives exactly the saved node and edge lists; this is exact because the model's nodes and edges carry only the exported fields (the source's edges also hold `animated`, `style` and connection handles, which the export drops) |
| `SaveButton.GetButtonState` | src/components/SaveButton.jsx:56-64 | disabled iff fewer than two nodes; the label is "No Nodes to Save" for no nodes, "Need More Nodes" for one node and "Save Changes" otherwise; the save icon iff disabled |
| `SaveButton.DisabledExactlyWhenTooFewNodes` | src/components/SaveButton.jsx:56-64 | the button is disabled exactly when saving would be refused with the too-few-nodes message |
| `SaveButton.DisconnectedPairRejected` | src/components/SaveButton.jsx:13-20 | two nodes without edges are refused with "Cannot save Flow" |
| `SaveButton.CycleAccepted` | src/components/SaveButton.jsx:13-20 | a two-node cycle has no root and is accepted |

## Left out

- Rendering, styling, the nodes panel, the node component and the error notification's markup are presentation only.
- The settings panel's local text and delete-confirm state are left out. It forwards edits to `updateNodeData` and deletes to `deleteNode`, which are modelled.
- React hook semantics are not modelled: each handler is one atomic step. This covers the stale `edges` closure read by `onConnect` and batched state updates.
- The 3-second timer that clears a connection error is time-dependent and left out. `DismissError` models the same reset as one explicit step.
- The canvas library's own edits are foreign code and left out: dragging, keyboard deletion, and edge selection through `onNodesChange`/`onEdgesChange`.
- The library's `addEdge` is modelled as an append with a caller-supplied id. Its id scheme is left out. Its duplicate-edge check is never reached, because the source check refuses first. Its check for missing endpoints is left out.
- Connection handles (`sourceHandle`, `targetHandle`) are left out: they are copied into the edge and never read.
- The drop position is DOM and floating-point computation. It is a parameter, `position`.
- The readiness of the canvas instance is a parameter, `canvasReady`.
- The `Date.now()` node id is a parameter, `id`. Uniqueness of ids is therefore not guaranteed by the model.
- The `createdAt` timestamp is a parameter.
- JSON serialisation, URI encoding, the download file name and the link click are I/O and left out.
- JavaScript object key order inside a node's `data` is not modelled: a payload is a map.
- The edge fields `animated` and `style` are visual only and left out.
- `App.FlowStore.SelectNode`: the selection is a snapshot of the clicked node, as in the source. A later data edit does not refresh it.
- `App.FlowStore.Connect`: referential integrity is not claimed. The handler does not check that the endpoints name existing nodes; the canvas only offers existing ones.
- `App.FlowStore.Save`: the button's `disabled` attribute is not modelled, so `Save` can be called with fewer than two nodes and then reports the too-few-nodes message. In the app a disabled button cannot be clicked. `SaveButton.DisabledExactlyWhenTooFewNodes` states how the two relate.
