# Flow editor: state, save validation and connection gate

This project models the logic of a small browser flow editor (a chatbot
message-flow builder). Users drop "message" nodes on a canvas, connect them
with directed edges, edit a node's text in an inspector panel and press
Save, which validates the graph. Two pieces hold all of the logic:

- the root component (`src/App.jsx`) owns five pieces of state: the node
  list, the edge list, a cached copy of the selected node, an error banner
  text and a success banner text. Its event handlers update them.
- each node handle carries a connection gate (`src/components/CustomHandle.jsx`).
  The gate decides whether one more edge may attach to that handle, given
  the handle's limit and how many edges are already attached.

Files:

- `connection_gate.dfy` (module `ConnectionGate`): the gate as a pure
  predicate, the limits a message node uses, and lemmas about both.
- `flow.dfy` (module `Flow`): nodes, edges and positions as datatypes; the
  id of a dropped node (`type-timestamp`) with a proof that decimal
  printing can be read back; the label rewrite; and the save rule as a
  function `CheckSave`. The rule as the code computes it is a set of edge
  targets and a filter of nodes. It is proved equal to an independent
  statement: two different positions of the node list hold nodes that no
  edge points to (`TwoRoots`).
- `editor.dfy` (module `Editor`): class `FlowEditor` with the five state
  fields and one method per handler. Each method's postcondition states the
  whole new state. Five client methods (`DropSession`,
  `SaveOneNodeSession`, `SaveUnconnectedSession`, `SaveConnectedSession`, `EditSession`) drive the
  editor through drops, saves and an edit using only those postconditions.

Notes on the code:

- a node's text is stored in `data.label` (the inspector panel reads
  `data.message`, src/components/SettingsPanel.jsx:17).
- a dropped node's label starts as `"<type> node"`.
- there is no delete handler and no timed dismissal of notifications.
- save outcomes are two separate banner strings, `error` and `success`.

Inputs from the browser and the library are method parameters:

- the drop payload (`None` stands for `undefined`);
- the pointer's client coordinates;
- the canvas wrapper's left/top corner;
- the clock in milliseconds;
- the clicked node;
- the number of edges already on a handle.

Coordinates are integers.

## Model

| member | source | states |
|---|---|---|
| `ConnectionGate.IsConnectable` | src/components/CustomHandle.jsx:12 | the gate itself: limit -1 is always open; an open gate with any other limit leaves room for one more connection within the limit; a closed gate has a limit other than -1 that the count already reaches |
| `ConnectionGate.UnlimitedAlwaysConnectable` | src/components/CustomHandle.jsx:12 | a handle with limit -1 accepts a connection at every count |
| `ConnectionGate.ConnectableIffBelowLimit` | src/components/CustomHandle.jsx:12 | with any limit other than -1, the handle is connectable exactly when the count is below the limit |
| `ConnectionGate.DegenerateLimitNeverConnectable` | src/components/CustomHandle.jsx:12 | a limit of 0, or a negative limit other than -1, is never connectable |
| `ConnectionGate.ConnectableDownwardClosed` | src/components/CustomHandle.jsx:12 | if the gate is open at count n, it is open at every smaller count |
| `ConnectionGate.MessageSourceConnectableIffFree` | src/components/TextUpdaterNode.jsx:22-27 | a message node's source handle (limit 1) is connectable exactly when no edge is attached |
| `ConnectionGate.MessageTargetAlwaysConnectable` | src/components/TextUpdaterNode.jsx:28-33 | a message node's target handle (limit -1) is always connectable |
| `ConnectionGate.AfterAttempts` | src/components/CustomHandle.jsx:12 | after k gated connection attempts, the count has grown by at most k |
| `ConnectionGate.GatedCountStaysWithinLimit` | src/components/CustomHandle.jsx:12 | when every attempt is gated, a handle with a finite limit that starts within the limit never goes over it |
| `ConnectionGate.UnlimitedAcceptsEveryAttempt` | src/components/CustomHandle.jsx:12 | with limit -1, every one of k attempts attaches an edge |
| `Flow.Decimal` | src/App.jsx:72 | the timestamp's text in a node id is a non-empty string of decimal digits with no leading zero |
| `Flow.NodeId` | src/App.jsx:72 | the id of a dropped node is the type and a dash, followed by decimal digits that read back as the drop time |
| `Flow.DecimalRoundTrip` | src/App.jsx:72 | reading back the decimal text of a timestamp gives the timestamp |
| `Flow.NodeIdInjective` | src/App.jsx:72 | two nodes of the same type dropped at different milliseconds get different ids |
| `Flow.WithLabel` | src/App.jsx:91-97 | the relabelled copy of a node keeps its id, type and position and carries the new label |
| `Flow.Relabel` | src/App.jsx:88-94 | the rewritten node list has the same length and order. Nodes with another id are unchanged. Nodes with the selected id keep id, type and position and get the new label |
| `Flow.RelabelLastWins` | src/App.jsx:87-98 | two label edits in a row leave the same list as the second edit alone |
| `Flow.RelabelKeepsIds` | src/App.jsx:88-94 | a label edit keeps every node's id, so a node is a root before the edit exactly when it is a root after |
| `Flow.TargetIds` | src/App.jsx:109 | the set of edge targets misses a node's id exactly when no edge points to that node |
| `Flow.WithoutIncoming` | src/App.jsx:110-112 | the filter keeps exactly the nodes whose id is not an edge target, and never more nodes than the list has |
| `Flow.WithoutIncomingMoreThanOne` | src/App.jsx:109-113 | the filter keeps more than one node exactly when two different positions hold ids that are not edge targets |
| `Flow.TooManyWithoutIncomingIffTwoRoots` | src/App.jsx:108-113 | the target-set-and-filter test fires exactly when two different positions hold nodes that no edge points to |
| `Flow.CheckSave` | src/App.jsx:102-118 | "too few nodes" exactly when there are at most one node; "multiple roots" exactly when there are at least two nodes and two roots; "saved" exactly in the remaining case |
| `Flow.ErrorText` | src/App.jsx:105-117 | the error banner is empty exactly when the save succeeded |
| `Flow.SuccessText` | src/App.jsx:103-118 | the success banner is non-empty exactly when the save succeeded |
| `Flow.RelabelKeepsSaveOutcome` | src/App.jsx:87-118 | editing a label never changes what Save decides |
| `Flow.SingleRootSaves` | src/App.jsx:104-118 | a flow of two or more nodes where every node but one is an edge target saves successfully |
| `Editor.FlowEditor.constructor` | src/App.jsx:35-43 | the editor starts with no nodes, no edges, no selection and both banners empty |
| `Editor.FlowEditor.OnDrop` | src/App.jsx:55-81 | an undefined or empty type leaves the node list unchanged. Any other type appends exactly one node and keeps the old nodes as a prefix. The new node has id `type-now`, the dropped type, label `"<type> node"` and position (clientX - left, clientY - top). Nothing else changes |
| `Editor.FlowEditor.OnNodeClick` | src/App.jsx:83-85 | the selection becomes the clicked node; nodes, edges and banners are untouched |
| `Editor.FlowEditor.ClearSelection` | src/App.jsx:162-173 | the pane click (line 162) and the inspector's close (line 173) both clear the selection and touch nothing else |
| `Editor.FlowEditor.HandleNodeLabelChange` | src/App.jsx:87-99 | the node list is relabelled at the selected id, and the cached selection gets the same label. Afterwards every listed node with that id agrees with the selection on its data. Edges and banners are untouched |
| `Editor.FlowEditor.HandleSave` | src/App.jsx:102-120 | at most one node gives "Please add at least 2 nodes" with success empty. Two roots give the "Cannot save Flow" error with success empty. Otherwise the error is cleared and success is "Saved successfully!". Exactly one banner is non-empty afterwards. Nodes, edges and selection never change |

## Left out

- Rendering, styling, icons, the minimap and controls, and the drag-over handler (`src/App.jsx:50-53`): they call `preventDefault`, set the drag cursor effect, or draw.
- The palette with its drag payload (`src/components/NodesPanel.jsx`) and the inspector panel (`src/components/SettingsPanel.jsx`) are not part of this model. They are presentational. The panel reads `data.message` while the editor writes `data.label`; the model keeps `label` (called `text`, since `label` is a Dafny keyword) and adds no `message` field.
- The library's `addEdge` behind `onConnect` and its `onNodesChange`/`onEdgesChange`: library code that is not visible. These handlers do node moves, node deletion and edge removal. The model has no edge-creating or node-deleting operation; clients assign `edges` to stand for them.
- The library's own counting of a handle's connections (`useNodeConnections`): the count is a parameter of the gate.
- A handle with no limit given (an undefined limit) is not modelled: every handle in the code is given a number.
- The colour-mode query, `getBoundingClientRect` and `Date.now()`: their results are parameters.
- Floating-point pixel coordinates: coordinates are integers.
- React's batching of state updates: each handler's updates are applied at once, in order.
- Id uniqueness: two drops of the same type in the same millisecond get the same id, as in the code. Only injectivity in the timestamp is proved.
- Editor.FlowEditor.HandleNodeLabelChange: requires a selected node. The handler is only wired to the inspector, which is shown only while a node is selected. With no selection the code would fail reading `selectedNode.id`; that failure is not modelled.
