/**
 The state of the flow editor's root component (src/App.jsx) and the event
 handlers that change it. The node and edge lists, the cached selected node
 and the two banner texts are fields; each handler is a method.

 What the browser or the rendering library supplies (the dropped type, the
 pointer and canvas coordinates, the clock, the clicked node) is passed in.
 The edge list is changed only by the library's connect and change handlers,
 which are not part of this model; clients assign `edges` directly to stand
 for them.
 */
module Editor {
  import opened Flow

  class FlowEditor {
    var nodes: seq<Node>
    var edges: seq<Edge>
    var selectedNode: Option<Node>
    var error: string
    var success: string

    /**
     At most one banner has text: a save attempt always clears the other one.
     Every reachable state satisfies it; it documents that the error and the
     success banner are never both set, and no other contract depends on it.
     */
    ghost predicate Valid()
      reads this
    {
      error == "" || success == ""
    }

    /** The editor starts with an empty flow, nothing selected and no banner. */
    constructor ()
      ensures Valid()
      ensures nodes == [] && edges == [] && selectedNode == None
      ensures error == "" && success == ""
    {
      nodes := [];
      edges := [];
      selectedNode := None;
      error := "";
      success := "";
    }

    /**
     A palette entry dropped on the canvas. `dropped` is the drag payload
     (None when it is undefined), `(clientX, clientY)` the pointer and
     `(left, top)` the canvas wrapper's corner on screen, `now` the clock in
     milliseconds.
     */
    method OnDrop(dropped: Option<string>, clientX: int, clientY: int, left: int, top: int, now: nat)
      requires Valid()
      modifies this`nodes
      ensures Valid()
      ensures dropped == None || dropped == Some("") ==> nodes == old(nodes)
      ensures dropped != None && dropped != Some("") ==>
        && |nodes| == |old(nodes)| + 1
        && nodes[..|old(nodes)|] == old(nodes)
        && nodes[|old(nodes)|].id == NodeId(dropped.value, now)
        && nodes[|old(nodes)|].kind == dropped.value
        && nodes[|old(nodes)|].position == Position(clientX - left, clientY - top)
        && nodes[|old(nodes)|].data.text == dropped.value + " node"
    {
      if dropped.None? || dropped.value == "" {
        return;
      }
      var kind := dropped.value;
      var position := Position(clientX - left, clientY - top);
      var newNode := Node(NodeId(kind, now), kind, position, NodeData(kind + " node"));
      nodes := nodes + [newNode];
    }

    /** A click on a node selects (a copy of) that node. */
    method OnNodeClick(node: Node)
      requires Valid()
      modifies this`selectedNode
      ensures Valid()
      ensures selectedNode == Some(node)
    {
      selectedNode := Some(node);
    }

    /** A click on the empty canvas, or the inspector's Back button, clears the selection. */
    method ClearSelection()
      requires Valid()
      modifies this`selectedNode
      ensures Valid()
      ensures selectedNode == None
    {
      selectedNode := None;
    }

    /**
     The inspector's text field changed. The handler is only reachable while
     a node is selected (the inspector is shown only then); with no
     selection the code would fail reading the id of null.
     */
    method HandleNodeLabelChange(newLabel: string)
      requires Valid() && selectedNode.Some?
      modifies this`nodes, this`selectedNode
      ensures Valid()
      ensures nodes == Relabel(old(nodes), old(selectedNode).value.id, newLabel)
      ensures selectedNode == Some(WithLabel(old(selectedNode).value, newLabel))
      ensures forall i :: 0 <= i < |nodes| && nodes[i].id == selectedNode.value.id ==>
        nodes[i].data == selectedNode.value.data
    {
      var id := selectedNode.value.id;
      nodes := Relabel(nodes, id, newLabel);
      selectedNode := Some(WithLabel(selectedNode.value, newLabel));
    }

    /** The Save button: validate the flow and set exactly one banner. */
    method HandleSave()
      requires Valid()
      modifies this`error, this`success
      ensures Valid()
      ensures |nodes| <= 1 ==> error == TooFewNodesMessage && success == ""
      ensures |nodes| >= 2 && TwoRoots(nodes, edges) ==> error == MultipleRootsMessage && success == ""
      ensures |nodes| >= 2 && !TwoRoots(nodes, edges) ==> error == "" && success == SavedMessage
      ensures (error == "") != (success == "")
      ensures error == ErrorText(CheckSave(nodes, edges)) && success == SuccessText(CheckSave(nodes, edges))
    {
      success := "";
      if |nodes| <= 1 {
        error := TooFewNodesMessage;
        return;
      }
      var withIncoming := TargetIds(edges);
      var withoutIncoming := WithoutIncoming(nodes, withIncoming);
      TooManyWithoutIncomingIffTwoRoots(nodes, edges);
      if |withoutIncoming| > 1 {
        error := MultipleRootsMessage;
        return;
      }
      error := "";
      success := SavedMessage;
    }
  }

  /** Drops: an empty payload is ignored; a node lands at the pointer less the canvas corner. */
  method DropSession()
  {
    var editor := new FlowEditor();
    editor.OnDrop(None, 150, 80, 50, 30, 1000);
    editor.OnDrop(Some(""), 150, 80, 50, 30, 1000);
    assert editor.nodes == [];
    editor.OnDrop(Some("textUpdater"), 150, 80, 50, 30, 1000);
    assert editor.nodes[0].position == Position(100, 50);
    assert editor.nodes[0].data.text == "textUpdater node";
  }

  /** A single node is too few to save. */
  method SaveOneNodeSession()
  {
    var editor := new FlowEditor();
    editor.OnDrop(Some("textUpdater"), 150, 80, 50, 30, 1000);
    editor.HandleSave();
    assert editor.error == TooFewNodesMessage && editor.success == "";
  }

  /** Two unconnected nodes are two roots, so the flow cannot be saved. */
  method SaveUnconnectedSession()
  {
    var editor := new FlowEditor();
    editor.OnDrop(Some("textUpdater"), 150, 80, 50, 30, 1000);
    editor.OnDrop(Some("textUpdater"), 300, 80, 50, 30, 2000);
    assert IsRoot(editor.nodes[0], []) && IsRoot(editor.nodes[1], []);
    assert TwoRoots(editor.nodes, editor.edges);
    editor.HandleSave();
    assert editor.error == MultipleRootsMessage && editor.success == "";
  }

  /** Two nodes with an edge from the first to the second have one root and save. */
  method SaveConnectedSession()
  {
    var editor := new FlowEditor();
    editor.OnDrop(Some("textUpdater"), 150, 80, 50, 30, 1000);
    editor.OnDrop(Some("textUpdater"), 300, 80, 50, 30, 2000);
    editor.edges := [Edge("e-ab", editor.nodes[0].id, editor.nodes[1].id)];
    SingleRootSaves(editor.nodes, editor.edges, 0);
    editor.HandleSave();
    assert editor.error == "" && editor.success == SavedMessage;
  }

  /** Editing the selected node's text updates the list and the selection alike. */
  method EditSession()
  {
    var editor := new FlowEditor();
    editor.OnDrop(Some("textUpdater"), 150, 80, 50, 30, 1000);
    editor.OnDrop(Some("textUpdater"), 300, 80, 50, 30, 2000);
    var a, b := editor.nodes[0], editor.nodes[1];
    assert a.id != b.id by {
      if a.id == b.id {
        NodeIdInjective("textUpdater", 1000, 2000);
      }
    }
    editor.OnNodeClick(a);
    editor.HandleNodeLabelChange("hi");
    assert editor.nodes[0].data.text == "hi" && editor.selectedNode.value.data.text == "hi";
    assert editor.nodes[1] == b;
    editor.ClearSelection();
    assert editor.selectedNode == None;
  }
}
