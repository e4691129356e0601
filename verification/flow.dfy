/**
 The values the flow editor's root component (src/App.jsx) works on: nodes
 and edges, the id and shape of a node created by a drop, the label rewrite
 done by the inspector, and the rule that decides whether a flow may be saved.
 */
module Flow {

  datatype Option<T> = None | Some(value: T)

  /** A canvas-space position. Browser pixel coordinates are modelled as integers. */
  datatype Position = Position(x: int, y: int)

  /** A node's data; `text` is the code's `label` field (`label` is a Dafny keyword). */
  datatype NodeData = NodeData(text: string)

  /** A node of the flow; `kind` is the node type (`type` is a Dafny keyword). */
  datatype Node = Node(id: string, kind: string, position: Position, data: NodeData)

  /** A directed edge from the node with id `source` to the node with id `target`. */
  datatype Edge = Edge(id: string, source: string, target: string)

  // ---------------------------------------------------------------------------
  // Node ids: the node type, a dash and the drop time in milliseconds

  predicate IsDigit(c: char) { '0' <= c <= '9' }

  predicate AllDigits(s: string) { forall i :: 0 <= i < |s| ==> IsDigit(s[i]) }

  function DigitChar(d: nat): (c: char)
    requires d < 10
    ensures IsDigit(c) && c as int - '0' as int == d
  {
    ('0' as int + d) as char
  }

  /** The decimal text of `n` without leading zeros, as a template literal prints an integer. */
  function Decimal(n: nat): (s: string)
    ensures 1 <= |s| && AllDigits(s)
    ensures n > 0 ==> s[0] != '0'
    decreases n
  {
    if n < 10 then [DigitChar(n)] else Decimal(n / 10) + [DigitChar(n % 10)]
  }

  /** The number a string of decimal digits denotes. */
  function DecimalValue(s: string): nat
    requires AllDigits(s)
  {
    if s == [] then 0 else 10 * DecimalValue(s[..|s| - 1]) + (s[|s| - 1] as int - '0' as int)
  }

  /** Reading back the decimal text of `n` gives `n`. */
  lemma {:induction false} DecimalRoundTrip(n: nat)
    ensures DecimalValue(Decimal(n)) == n
    decreases n
  {
    if n >= 10 {
      var s := Decimal(n);
      assert s[..|s| - 1] == Decimal(n / 10);
      DecimalRoundTrip(n / 10);
    }
  }

  /**
   The id given to a node of type `kind` dropped at time `now`: the type and
   a dash, followed by digits from which the drop time can be read back.
   */
  function NodeId(kind: string, now: nat): (id: string)
    ensures |id| > |kind| + 1 && id[..|kind| + 1] == kind + "-"
    ensures AllDigits(id[|kind| + 1..]) && DecimalValue(id[|kind| + 1..]) == now
  {
    var id := kind + "-" + Decimal(now);
    assert id[|kind| + 1..] == Decimal(now);
    DecimalRoundTrip(now);
    id
  }

  /** Two nodes of one type dropped at different times get different ids. */
  lemma NodeIdInjective(kind: string, now1: nat, now2: nat)
    requires NodeId(kind, now1) == NodeId(kind, now2)
    ensures now1 == now2
  {
    var id := NodeId(kind, now1);
    assert DecimalValue(id[|kind| + 1..]) == now1;
  }

  // ---------------------------------------------------------------------------
  // Relabelling the selected node

  /** A copy of node `n` whose label is `newLabel`; everything else is kept. */
  function WithLabel(n: Node, newLabel: string): (r: Node)
    ensures r.id == n.id && r.kind == n.kind && r.position == n.position
    ensures r.data.text == newLabel
  {
    n.(data := n.data.(text := newLabel))
  }

  /** The node list after the nodes with id `id` get the label `newLabel`. */
  function Relabel(nodes: seq<Node>, id: string, newLabel: string): (r: seq<Node>)
    ensures |r| == |nodes|
    ensures forall i :: 0 <= i < |nodes| && nodes[i].id != id ==> r[i] == nodes[i]
    ensures forall i :: 0 <= i < |nodes| && nodes[i].id == id ==>
      r[i].id == id && r[i].kind == nodes[i].kind && r[i].position == nodes[i].position && r[i].data.text == newLabel
  {
    seq(|nodes|, i requires 0 <= i < |nodes| => if nodes[i].id == id then WithLabel(nodes[i], newLabel) else nodes[i])
  }

  /** Only the last of several edits of one node's label survives. */
  lemma RelabelLastWins(nodes: seq<Node>, id: string, first: string, second: string)
    ensures Relabel(Relabel(nodes, id, first), id, second) == Relabel(nodes, id, second)
  {
    var a, b := Relabel(Relabel(nodes, id, first), id, second), Relabel(nodes, id, second);
    forall i | 0 <= i < |nodes| ensures a[i] == b[i] {
    }
  }

  /** Relabelling keeps every node's id, and so does not change which nodes are roots. */
  lemma RelabelKeepsIds(nodes: seq<Node>, id: string, newLabel: string, edges: seq<Edge>)
    ensures forall i :: 0 <= i < |nodes| ==> Relabel(nodes, id, newLabel)[i].id == nodes[i].id
    ensures forall i :: 0 <= i < |nodes| ==> (IsRoot(Relabel(nodes, id, newLabel)[i], edges) <==> IsRoot(nodes[i], edges))
  {
  }

  // ---------------------------------------------------------------------------
  // The save rule

  /** The ids some edge points to: a node's id is missing from them exactly when the node is a root. */
  function TargetIds(edges: seq<Edge>): (ids: set<string>)
    ensures forall n: Node :: n.id !in ids <==> IsRoot(n, edges)
  {
    TargetSetMissesExactlyRoots(edges);
    set e | e in edges :: e.target
  }

  lemma TargetSetMissesExactlyRoots(edges: seq<Edge>)
    ensures forall n: Node :: n.id !in (set e | e in edges :: e.target) <==> IsRoot(n, edges)
  {
    forall n: Node ensures n.id !in (set e | e in edges :: e.target) <==> IsRoot(n, edges) {
      if n.id in (set e | e in edges :: e.target) {
        var e :| e in edges && e.target == n.id;
      }
    }
  }

  /** The nodes, in order, whose id is not among `targets`. */
  function WithoutIncoming(nodes: seq<Node>, targets: set<string>): (r: seq<Node>)
    ensures |r| <= |nodes|
    ensures forall n :: n in r <==> n in nodes && n.id !in targets
  {
    if nodes == [] then []
    else (if nodes[0].id in targets then [] else [nodes[0]]) + WithoutIncoming(nodes[1..], targets)
  }

  /** A root is a node that no edge points to. */
  ghost predicate IsRoot(n: Node, edges: seq<Edge>)
  {
    forall e :: e in edges ==> e.target != n.id
  }

  /** Two different positions of the node list hold roots. */
  ghost predicate TwoRoots(nodes: seq<Node>, edges: seq<Edge>)
  {
    exists i, j :: 0 <= i < j < |nodes| && IsRoot(nodes[i], edges) && IsRoot(nodes[j], edges)
  }

  /** Some position of the node list holds an id outside `targets`. */
  ghost predicate SomeOutside(nodes: seq<Node>, targets: set<string>)
  {
    exists i :: 0 <= i < |nodes| && nodes[i].id !in targets
  }

  /** Two different positions of the node list hold ids outside `targets`. */
  ghost predicate TwoOutside(nodes: seq<Node>, targets: set<string>)
  {
    exists i, j :: 0 <= i < j < |nodes| && nodes[i].id !in targets && nodes[j].id !in targets
  }

  lemma SomeOutsideIffNonEmpty(nodes: seq<Node>, targets: set<string>)
    ensures |WithoutIncoming(nodes, targets)| >= 1 <==> SomeOutside(nodes, targets)
  {
    var r := WithoutIncoming(nodes, targets);
    if |r| >= 1 {
      assert r[0] in r;
    }
    if SomeOutside(nodes, targets) {
      var i :| 0 <= i < |nodes| && nodes[i].id !in targets;
      assert nodes[i] in r;
    }
  }

  /** A pair of outside positions either starts at the head or lies in the tail. */
  lemma TwoOutsideSplit(nodes: seq<Node>, targets: set<string>)
    requires nodes != []
    ensures TwoOutside(nodes, targets) <==>
      (nodes[0].id !in targets && SomeOutside(nodes[1..], targets)) || TwoOutside(nodes[1..], targets)
  {
    var tail := nodes[1..];
    if TwoOutside(nodes, targets) {
      var i, j :| 0 <= i < j < |nodes| && nodes[i].id !in targets && nodes[j].id !in targets;
      if i == 0 {
        assert tail[j - 1].id !in targets;
      } else {
        assert tail[i - 1].id !in targets && tail[j - 1].id !in targets;
      }
    }
    if nodes[0].id !in targets && SomeOutside(tail, targets) {
      var j :| 0 <= j < |tail| && tail[j].id !in targets;
      assert nodes[j + 1].id !in targets;
    }
    if TwoOutside(tail, targets) {
      var i, j :| 0 <= i < j < |tail| && tail[i].id !in targets && tail[j].id !in targets;
      assert nodes[i + 1].id !in targets && nodes[j + 1].id !in targets;
    }
  }

  /** The filter keeps more than one node exactly when two positions hold ids outside `targets`. */
  lemma {:induction false} WithoutIncomingMoreThanOne(nodes: seq<Node>, targets: set<string>)
    ensures |WithoutIncoming(nodes, targets)| > 1 <==> TwoOutside(nodes, targets)
  {
    if nodes != [] {
      var tail := nodes[1..];
      WithoutIncomingMoreThanOne(tail, targets);
      SomeOutsideIffNonEmpty(tail, targets);
      TwoOutsideSplit(nodes, targets);
    }
  }

  /** The save handler's set-and-filter computation finds more than one node exactly when there are two roots. */
  lemma TooManyWithoutIncomingIffTwoRoots(nodes: seq<Node>, edges: seq<Edge>)
    ensures |WithoutIncoming(nodes, TargetIds(edges))| > 1 <==> TwoRoots(nodes, edges)
  {
    WithoutIncomingMoreThanOne(nodes, TargetIds(edges));
  }

  datatype SaveOutcome = TooFewNodes | MultipleRoots | Saved

  const TooFewNodesMessage: string := "Please add at least 2 nodes"
  const MultipleRootsMessage: string := "Cannot save Flow, no node can have empty target handles."
  const SavedMessage: string := "Saved successfully!"

  /** What a save attempt decides for the given flow. */
  function CheckSave(nodes: seq<Node>, edges: seq<Edge>): (r: SaveOutcome)
    ensures r == TooFewNodes <==> |nodes| <= 1
    ensures r == MultipleRoots <==> |nodes| >= 2 && TwoRoots(nodes, edges)
    ensures r == Saved <==> |nodes| >= 2 && !TwoRoots(nodes, edges)
  {
    TooManyWithoutIncomingIffTwoRoots(nodes, edges);
    if |nodes| <= 1 then TooFewNodes
    else if |WithoutIncoming(nodes, TargetIds(edges))| > 1 then MultipleRoots
    else Saved
  }

  /** The error banner text an outcome leaves behind. */
  function ErrorText(o: SaveOutcome): (text: string)
    ensures text == "" <==> o == Saved
  {
    match o
    case TooFewNodes => TooFewNodesMessage
    case MultipleRoots => MultipleRootsMessage
    case Saved => ""
  }

  /** The success banner text an outcome leaves behind. */
  function SuccessText(o: SaveOutcome): (text: string)
    ensures text != "" <==> o == Saved
  {
    if o == Saved then SavedMessage else ""
  }

  /** Editing labels never changes what a save attempt decides. */
  lemma RelabelKeepsSaveOutcome(nodes: seq<Node>, edges: seq<Edge>, id: string, newLabel: string)
    ensures CheckSave(Relabel(nodes, id, newLabel), edges) == CheckSave(nodes, edges)
  {
    var r := Relabel(nodes, id, newLabel);
    RelabelKeepsIds(nodes, id, newLabel, edges);
    if TwoRoots(nodes, edges) {
      var i, j :| 0 <= i < j < |nodes| && IsRoot(nodes[i], edges) && IsRoot(nodes[j], edges);
      assert IsRoot(r[i], edges) && IsRoot(r[j], edges);
    }
    if TwoRoots(r, edges) {
      var i, j :| 0 <= i < j < |r| && IsRoot(r[i], edges) && IsRoot(r[j], edges);
      assert IsRoot(nodes[i], edges) && IsRoot(nodes[j], edges);
    }
  }

  /** A flow with at least two nodes and an edge into all but one of them can be saved. */
  lemma SingleRootSaves(nodes: seq<Node>, edges: seq<Edge>, root: nat)
    requires 2 <= |nodes| && root < |nodes|
    requires forall i :: 0 <= i < |nodes| && i != root ==> nodes[i].id in TargetIds(edges)
    ensures CheckSave(nodes, edges) == Saved
  {
    var targets := TargetIds(edges);
    forall i | 0 <= i < |nodes| && i != root ensures !IsRoot(nodes[i], edges) {
      assert nodes[i].id in targets;
    }
  }
}
