/** Edition mode (src/state/edition.ts): the selection, topology edits, the
    drag session and the handlers that drive them. Every operation starts
    with a mode guard that makes it do nothing outside edition mode. */
module Edition {
  import opened Wrappers
  import opened Graphs
  import opened AppState

  /** The nine gestures `setup` subscribes. */
  const Triggers: set<Trigger> :=
    {DoubleClickStage, ClickNode, ClickEdge, ClickStage, RightClickNode, DownNode, MouseMove, MouseUp, KeyDown}

  /** The size `createNode` gives a new node. */
  const NewNodeSize: real := 30.0

  /** A dragged node is recorded only while a drag is in progress. */
  predicate DragCoherent(d: Drag) {
    d.draggedNode.Some? ==> d.isDragging
  }

  /** The selection names an entity of the graph. */
  predicate SelectionExists(w: World) {
    match w.selection
    case None => true
    case Some(NodeSel(k)) => k in w.graph.attrs
    case Some(EdgeSel(k)) => k in w.graph.edges
  }

  /** What edition mode keeps true of the shared state. */
  predicate Inv(w: World) {
    w.graph.Valid() && SelectionExists(w) && DragCoherent(w.drag)
  }

  /** `createNode`: a node at the clicked point (already in graph space) with
      the fresh key `id`; graphology refuses a key that is taken. */
  function CreateNode(w: World, pos: Point, id: NodeKey): (r: World)
    ensures w.mode != EditionMode || id in w.graph.attrs ==> r == w
    ensures w.mode == EditionMode && id !in w.graph.attrs ==>
      && r == w.(graph := r.graph)
      && r.graph.Nodes() == w.graph.Nodes() + {id}
      && r.graph.attrs[id] == NodeAttrs(pos.x, pos.y, NewNodeSize, None)
      && r.graph.edges == w.graph.edges
      && forall n :: n in w.graph.attrs ==> r.graph.attrs[n] == w.graph.attrs[n]
  {
    if w.mode != EditionMode then w
    else
      match AddNode(w.graph, id, NodeAttrs(pos.x, pos.y, NewNodeSize, None))
      case None => w
      case Some(g) => w.(graph := g)
  }

  /** `resetSelection`. */
  function ResetSelection(w: World): (r: World)
    ensures w.mode != EditionMode ==> r == w
    ensures w.mode == EditionMode ==> r == w.(selection := None)
  {
    if w.mode != EditionMode then w else w.(selection := None)
  }

  /** `selectNode`: the selection becomes the clicked node, whatever it was. */
  function SelectNode(w: World, node: NodeKey): (r: World)
    ensures w.mode != EditionMode ==> r == w
    ensures w.mode == EditionMode ==> r == w.(selection := Some(NodeSel(node)))
  {
    if w.mode != EditionMode then w else ResetSelection(w).(selection := Some(NodeSel(node)))
  }

  /** `selectEdge`: the selection becomes the clicked edge, whatever it was. */
  function SelectEdge(w: World, edge: EdgeKey): (r: World)
    ensures w.mode != EditionMode ==> r == w
    ensures w.mode == EditionMode ==> r == w.(selection := Some(EdgeSel(edge)))
  {
    if w.mode != EditionMode then w else ResetSelection(w).(selection := Some(EdgeSel(edge)))
  }

  /** The conditions under which `createEdge(target)` adds an edge: a node
      is selected, `target` is another node, and graphology accepts the edge
      (both endpoints exist, the key is free, no directed edge from the
      selection to `target` exists yet). */
  predicate CanLink(w: World, target: NodeKey, key: EdgeKey) {
    && w.mode == EditionMode
    && w.selection.Some? && w.selection.value.NodeSel?
    && target != w.selection.value.key
    && w.selection.value.key in w.graph.attrs && target in w.graph.attrs
    && key !in w.graph.edges
    && !(exists k :: k in w.graph.edges && w.graph.edges[k] == Ends(w.selection.value.key, target, true))
  }

  /** `createEdge`: links the selected node to the right-clicked `target`
      with an edge of key `key`. */
  function CreateEdge(w: World, target: NodeKey, key: EdgeKey): (r: World)
    ensures !CanLink(w, target, key) ==> r == w
    ensures CanLink(w, target, key) ==>
      && r == w.(graph := r.graph)
      && r.graph.attrs == w.graph.attrs
      && r.graph.edges == w.graph.edges[key := Ends(w.selection.value.key, target, true)]
    ensures forall k :: k in r.graph.edges && k !in w.graph.edges ==> r.graph.edges[k].source != r.graph.edges[k].target
  {
    if w.mode != EditionMode then w
    else if w.selection.None? then w
    else if !w.selection.value.NodeSel? then w
    else if target == w.selection.value.key then w
    else
      match AddEdge(w.graph, key, w.selection.value.key, target)
      case None => w
      case Some(g) => w.(graph := g)
  }

  /** `deleteSelection`: drops the selected node (with its edges) or edge
      and clears the selection. When graphology throws because the entity is
      gone, the selection is left as it was. */
  function DeleteSelection(w: World): (r: World)
    ensures w.mode != EditionMode || w.selection.None? ==> r == w
    ensures w.mode == EditionMode && w.selection.Some? && w.selection.value.NodeSel? ==>
      var k := w.selection.value.key;
      if k !in w.graph.attrs then r == w
      else
        && r == w.(graph := r.graph, selection := None)
        && r.graph.Nodes() == w.graph.Nodes() - {k}
        && (forall n :: n in r.graph.attrs ==> r.graph.attrs[n] == w.graph.attrs[n])
        && (forall e :: e in r.graph.edges <==> e in w.graph.edges && !w.graph.edges[e].Touches(k))
        && (forall e :: e in r.graph.edges ==> r.graph.edges[e] == w.graph.edges[e])
    ensures w.mode == EditionMode && w.selection.Some? && w.selection.value.EdgeSel? ==>
      var k := w.selection.value.key;
      if k !in w.graph.edges then r == w
      else
        && r == w.(graph := r.graph, selection := None)
        && r.graph.attrs == w.graph.attrs
        && r.graph.edges.Keys == w.graph.edges.Keys - {k}
        && (forall e :: e in r.graph.edges ==> r.graph.edges[e] == w.graph.edges[e])
  {
    if w.mode != EditionMode || w.selection.None? then w
    else
      var dropped := match w.selection.value
        case NodeSel(k) => DropNode(w.graph, k)
        case EdgeSel(k) => DropEdge(w.graph, k);
      match dropped
      case None => w
      case Some(g) => w.(graph := g, selection := None)
  }

  /** `startDragging`: only the main button (0) starts a drag. */
  function StartDragging(w: World, node: NodeKey, button: int): (r: World)
    ensures w.mode != EditionMode || button != 0 ==> r == w
    ensures w.mode == EditionMode && button == 0 ==> r == w.(drag := Drag(true, Some(node)))
    ensures DragCoherent(w.drag) ==> DragCoherent(r.drag)
  {
    if w.mode != EditionMode then w
    else if button != 0 then w
    else w.(drag := Drag(true, Some(node)))
  }

  /** The `!draggedNode` test of `moveNode`: null and the empty string both
      count as no node. */
  predicate HasDraggedNode(d: Drag) {
    d.draggedNode.Some? && d.draggedNode.value != ""
  }

  /** `moveNode`: while dragging, the dragged node takes the mouse cursor's
      graph-space position. Writing to a node that is gone throws. */
  function MoveNode(w: World, pos: Point): (r: World)
    ensures !(w.mode == EditionMode && w.drag.isDragging && HasDraggedNode(w.drag)) ==> r == w
    ensures w.mode == EditionMode && w.drag.isDragging && HasDraggedNode(w.drag) ==>
      var k := w.drag.draggedNode.value;
      if k !in w.graph.attrs then r == w
      else
        && r == w.(graph := r.graph)
        && r.graph.SameTopology(w.graph)
        && r.graph.attrs[k] == w.graph.attrs[k].(x := pos.x, y := pos.y)
        && forall n :: n in w.graph.attrs && n != k ==> r.graph.attrs[n] == w.graph.attrs[n]
  {
    if w.mode != EditionMode then w
    else if !w.drag.isDragging || !HasDraggedNode(w.drag) then w
    else
      match SetPosition(w.graph, w.drag.draggedNode.value, pos)
      case None => w
      case Some(g) => w.(graph := g)
  }

  /** `stopDragging`: ends the drag session, whatever its state. */
  function StopDragging(w: World): (r: World)
    ensures w.mode != EditionMode ==> r == w
    ensures w.mode == EditionMode ==> r == w.(drag := Drag(false, None)) && !r.drag.isDragging
  {
    if w.mode != EditionMode then w else w.(drag := Drag(false, None))
  }

  /** The `keydown` handler: the Delete key deletes the selection, every other
      key does nothing. */
  function PressKey(w: World, key: string): (r: World)
    ensures key != "Delete" ==> r == w
    ensures key == "Delete" ==> r == DeleteSelection(w)
    ensures key == "Delete" && w.mode == EditionMode && w.selection.Some? && SelectionExists(w) ==>
      r.selection.None? && r.graph.Nodes() <= w.graph.Nodes()
  {
    if key == "Delete" then DeleteSelection(w) else w
  }

  /** `setup`: clears the selection and the drag session, subscribes the nine
      handlers and installs the highlighting reducer. The guard makes it do
      nothing outside edition mode. */
  function Setup(w: World): (r: (World, Option<Teardown>))
    ensures w.mode != EditionMode ==> r == (w, None)
    ensures w.mode == EditionMode ==>
      && r.1 == Some(Teardown(EditionMode, Install(EditionMode, Triggers, w.setups + 1)))
      && |r.1.value.installed| == 9
      && r.0 == w.(selection := None, drag := Drag(false, None),
                   bindings := w.bindings + r.1.value.installed, reducer := SelectionColors, setups := w.setups + 1)
  {
    if w.mode != EditionMode then (w, None)
    else
      var generation := w.setups + 1;
      var installed := Install(EditionMode, Triggers, generation);
      assert installed == {
        Binding(EditionMode, DoubleClickStage, generation), Binding(EditionMode, ClickNode, generation),
        Binding(EditionMode, ClickEdge, generation), Binding(EditionMode, ClickStage, generation),
        Binding(EditionMode, RightClickNode, generation), Binding(EditionMode, DownNode, generation),
        Binding(EditionMode, MouseMove, generation), Binding(EditionMode, MouseUp, generation),
        Binding(EditionMode, KeyDown, generation)};
      var w1 := w.(drag := Drag(false, None), selection := None,
                   bindings := w.bindings + installed, reducer := SelectionColors, setups := generation);
      (w1, Some(Teardown(EditionMode, installed)))
  }

  /** The cleanup closure `setup` returns: unsubscribes the bindings it
      installed and restores the pass-through reducer. */
  function Release(w: World, installed: set<Binding>): (r: World)
    ensures r == w.(bindings := w.bindings - installed, reducer := PassThrough)
  {
    w.(bindings := w.bindings - installed, reducer := PassThrough)
  }

  /** The handler edition mode subscribed for a gesture. */
  function Handle(w: World, ev: Gesture): (r: World)
    ensures r.SameControl(w) && r.history == w.history && r.dayLabel == w.dayLabel
    ensures w.mode != EditionMode ==> r == w
  {
    match ev
    case DoubleClickStageAt(pos, id) => CreateNode(w, pos, id)
    case ClickNodeOn(node) => SelectNode(w, node)
    case ClickEdgeOn(edge) => SelectEdge(w, edge)
    case ClickStageAt => ResetSelection(w)
    case RightClickNodeOn(node, key) => CreateEdge(w, node, key)
    case DownNodeOn(node, button) => StartDragging(w, node, button)
    case MouseMoveTo(pos) => MoveNode(w, pos)
    case MouseUpAt => StopDragging(w)
    case KeyPress(key) => PressKey(w, key)
    case BackButtonPress => w
  }

  /** The gesture names entities of the graph, as the interaction surface
      guarantees for node and edge events. */
  predicate Admissible(w: World, ev: Gesture) {
    match ev
    case ClickNodeOn(node) => node in w.graph.attrs
    case ClickEdgeOn(edge) => edge in w.graph.edges
    case RightClickNodeOn(node, _) => node in w.graph.attrs
    case DownNodeOn(node, _) => node in w.graph.attrs
    case _ => true
  }

  /** The highlighting reducer as written: a node is drawn "dodgerblue"
      when its key equals the selection's key, whether the selection is a
      node or an edge. */
  function SelectionColorAsWritten(w: World, n: NodeKey, base: string): (c: string)
    ensures w.mode != EditionMode ==> c == base
    ensures w.mode == EditionMode && base != "dodgerblue" ==>
      (c == "dodgerblue" <==> w.selection.Some? && w.selection.value.key == n)
    ensures c == base || c == "dodgerblue"
  {
    if w.mode != EditionMode then base
    else if w.selection.Some? && w.selection.value.key == n then "dodgerblue"
    else base
  }

  /** A graph whose node "0" and edge "0" share a key, as graphs loaded from
      GEXF files with numeric ids do: selecting the edge highlights the node. */
  lemma EdgeSelectionHighlightsNode()
    ensures var g := Graph(map["0" := NodeAttrs(0.0, 0.0, 1.0, None), "1" := NodeAttrs(1.0, 0.0, 1.0, None)],
                           map["0" := Ends("0", "1", false)]);
            var w := World(g, EditionMode, None, [], None, Some(EdgeSel("0")), Drag(false, None), {}, SelectionColors, 0);
            SelectionExists(w) && SelectionColorAsWritten(w, "0", "grey") == "dodgerblue"
  {
  }

  /** The highlighting reducer as intended: only the selected node is
      highlighted. */
  function SelectionColor(w: World, n: NodeKey, base: string): (c: string)
    ensures w.mode == EditionMode && base != "dodgerblue" ==> (c == "dodgerblue" <==> w.selection == Some(NodeSel(n)))
    ensures w.mode != EditionMode ==> c == base
    ensures w.selection.None? || w.selection.value.NodeSel? ==> c == SelectionColorAsWritten(w, n, base)
  {
    if w.mode != EditionMode then base
    else if w.selection == Some(NodeSel(n)) then "dodgerblue"
    else base
  }

  /** Every edition handler keeps the edition invariant: the graph stays
      well formed, the selection names an existing entity, and a dragged node
      is recorded only during a drag. */
  lemma HandlePreservesInv(w: World, ev: Gesture)
    requires Inv(w) && Admissible(w, ev)
    ensures Inv(Handle(w, ev))
  {
  }

  /** Creating a node, selecting it and deleting the selection gives back
      the graph it started from. */
  lemma CreateSelectDeleteNode(w: World, pos: Point, id: NodeKey)
    requires w.mode == EditionMode && w.graph.Valid() && id !in w.graph.attrs
    ensures DeleteSelection(SelectNode(CreateNode(w, pos, id), id)).graph == w.graph
    ensures DeleteSelection(SelectNode(CreateNode(w, pos, id), id)).selection.None?
  {
  }

  /** Linking the selected node to a target, selecting the new edge and
      deleting the selection gives back the graph it started from. */
  lemma CreateSelectDeleteEdge(w: World, target: NodeKey, key: EdgeKey)
    requires CanLink(w, target, key)
    ensures DeleteSelection(SelectEdge(CreateEdge(w, target, key), key)).graph == w.graph
  {
  }
}
