/** The single shared `state` record of the application together with the
    graph and the parts of the interaction surface the modes touch: the set
    of installed gesture bindings and the node-reducer slot. */
module AppState {
  import opened Wrappers
  import opened Graphs

  datatype Mode = SimulationMode | EditionMode

  /** One day's flags: every node present that day mapped to "could hold the fox". */
  type Snapshot = map<NodeKey, bool>

  /** The edition selection, tagged with the kind of entity it names. */
  datatype Selection = NodeSel(key: string) | EdgeSel(key: string)

  datatype Drag = Drag(isDragging: bool, draggedNode: Option<NodeKey>)

  /** The gesture kinds a mode can subscribe to. */
  datatype Trigger =
    | DoubleClickStage | ClickNode | ClickEdge | ClickStage | RightClickNode
    | DownNode | MouseMove | MouseUp | KeyDown | BackButtonClick

  /** One subscribed handler closure. Each `setup` call creates new closures,
      told apart by the number of that call. */
  datatype Binding = Binding(owner: Mode, trigger: Trigger, generation: nat)

  /** The value of sigma's `nodeReducer` setting. */
  datatype NodeReducer = PassThrough | FoxColors | SelectionColors

  /** What a `setup` returns: the cleanup closure, holding exactly the
      bindings that call installed. */
  datatype Teardown = Teardown(owner: Mode, installed: set<Binding>)

  /** One event as the interaction surface delivers it. The keys a node or
      edge gesture carries name the entity under the mouse cursor; `id` and
      `edgeKey` are the keys `uuid()` and graphology would generate; `pos` is
      the cursor position already converted to graph space. */
  datatype Gesture =
    | DoubleClickStageAt(pos: Point, id: NodeKey)
    | ClickNodeOn(node: NodeKey)
    | ClickEdgeOn(edge: EdgeKey)
    | ClickStageAt
    | RightClickNodeOn(node: NodeKey, edgeKey: EdgeKey)
    | DownNodeOn(node: NodeKey, button: int)
    | MouseMoveTo(pos: Point)
    | MouseUpAt
    | KeyPress(key: string)
    | BackButtonPress
  {
    function Trigger(): Trigger {
      match this
      case DoubleClickStageAt(_, _) => DoubleClickStage
      case ClickNodeOn(_) => ClickNode
      case ClickEdgeOn(_) => ClickEdge
      case ClickStageAt => ClickStage
      case RightClickNodeOn(_, _) => RightClickNode
      case DownNodeOn(_, _) => DownNode
      case MouseMoveTo(_) => MouseMove
      case MouseUpAt => MouseUp
      case KeyPress(_) => KeyDown
      case BackButtonPress => BackButtonClick
    }
  }

  /** Everything the core reads or writes. `dayLabel` is the text of the day
      counter (None until simulation first writes it); `setups` counts the
      `setup` calls made so far. */
  datatype World = World(
    graph: Graph,
    mode: Mode,
    cleanup: Option<Teardown>,
    history: seq<Snapshot>,
    dayLabel: Option<nat>,
    selection: Option<Selection>,
    drag: Drag,
    bindings: set<Binding>,
    reducer: NodeReducer,
    setups: nat)
  {
    /** The mode controller's own fields are those of `w`. */
    predicate SameControl(w: World) {
      && mode == w.mode && cleanup == w.cleanup && bindings == w.bindings
      && reducer == w.reducer && setups == w.setups
    }
  }

  /** The closures one `setup` call subscribes, one per trigger. */
  function Install(owner: Mode, triggers: set<Trigger>, generation: nat): (r: set<Binding>)
    ensures forall b :: b in r <==> b.owner == owner && b.trigger in triggers && b.generation == generation
  {
    set t | t in triggers :: Binding(owner, t, generation)
  }
}
