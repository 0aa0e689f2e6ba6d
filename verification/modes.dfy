/** The mode controller (src/state/state.ts): exactly one of simulation and
    edition is active, and switching always runs the stored cleanup before
    the new mode's `setup`, whose cleanup is then stored. */
module Modes {
  import opened Wrappers
  import opened Graphs
  import opened AppState
  import Simulation
  import Edition

  /** The state at load time: simulation mode, no cleanup stored, nothing
      subscribed and the pass-through reducer. */
  function Initial(g: Graph): (w: World)
    ensures w.graph == g && w.mode == SimulationMode && w.cleanup.None?
    ensures Idle(w) && w.selection.None? && !w.drag.isDragging && w.drag.draggedNode.None?
  {
    World(g, SimulationMode, None, [], None, None, Drag(false, None), {}, PassThrough, 0)
  }

  function TriggersOf(m: Mode): set<Trigger> {
    if m == SimulationMode then Simulation.Triggers else Edition.Triggers
  }

  function ReducerOf(m: Mode): NodeReducer {
    if m == SimulationMode then FoxColors else SelectionColors
  }

  /** No mode has been set up yet. */
  predicate Idle(w: World) {
    w.cleanup.None? && w.bindings == {} && w.reducer == PassThrough
  }

  /** Exactly one `setup` worth of bindings is installed: those of the
      latest call, for the current mode, and the stored cleanup holds them. */
  predicate Clean(w: World) {
    && w.bindings == Install(w.mode, TriggersOf(w.mode), w.setups)
    && w.cleanup == Some(Teardown(w.mode, w.bindings))
    && w.reducer == ReducerOf(w.mode)
  }

  function SetupFor(w: World, m: Mode): (World, Option<Teardown>) {
    if m == SimulationMode then Simulation.Setup(w) else Edition.Setup(w)
  }

  /** Calls a stored cleanup closure. */
  function RunCleanup(w: World, t: Teardown): World {
    if t.owner == SimulationMode then Simulation.Release(w, t.installed) else Edition.Release(w, t.installed)
  }

  /** The bindings left once the stored cleanup, if any, has run. */
  function Unsubscribed(w: World): set<Binding> {
    if w.cleanup.Some? then w.bindings - w.cleanup.value.installed else w.bindings
  }

  /** `changeMode(m)`. */
  function ChangeMode(w: World, m: Mode): (r: World)
    ensures r.mode == m && r.setups == w.setups + 1
    ensures r.cleanup == Some(Teardown(m, Install(m, TriggersOf(m), r.setups)))
    ensures r.bindings == Unsubscribed(w) + r.cleanup.value.installed
    ensures r.reducer == ReducerOf(m)
    ensures Idle(w) || Clean(w) ==> Clean(r) && r.bindings !! w.bindings
    ensures r.graph.SameTopology(w.graph)
    ensures m == SimulationMode ==> Simulation.Consistent(r) && r.selection == w.selection && r.drag == w.drag
    ensures m == EditionMode ==> r.selection.None? && r.drag == Drag(false, None) && r.history == w.history
    ensures m == EditionMode && w.cleanup.Some? && w.cleanup.value.owner == SimulationMode ==>
      forall n :: n in r.graph.attrs ==> r.graph.attrs[n].possibleFox.None?
  {
    var w1 := if w.cleanup.Some? then RunCleanup(w, w.cleanup.value) else w;
    var (w2, t) := SetupFor(w1.(mode := m), m);
    w2.(cleanup := t)
  }

  function Other(m: Mode): Mode {
    if m == SimulationMode then EditionMode else SimulationMode
  }

  /** `toggleMode`: switches to the other mode. */
  function ToggleMode(w: World): (r: World)
    ensures r.mode != w.mode
    ensures w.mode == SimulationMode ==> r.mode == EditionMode
    ensures w.mode == EditionMode ==> r.mode == SimulationMode
    ensures Idle(w) || Clean(w) ==> Clean(r)
  {
    ChangeMode(w, Other(w.mode))
  }

  /** Some closure of mode `owner` is subscribed to `t`. */
  predicate Subscribed(w: World, owner: Mode, t: Trigger) {
    exists b :: b in w.bindings && b.owner == owner && b.trigger == t
  }

  /** The interaction surface delivering one gesture: every mode with a
      closure subscribed to it handles it. */
  function Dispatch(w: World, ev: Gesture): (r: World)
    ensures r.SameControl(w)
    ensures !Subscribed(w, EditionMode, ev.Trigger()) && !Subscribed(w, SimulationMode, ev.Trigger()) ==> r == w
    ensures Subscribed(w, EditionMode, ev.Trigger()) && !Subscribed(w, SimulationMode, ev.Trigger()) ==>
      r == Edition.Handle(w, ev)
    ensures !Subscribed(w, EditionMode, ev.Trigger()) && Subscribed(w, SimulationMode, ev.Trigger()) ==>
      r == Simulation.Handle(w, ev)
  {
    var w1 := if Subscribed(w, EditionMode, ev.Trigger()) then Edition.Handle(w, ev) else w;
    if Subscribed(w1, SimulationMode, ev.Trigger()) then Simulation.Handle(w1, ev) else w1
  }

  datatype Action = Change(mode: Mode) | Toggle | Input(gesture: Gesture)

  function Step(w: World, a: Action): World {
    match a
    case Change(m) => ChangeMode(w, m)
    case Toggle => ToggleMode(w)
    case Input(ev) => Dispatch(w, ev)
  }

  function Run(w: World, actions: seq<Action>): World
    decreases |actions|
  {
    if |actions| == 0 then w else Run(Step(w, actions[0]), actions[1..])
  }

  /** Every gesture in the run names entities that exist when it arrives. */
  predicate AdmissibleRun(w: World, actions: seq<Action>)
    decreases |actions|
  {
    |actions| == 0 ||
    ((actions[0].Input? ==> Edition.Admissible(w, actions[0].gesture)) && AdmissibleRun(Step(w, actions[0]), actions[1..]))
  }

  /** What holds of every reachable state. */
  predicate Inv(w: World) {
    && Edition.Inv(w)
    && (Idle(w) || Clean(w))
    && (Clean(w) && w.mode == SimulationMode ==> Simulation.Consistent(w))
  }

  /** The closures of one `setup` call, written out trigger by trigger. */
  lemma InstallOf(m: Mode, g: nat)
    ensures m == SimulationMode ==>
      Install(m, TriggersOf(m), g) == {Binding(SimulationMode, ClickNode, g), Binding(SimulationMode, BackButtonClick, g)}
    ensures m == EditionMode ==> Install(m, TriggersOf(m), g) == {
        Binding(EditionMode, DoubleClickStage, g), Binding(EditionMode, ClickNode, g),
        Binding(EditionMode, ClickEdge, g), Binding(EditionMode, ClickStage, g),
        Binding(EditionMode, RightClickNode, g), Binding(EditionMode, DownNode, g),
        Binding(EditionMode, MouseMove, g), Binding(EditionMode, MouseUp, g),
        Binding(EditionMode, KeyDown, g)}
  {
  }

  lemma CleanSimulationSize(w: World)
    requires Clean(w) && w.mode == SimulationMode
    ensures |w.bindings| == |TriggersOf(w.mode)| == 2
  {
    InstallOf(w.mode, w.setups);
    assert |w.bindings| == 2;
  }

  lemma EditionTriggersSize()
    ensures |Edition.Triggers| == 9
  {
  }

  lemma EditionInstallSize(g: nat)
    ensures |Install(EditionMode, Edition.Triggers, g)| == 9
  {
    InstallOf(EditionMode, g);
  }

  lemma CleanEditionSize(w: World)
    requires Clean(w) && w.mode == EditionMode
    ensures |w.bindings| == |TriggersOf(w.mode)| == 9
  {
    EditionTriggersSize();
    EditionInstallSize(w.setups);
  }

  /** A clean state has exactly one closure per trigger of the current mode,
      all made by the latest `setup` call. */
  lemma CleanMeansOneSetup(w: World)
    requires Clean(w)
    ensures forall b :: b in w.bindings ==> b.owner == w.mode && b.generation == w.setups
    ensures forall b1, b2 :: b1 in w.bindings && b2 in w.bindings && b1.trigger == b2.trigger ==> b1 == b2
    ensures |w.bindings| == |TriggersOf(w.mode)|
  {
    if w.mode == SimulationMode {
      CleanSimulationSize(w);
    } else {
      CleanEditionSize(w);
    }
  }

  lemma InitialInv(g: Graph)
    requires g.Valid()
    ensures Inv(Initial(g))
  {
  }

  lemma ChangeModePreservesInv(w: World, m: Mode)
    requires Inv(w)
    ensures Inv(ChangeMode(w, m))
  {
  }

  /** Under the invariant a gesture reaches only the current mode's handler,
      and handling it keeps the invariant. */
  lemma DispatchPreservesInv(w: World, ev: Gesture)
    requires Inv(w) && Edition.Admissible(w, ev)
    ensures Inv(Dispatch(w, ev))
    ensures Dispatch(w, ev).SameControl(w)
    ensures Clean(w) && w.mode == EditionMode ==> Dispatch(w, ev) == Edition.Handle(w, ev)
    ensures Clean(w) && w.mode == SimulationMode && ev.Trigger() in Simulation.Triggers ==>
      Dispatch(w, ev) == Simulation.Handle(w, ev)
    ensures Idle(w) || ev.Trigger() !in TriggersOf(w.mode) ==> Dispatch(w, ev) == w
  {
    var t := ev.Trigger();
    if Idle(w) {
      assert !Subscribed(w, EditionMode, t);
    } else if w.mode == EditionMode {
      assert !Subscribed(w, SimulationMode, t);
      if t in Edition.Triggers {
        assert Binding(EditionMode, t, w.setups) in w.bindings;
      }
      if Subscribed(w, EditionMode, t) {
        Edition.HandlePreservesInv(w, ev);
      }
    } else {
      assert !Subscribed(w, EditionMode, t);
      if t in Simulation.Triggers {
        assert Binding(SimulationMode, t, w.setups) in w.bindings;
      }
      var r := Dispatch(w, ev);
      assert r.graph.SameTopology(w.graph);
    }
  }

  lemma StepPreservesInv(w: World, a: Action)
    requires Inv(w) && (a.Input? ==> Edition.Admissible(w, a.gesture))
    ensures Inv(Step(w, a))
  {
  }

  /** The invariant holds after any run of mode switches and gestures. */
  lemma {:induction false} RunPreservesInv(w: World, actions: seq<Action>)
    requires Inv(w) && AdmissibleRun(w, actions)
    ensures Inv(Run(w, actions))
    decreases |actions|
  {
    if |actions| > 0 {
      StepPreservesInv(w, actions[0]);
      RunPreservesInv(Step(w, actions[0]), actions[1..]);
    }
  }

  /** From load time, whatever mode switches and gestures happen, the
      installed closures are exactly one `setup` worth for the current mode,
      or nothing before the first switch: bindings never accumulate. */
  lemma NoAccumulation(g: Graph, actions: seq<Action>)
    requires g.Valid() && AdmissibleRun(Initial(g), actions)
    ensures var w := Run(Initial(g), actions);
      || (w.bindings == {} && w.cleanup.None?)
      || (w.bindings == Install(w.mode, TriggersOf(w.mode), w.setups) && |w.bindings| == |TriggersOf(w.mode)|
          && w.cleanup == Some(Teardown(w.mode, w.bindings)))
  {
    InitialInv(g);
    RunPreservesInv(Initial(g), actions);
    var w := Run(Initial(g), actions);
    if Clean(w) {
      CleanMeansOneSetup(w);
    }
  }

  /** Switching to the mode already active still tears down and reinstalls:
      all closures are new, and the mode's own state is reset. */
  lemma ReenterSameMode(w: World)
    requires Clean(w)
    ensures var r := ChangeMode(w, w.mode);
      && Clean(r) && r.mode == w.mode && r.bindings !! w.bindings
      && (w.mode == SimulationMode ==> r.history == [] && r.dayLabel == Some(0))
      && (w.mode == EditionMode ==> r.selection.None? && !r.drag.isDragging)
  {
  }

  /** The colour sigma draws a node with: the installed `nodeReducer`
      applied to the node's own colour attribute `base`. */
  function NodeColor(w: World, n: NodeKey, base: string): (c: string)
    requires n in w.graph.attrs
    ensures w.reducer == PassThrough ==> c == base
    ensures w.reducer == FoxColors ==> (c == "red" || c == "orange")
    ensures w.reducer == FoxColors ==> (c == "red" <==> w.graph.attrs[n].possibleFox == Some(false))
    ensures w.reducer == SelectionColors && w.mode != EditionMode ==> c == base
    ensures w.reducer == SelectionColors && w.mode == EditionMode && base != "dodgerblue" ==>
      (c == "dodgerblue" <==> w.selection.Some? && w.selection.value.key == n)
  {
    match w.reducer
    case PassThrough => base
    case FoxColors => Simulation.FoxColor(w.graph, n)
    case SelectionColors => Edition.SelectionColorAsWritten(w, n, base)
  }

  /** In a reachable state, simulation mode draws possible nodes orange and
      eliminated ones red; edition mode highlights every node whose key is
      the selection's key, which is exactly the selected node unless an edge
      is selected; before any switch the node keeps its own colour. */
  lemma ColorsFollowMode(w: World, n: NodeKey, base: string)
    requires Inv(w) && n in w.graph.attrs && base != "dodgerblue"
    ensures Idle(w) ==> NodeColor(w, n, base) == base
    ensures Clean(w) && w.mode == SimulationMode ==>
      (NodeColor(w, n, base) == "orange" <==> Simulation.Prescribed(w.history, n))
    ensures Clean(w) && w.mode == EditionMode ==>
      (NodeColor(w, n, base) == "dodgerblue" <==> w.selection.Some? && w.selection.value.key == n)
    ensures Clean(w) && w.mode == EditionMode && (w.selection.None? || w.selection.value.NodeSel?) ==>
      (NodeColor(w, n, base) == "dodgerblue" <==> w.selection == Some(NodeSel(n)))
      && NodeColor(w, n, base) == Edition.SelectionColor(w, n, base)
  {
  }
}
