/** Simulation mode (src/state/simulation.ts): the fox-possibility flags,
    their propagation when a node is probed, and the day history with undo. */
module Simulation {
  import opened Wrappers
  import opened Graphs
  import opened AppState

  /** What `setup` subscribes: sigma's `clickNode` and the back button's `click`. */
  const Triggers: set<Trigger> := {ClickNode, BackButtonClick}

  /** The truthiness of `getNodeAttribute(n, "possibleFox")`: an absent
      attribute reads as false. */
  predicate PossibleFox(g: Graph, n: NodeKey) {
    n in g.attrs && g.attrs[n].possibleFox == Some(true)
  }

  /** The flag the history prescribes for `n`: true on day 0, otherwise the
      value the last snapshot records. */
  predicate Prescribed(h: seq<Snapshot>, n: NodeKey) {
    |h| == 0 || (n in h[|h| - 1] && h[|h| - 1][n])
  }

  /** Every node carries the flag the history prescribes. */
  predicate FlagsMatch(g: Graph, h: seq<Snapshot>) {
    forall n :: n in g.attrs ==> g.attrs[n].possibleFox == Some(Prescribed(h, n))
  }

  /** Every snapshot is keyed by exactly the graph's nodes. */
  predicate SnapshotsCover(g: Graph, h: seq<Snapshot>) {
    forall i :: 0 <= i < |h| ==> h[i].Keys == g.Nodes()
  }

  /** The invariant simulation mode keeps: the flags are those of the last
      snapshot (all true on day 0) and the day counter shows the history length. */
  predicate Consistent(w: World) {
    && SnapshotsCover(w.graph, w.history)
    && FlagsMatch(w.graph, w.history)
    && w.dayLabel == Some(|w.history|)
  }

  /** `updateDayHtml`. */
  function UpdateDayHtml(w: World): (r: World)
    ensures r.(dayLabel := w.dayLabel) == w
    ensures w.mode == SimulationMode ==> r.dayLabel == Some(|w.history|)
    ensures w.mode != SimulationMode ==> r.dayLabel == w.dayLabel
  {
    if w.mode != SimulationMode then w else w.(dayLabel := Some(|w.history|))
  }

  /** `resetFoxPositions`, and the identical loop inside `setup`. */
  function ResetFoxPositions(g: Graph): (r: Graph)
    ensures g.FlagsOnlyDiffer(r)
    ensures FlagsMatch(r, [])
  {
    g.(attrs := map n | n in g.attrs :: g.attrs[n].(possibleFox := Some(true)))
  }

  /** The `forEach` over a snapshot writing each recorded flag to its node. */
  function ApplySnapshot(g: Graph, s: Snapshot): (r: Graph)
    ensures g.FlagsOnlyDiffer(r)
    ensures s.Keys >= g.Nodes() ==> FlagsMatch(r, [s])
  {
    g.(attrs := map n | n in g.attrs :: if n in s then g.attrs[n].(possibleFox := Some(s[n])) else g.attrs[n])
  }

  /** The teardown's loop removing the `possibleFox` attribute from every node. */
  function StripFlags(g: Graph): (r: Graph)
    ensures g.FlagsOnlyDiffer(r)
    ensures forall n :: n in r.attrs ==> r.attrs[n].possibleFox.None?
  {
    g.(attrs := map n | n in g.attrs :: g.attrs[n].(possibleFox := None))
  }

  /** `updateFoxPositions`: shows the last snapshot, or all true when the
      history is empty. */
  function UpdateFoxPositions(w: World): (r: World)
    ensures w.mode != SimulationMode ==> r == w
    ensures w.mode == SimulationMode ==> r == w.(graph := r.graph) && w.graph.FlagsOnlyDiffer(r.graph)
    ensures w.mode == SimulationMode && SnapshotsCover(w.graph, w.history) ==> FlagsMatch(r.graph, w.history)
  {
    if w.mode != SimulationMode then w
    else if |w.history| == 0 then w.(graph := ResetFoxPositions(w.graph))
    else
      var g := ApplySnapshot(w.graph, w.history[|w.history| - 1]);
      assert forall n :: n in g.attrs ==> Prescribed([w.history[|w.history| - 1]], n) == Prescribed(w.history, n);
      w.(graph := g)
  }

  /** The new flags after probing `p`: a node may hold the fox tomorrow iff
      one of its neighbours other than `p` may hold it today. */
  function NextDay(g: Graph, p: NodeKey): (s: Snapshot)
    ensures s.Keys == g.Nodes()
    ensures forall n :: n in s ==> (s[n] <==> exists m :: g.Adjacent(n, m) && m != p && PossibleFox(g, m))
  {
    map n | n in g.attrs :: exists m | m in g.Neighbors(n) :: m != p && PossibleFox(g, m)
  }

  /** `simulateNextDay`: one probe of node `p`. */
  function SimulateNextDay(w: World, p: NodeKey): (r: World)
    ensures w.mode != SimulationMode ==> r == w
    ensures w.mode == SimulationMode ==>
      && r == w.(graph := r.graph, history := r.history, dayLabel := r.dayLabel)
      && r.history == w.history + [NextDay(w.graph, p)]
      && r.dayLabel == Some(|w.history| + 1)
      && w.graph.FlagsOnlyDiffer(r.graph)
      && FlagsMatch(r.graph, r.history)
    ensures w.mode == SimulationMode && Consistent(w) ==> Consistent(r)
  {
    if w.mode != SimulationMode then w
    else
      var newStates := NextDay(w.graph, p);
      var w1 := UpdateDayHtml(w.(history := w.history + [newStates]));
      assert SnapshotsCover(w1.graph, [newStates]);
      UpdateFoxPositions(w1)
  }

  /** `Array.prototype.pop` on the history: drops the last snapshot, if any. */
  function Pop(h: seq<Snapshot>): seq<Snapshot> {
    if |h| == 0 then h else h[..|h| - 1]
  }

  /** The back button's `backFn`: undo one day. */
  function Back(w: World): (r: World)
    ensures w.mode != SimulationMode ==> r == w
    ensures w.mode == SimulationMode ==>
      && r == w.(graph := r.graph, history := r.history, dayLabel := r.dayLabel)
      && r.history + (if |w.history| == 0 then [] else [w.history[|w.history| - 1]]) == w.history
      && r.dayLabel == Some(|r.history|)
      && w.graph.FlagsOnlyDiffer(r.graph)
    ensures w.mode == SimulationMode && SnapshotsCover(w.graph, w.history) ==> FlagsMatch(r.graph, r.history)
    ensures w.mode == SimulationMode && |w.history| == 0 ==>
      r.history == [] && forall n :: n in r.graph.attrs ==> PossibleFox(r.graph, n)
    ensures w.mode == SimulationMode && Consistent(w) ==> Consistent(r)
  {
    if w.mode != SimulationMode then w
    else UpdateDayHtml(UpdateFoxPositions(w.(history := Pop(w.history))))
  }

  /** `setup`: every flag true, an empty history, the click and back
      handlers subscribed and the fox-colouring reducer installed. The guard
      makes it do nothing outside simulation mode. */
  function Setup(w: World): (r: (World, Option<Teardown>))
    ensures w.mode != SimulationMode ==> r == (w, None)
    ensures w.mode == SimulationMode ==>
      && r.1 == Some(Teardown(SimulationMode, Install(SimulationMode, Triggers, w.setups + 1)))
      && r.0 == w.(graph := r.0.graph, history := [], dayLabel := Some(0),
                   bindings := w.bindings + r.1.value.installed, reducer := FoxColors, setups := w.setups + 1)
      && w.graph.FlagsOnlyDiffer(r.0.graph)
      && Consistent(r.0)
  {
    if w.mode != SimulationMode then (w, None)
    else
      var generation := w.setups + 1;
      var installed := Install(SimulationMode, Triggers, generation);
      var w1 := w.(graph := ResetFoxPositions(w.graph), reducer := FoxColors,
                   history := [], bindings := w.bindings + installed, setups := generation);
      (UpdateDayHtml(w1), Some(Teardown(SimulationMode, installed)))
  }

  /** The cleanup closure `setup` returns: unsubscribes the bindings it
      installed, strips the flags and restores the pass-through reducer. */
  function Release(w: World, installed: set<Binding>): (r: World)
    ensures r == w.(graph := r.graph, bindings := w.bindings - installed, reducer := PassThrough)
    ensures w.graph.FlagsOnlyDiffer(r.graph)
    ensures forall n :: n in r.graph.attrs ==> !PossibleFox(r.graph, n) && r.graph.attrs[n].possibleFox.None?
  {
    w.(graph := StripFlags(w.graph), bindings := w.bindings - installed, reducer := PassThrough)
  }

  /** The handler simulation mode subscribed for a gesture. */
  function Handle(w: World, ev: Gesture): (r: World)
    ensures r.SameControl(w) && r.selection == w.selection && r.drag == w.drag
    ensures w.graph.FlagsOnlyDiffer(r.graph)
    ensures w.mode == SimulationMode && Consistent(w) ==> Consistent(r)
  {
    match ev
    case ClickNodeOn(node) => SimulateNextDay(w, node)
    case BackButtonPress => Back(w)
    case _ => w
  }

  /** The colour the fox-colouring reducer gives a node. */
  function FoxColor(g: Graph, n: NodeKey): string
    requires n in g.attrs
  {
    if g.attrs[n].possibleFox == Some(false) then "red" else "orange"
  }

  /** While simulation mode is consistent a node is drawn orange exactly when
      the history says it may hold the fox. */
  lemma FoxColorShowsFlag(w: World, n: NodeKey)
    requires Consistent(w) && n in w.graph.attrs
    ensures FoxColor(w.graph, n) == "orange" <==> Prescribed(w.history, n)
    ensures FoxColor(w.graph, n) == "red" <==> !Prescribed(w.history, n)
  {
  }

  /** A probe followed by an undo gives back the world as it was: the same
      history, day counter and flags. */
  lemma ProbeThenUndo(w: World, p: NodeKey)
    requires w.mode == SimulationMode && Consistent(w)
    ensures Back(SimulateNextDay(w, p)) == w
  {
  }
}
