/** The path A–B–C worked through the whole application: two probes, an
    undo and a reset by re-entering simulation mode. */
module Scenarios {
  import opened Wrappers
  import opened Graphs
  import opened AppState
  import Simulation
  import Modes

  function PathGraph(): (g: Graph)
    ensures g.Valid()
  {
    Graph(map["A" := NodeAttrs(0.0, 0.0, 10.0, None), "B" := NodeAttrs(1.0, 0.0, 10.0, None),
              "C" := NodeAttrs(2.0, 0.0, 10.0, None)],
          map["ab" := Ends("A", "B", false), "bc" := Ends("B", "C", false)])
  }

  /** The flags of A, B and C, as the fox-colouring reducer reads them. */
  function Flags(w: World): (bool, bool, bool) {
    (Simulation.PossibleFox(w.graph, "A"), Simulation.PossibleFox(w.graph, "B"), Simulation.PossibleFox(w.graph, "C"))
  }

  lemma PathAdjacency(g: Graph)
    requires g.edges == PathGraph().edges
    ensures forall m :: g.Adjacent("A", m) <==> m == "B"
    ensures forall m :: g.Adjacent("B", m) <==> m == "A" || m == "C"
    ensures forall m :: g.Adjacent("C", m) <==> m == "B"
  {
    assert g.edges["ab"].Joins("A", "B") && g.edges["ab"].Joins("B", "A");
    assert g.edges["bc"].Joins("B", "C") && g.edges["bc"].Joins("C", "B");
  }

  /** The flags one probe leaves on the path. */
  lemma ProbeOnPath(w: World, p: NodeKey)
    requires w.mode == SimulationMode
    requires w.graph.edges == PathGraph().edges && w.graph.Nodes() == {"A", "B", "C"}
    ensures var f := Flags(w);
      Flags(Simulation.SimulateNextDay(w, p)) ==
        (p != "B" && f.1, (p != "A" && f.0) || (p != "C" && f.2), p != "B" && f.1)
  {
    var r := Simulation.SimulateNextDay(w, p);
    PathAdjacency(w.graph);
    var s := Simulation.NextDay(w.graph, p);
    assert Simulation.PossibleFox(r.graph, "A") == s["A"];
    assert Simulation.PossibleFox(r.graph, "B") == s["B"];
    assert Simulation.PossibleFox(r.graph, "C") == s["C"];
  }

  /** A gesture on a node of the path reaches the simulation handler. */
  lemma ClickIsProbe(w: World, p: NodeKey)
    requires Modes.Inv(w) && Modes.Clean(w) && w.mode == SimulationMode && p in w.graph.attrs
    ensures var r := Modes.Dispatch(w, ClickNodeOn(p));
      && r == Simulation.SimulateNextDay(w, p)
      && Modes.Inv(r) && Modes.Clean(r) && r.mode == SimulationMode
      && r.graph.SameTopology(w.graph) && |r.history| == |w.history| + 1 && r.dayLabel == Some(|r.history|)
  {
    Modes.DispatchPreservesInv(w, ClickNodeOn(p));
  }

  /** Entering simulation mode on the path shows every node as possible on day 0. */
  lemma EnterOnPath(w: World)
    requires Modes.Inv(w) && w.graph.edges == PathGraph().edges && w.graph.Nodes() == {"A", "B", "C"}
    ensures var r := Modes.ChangeMode(w, SimulationMode);
      && Modes.Inv(r) && Modes.Clean(r) && r.mode == SimulationMode
      && r.graph.edges == PathGraph().edges && r.graph.Nodes() == {"A", "B", "C"}
      && Flags(r) == (true, true, true) && r.dayLabel == Some(0)
  {
  }

  /** The states of the walk-through: simulation mode entered on the path,
      B probed, A probed, one undo, and simulation mode entered again. */
  function Day0(): World { Modes.ChangeMode(Modes.Initial(PathGraph()), SimulationMode) }
  function ProbedB(): World { Modes.Dispatch(Day0(), ClickNodeOn("B")) }
  function ProbedA(): World { Modes.Dispatch(ProbedB(), ClickNodeOn("A")) }
  function Undone(): World { Modes.Dispatch(ProbedA(), BackButtonPress) }
  function Reset(): World { Modes.ChangeMode(Undone(), SimulationMode) }

  lemma Day0Facts()
    ensures var w := Day0();
      && Modes.Inv(w) && Modes.Clean(w) && w.mode == SimulationMode
      && w.graph.edges == PathGraph().edges && w.graph.Nodes() == {"A", "B", "C"}
      && Flags(w) == (true, true, true) && w.history == [] && w.dayLabel == Some(0)
  {
  }

  lemma ProbedBFacts()
    ensures var w := ProbedB();
      && Modes.Inv(w) && Modes.Clean(w) && w.mode == SimulationMode
      && w.graph.edges == PathGraph().edges && w.graph.Nodes() == {"A", "B", "C"}
      && Flags(w) == (false, true, false) && |w.history| == 1 && w.dayLabel == Some(1)
  {
    Day0Facts();
    ClickIsProbe(Day0(), "B");
    ProbeOnPath(Day0(), "B");
  }

  lemma ProbedAFacts()
    ensures ProbedA() == Simulation.SimulateNextDay(ProbedB(), "A")
    ensures Flags(ProbedA()) == (true, false, true) && ProbedA().dayLabel == Some(2)
  {
    ProbedBFacts();
    ClickIsProbe(ProbedB(), "A");
    ProbeOnPath(ProbedB(), "A");
  }

  lemma UndoneFacts()
    ensures Undone() == ProbedB()
  {
    ProbedBFacts();
    ProbedAFacts();
    ClickIsProbe(ProbedB(), "A");
    Simulation.ProbeThenUndo(ProbedB(), "A");
    Modes.DispatchPreservesInv(ProbedA(), BackButtonPress);
  }

  /** On the path A–B–C: probing B leaves only B possible on day 1; probing A
      then leaves A and C possible on day 2; one undo returns to day 1's
      flags; entering simulation mode again makes every node possible on day 0. */
  lemma PathScenario()
    ensures Flags(Day0()) == (true, true, true) && Day0().dayLabel == Some(0)
    ensures Flags(ProbedB()) == (false, true, false) && ProbedB().dayLabel == Some(1)
    ensures Flags(ProbedA()) == (true, false, true) && ProbedA().dayLabel == Some(2)
    ensures Flags(Undone()) == (false, true, false) && Undone().dayLabel == Some(1)
    ensures Flags(Reset()) == (true, true, true) && Reset().dayLabel == Some(0)
  {
    Day0Facts();
    ProbedBFacts();
    ProbedAFacts();
    UndoneFacts();
    EnterOnPath(Undone());
  }
}
