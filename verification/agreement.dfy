/** The earlier GoJS step (src/main.ts) and the current probe
    (src/state/simulation.ts) compute the same thing once "fox" is read as a
    true flag. */
module Agreement {
  import opened Wrappers
  import opened Graphs
  import opened AppState
  import Simulation
  import Legacy

  /** `g` and `d` have the same nodes and the same adjacency, and a node's
      flag is set exactly when its status is "fox". */
  ghost predicate Corresponds(g: Graph, d: Legacy.Diagram) {
    && g.Valid()
    && g.Nodes() == d.nodes.Keys
    && (forall a, b :: g.Adjacent(a, b) <==> Legacy.Linked(d, a, b))
    && (forall n :: n in d.nodes ==> (Simulation.PossibleFox(g, n) <==> d.nodes[n].status == Legacy.Fox))
  }

  /** One probe in the current rule: compute the snapshot and show it. */
  function Probe(g: Graph, p: NodeKey): Graph {
    Simulation.ApplySnapshot(g, Simulation.NextDay(g, p))
  }

  /** `Probe` is exactly what a click in simulation mode does to the graph. */
  lemma ProbeIsClick(w: World, p: NodeKey)
    requires w.mode == SimulationMode
    ensures Simulation.SimulateNextDay(w, p).graph == Probe(w.graph, p)
  {
  }

  /** Probing the same node in both versions gives the same new flags. */
  lemma StepsAgree(g: Graph, d: Legacy.Diagram, p: NodeKey)
    requires Corresponds(g, d)
    ensures forall n :: n in d.nodes ==>
      (Simulation.NextDay(g, p)[n] <==> Legacy.SimulateNextDay(d, p).nodes[n].status == Legacy.Fox)
  {
  }

  /** A probe changes no edge, so adjacency is that of the graph before. */
  lemma ProbeKeepsAdjacency(g: Graph, p: NodeKey)
    ensures Probe(g, p).edges == g.edges && Probe(g, p).Nodes() == g.Nodes()
    ensures forall a, b :: Probe(g, p).Adjacent(a, b) <==> g.Adjacent(a, b)
  {
  }

  lemma ProbeLinksCorrespond(g: Graph, d: Legacy.Diagram, p: NodeKey)
    requires Corresponds(g, d)
    ensures forall a, b :: Probe(g, p).Adjacent(a, b) <==> Legacy.Linked(Legacy.SimulateNextDay(d, p), a, b)
  {
    ProbeKeepsAdjacency(g, p);
    assert Legacy.SimulateNextDay(d, p).links == d.links;
  }

  lemma ProbeFlagsCorrespond(g: Graph, d: Legacy.Diagram, p: NodeKey)
    requires Corresponds(g, d)
    ensures forall n :: n in d.nodes ==>
      (Simulation.PossibleFox(Probe(g, p), n) <==> Legacy.SimulateNextDay(d, p).nodes[n].status == Legacy.Fox)
  {
  }

  /** After the same probe the two states still correspond. */
  lemma ProbeKeepsCorrespondence(g: Graph, d: Legacy.Diagram, p: NodeKey)
    requires Corresponds(g, d)
    ensures Corresponds(Probe(g, p), Legacy.SimulateNextDay(d, p))
  {
    ProbeKeepsAdjacency(g, p);
    ProbeLinksCorrespond(g, d, p);
    ProbeFlagsCorrespond(g, d, p);
  }

  /** Over any sequence of probes the two versions stay in step. */
  lemma {:induction false} RunsAgree(g: Graph, d: Legacy.Diagram, clicks: seq<NodeKey>)
    requires Corresponds(g, d)
    ensures Corresponds(ProbeAll(g, clicks), Legacy.RunDays(d, clicks))
    decreases |clicks|
  {
    if |clicks| > 0 {
      ProbeKeepsCorrespondence(g, d, clicks[0]);
      RunsAgree(Probe(g, clicks[0]), Legacy.SimulateNextDay(d, clicks[0]), clicks[1..]);
    }
  }

  function ProbeAll(g: Graph, clicks: seq<NodeKey>): Graph
    decreases |clicks|
  {
    if |clicks| == 0 then g else ProbeAll(Probe(g, clicks[0]), clicks[1..])
  }
}
