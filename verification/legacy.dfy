/** The earlier single-file version of the simulator (src/main.ts), built on
    a GoJS diagram: node statuses "fox", "empty" and "checked", a day step
    computed in two phases, and a day counter kept in the model data. */
module Legacy {
  import opened Wrappers
  import opened Graphs

  datatype Status = Fox | Empty | Checked

  const FoxColor: string := "#E67300"
  const EmptyColor: string := "#CC1400"
  const FoxFigure: string := "Ellipse"
  const EmptyFigure: string := "RoundedRectangle"

  /** A node's data object. `color` and `figure` are absent until a step
      writes them; the node template then draws the fox colour and figure. */
  datatype NodeData = NodeData(status: Status, color: Option<string>, figure: Option<string>)

  /** A link's data object; links are drawn without arrowheads and connect
      both ways. */
  datatype Link = Link(from: NodeKey, to: NodeKey) {
    predicate Joins(a: NodeKey, b: NodeKey) {
      (from == a && to == b) || (from == b && to == a)
    }
  }

  datatype Diagram = Diagram(nodes: map<NodeKey, NodeData>, links: seq<Link>, day: int)

  /** `defaultNodeData`: a fresh data object whose status is "fox". */
  function DefaultNodeData(): (d: NodeData)
    ensures d.status == Fox && DisplayedFill(d) == FoxColor && DisplayedFigure(d) == FoxFigure
  {
    NodeData(Fox, None, None)
  }

  /** The fill the template draws: the `color` binding, else the template's fox colour. */
  function DisplayedFill(d: NodeData): string {
    d.color.GetOr(FoxColor)
  }

  /** The figure the template draws: the `figure` binding, else the fox figure. */
  function DisplayedFigure(d: NodeData): string {
    d.figure.GetOr(FoxFigure)
  }

  /** Some link joins `a` and `b`, in either direction. */
  predicate Linked(d: Diagram, a: NodeKey, b: NodeKey) {
    exists i :: 0 <= i < |d.links| && d.links[i].Joins(a, b)
  }

  /** `m` is among the nodes `findNodesConnected` yields for `n`. */
  predicate Connected(d: Diagram, n: NodeKey, m: NodeKey) {
    m in d.nodes && Linked(d, n, m)
  }

  /** The model at load time: two default nodes, keyed "-1" and "-2" as the
      link data names them, joined by one link, on day 1. */
  function InitialDiagram(): (d: Diagram)
    ensures d.nodes.Keys == {"-1", "-2"} && |d.links| == 1 && d.day == 1
    ensures forall n :: n in d.nodes ==> d.nodes[n].status == Fox && DisplayedFill(d.nodes[n]) == FoxColor
    ensures Connected(d, "-1", "-2") && Connected(d, "-2", "-1")
  {
    var d := Diagram(map["-1" := DefaultNodeData(), "-2" := DefaultNodeData()], [Link("-1", "-2")], 1);
    assert d.links[0].Joins("-1", "-2") && d.links[0].Joins("-2", "-1");
    d
  }

  function ColorOf(s: Status): string {
    if s == Fox then FoxColor else EmptyColor
  }

  function FigureOf(s: Status): string {
    if s == Fox then FoxFigure else EmptyFigure
  }

  /** The first phase: every node's new status, read from the statuses the
      diagram holds before anything is written. A node is "empty" when no
      connected node is "fox". */
  function NewStatuses(d: Diagram): (s: map<NodeKey, Status>)
    ensures s.Keys == d.nodes.Keys
    ensures forall n :: n in s ==> s[n] != Checked
    ensures forall n :: n in s ==> (s[n] == Fox <==> exists m :: Connected(d, n, m) && d.nodes[m].status == Fox)
  {
    map n | n in d.nodes :: if forall m | m in d.nodes :: Linked(d, n, m) ==> d.nodes[m].status != Fox then Empty else Fox
  }

  /** The second phase: writes status, colour and figure of every node the
      status map names. */
  function ApplyStatuses(d: Diagram, s: map<NodeKey, Status>): (r: Diagram)
    ensures r.nodes.Keys == d.nodes.Keys && r.links == d.links && r.day == d.day
    ensures forall n :: n in s && n in d.nodes ==> r.nodes[n] == NodeData(s[n], Some(ColorOf(s[n])), Some(FigureOf(s[n])))
  {
    d.(nodes := map n | n in d.nodes ::
         if n in s then NodeData(s[n], Some(ColorOf(s[n])), Some(FigureOf(s[n]))) else d.nodes[n])
  }

  /** `simulateNextDay(p)`: marks the clicked node "checked", computes and
      applies the new statuses, and advances the day counter. */
  function SimulateNextDay(d: Diagram, p: NodeKey): (r: Diagram)
    ensures r.nodes.Keys == d.nodes.Keys && r.links == d.links
    ensures r.day == d.day + 1
    ensures forall n :: n in r.nodes ==> r.nodes[n].status == Fox || r.nodes[n].status == Empty
    ensures forall n :: n in r.nodes ==>
      (r.nodes[n].status == Fox <==> exists m :: Connected(d, n, m) && m != p && d.nodes[m].status == Fox)
    ensures forall n :: n in r.nodes ==>
      && DisplayedFill(r.nodes[n]) == (if r.nodes[n].status == Fox then FoxColor else EmptyColor)
      && DisplayedFigure(r.nodes[n]) == (if r.nodes[n].status == Fox then FoxFigure else EmptyFigure)
  {
    var marked := Mark(d, p);
    var r := ApplyStatuses(marked, NewStatuses(marked));
    r.(day := d.day + 1)
  }

  /** Marks the clicked node "checked" so that it counts as no fox for its
      neighbours. */
  function Mark(d: Diagram, p: NodeKey): (r: Diagram)
    ensures r.nodes.Keys == d.nodes.Keys && r.links == d.links && r.day == d.day
    ensures forall n, m :: Connected(r, n, m) <==> Connected(d, n, m)
    ensures forall m :: m in r.nodes ==> (r.nodes[m].status == Fox <==> m != p && d.nodes[m].status == Fox)
    ensures p in d.nodes ==> r.nodes == d.nodes[p := d.nodes[p].(status := Checked)]
    ensures p !in d.nodes ==> r == d
  {
    if p in d.nodes then d.(nodes := d.nodes[p := d.nodes[p].(status := Checked)]) else d
  }

  /** One step per clicked node, in order. */
  function RunDays(d: Diagram, clicks: seq<NodeKey>): Diagram
    decreases |clicks|
  {
    if |clicks| == 0 then d else RunDays(SimulateNextDay(d, clicks[0]), clicks[1..])
  }

  /** The counter advances by exactly one per step: after any clicks on the
      initial model it shows one more than the number of clicks. */
  lemma {:induction false} DayCounter(d: Diagram, clicks: seq<NodeKey>)
    ensures RunDays(d, clicks).day == d.day + |clicks|
    ensures RunDays(InitialDiagram(), clicks).day == 1 + |clicks|
    decreases |clicks|
  {
    if |clicks| > 0 {
      DayCounter(SimulateNextDay(d, clicks[0]), clicks[1..]);
      DayCounter(SimulateNextDay(InitialDiagram(), clicks[0]), clicks[1..]);
    }
  }
}
