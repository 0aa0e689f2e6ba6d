# fox-and-graphs — a Dafny model

fox-and-graphs is a small browser tool for the "hunt the fox on a graph"
puzzle. A fox hides on a node of an undirected graph and moves to an adjacent
node every night. Each day the hunter inspects one node, and the tool tracks
which nodes may still hold the fox. This project models the tool's core as
immutable Dafny datatypes and pure functions:

- `graphs.dfy` (module `Graphs`): the graphology graph the tool edits. It is a
  map from node key to attributes (`x`, `y`, `size`, `possibleFox`) and a map
  from edge key to its ends. The mutations the tool calls return `None` where
  graphology throws.
- `app_state.dfy` (module `AppState`): the shared application state (`World`).
  It holds the mode, the day history, the selection, the drag state, the
  installed event subscriptions (`Binding`s), the active node reducer and the
  current mode's teardown. It also defines the user gestures that reach the
  handlers.
- `simulation.dfy` (module `Simulation`): simulation mode. A click on a node
  computes the next day's possible fox positions and pushes them onto the
  history. The back button pops the history. The node colour shows the flag.
- `edition.dfy` (module `Edition`): edition mode. It covers node creation,
  node and edge selection, edge creation, deletion with the Delete key, and
  dragging.
- `modes.dfy` (module `Modes`): the mode controller. `changeMode` runs the
  previous mode's teardown and then the new mode's setup. Gestures are
  dispatched to the subscribed handlers. Arbitrary runs of actions are
  covered.
- `legacy.dfy` (module `Legacy`): the earlier GoJS version of the day
  simulation, with `fox`/`empty`/`checked` statuses and a day counter.
- `agreement.dfy` (module `Agreement`): shows that the GoJS rule and the
  sigma/graphology rule compute the same possible-fox sets, one day at a time
  and over whole runs.
- `scenarios.dfy` (module `Scenarios`): a worked run on the path A–B–C
  through the real mode controller. It enters simulation, probes B, probes A,
  presses back, and re-enters simulation.

Three facts about the code shape the model:

- `createNode` neither rounds the position nor refuses an occupied one.
- Neither `createNode` nor `startDragging` selects the node.
- Edition mode sets no edge reducer.

## Model

| member | source | states |
|---|---|---|
| Graphs.AddNode | src/state/edition.ts:47 | graphology's `addNode` fails exactly when the key is already present; otherwise it adds one node with the given attributes and changes nothing else |
| Graphs.AddEdge | src/state/edition.ts:81 | `addEdge` on the default mixed, non-multi graph succeeds exactly when both ends exist, the key is new and no directed edge source→target exists; it then adds exactly that edge |
| Graphs.DropNode | src/state/edition.ts:88 | `dropNode` fails exactly on a missing key; otherwise it removes the node and exactly the edges touching it, and keeps every other node and edge unchanged |
| Graphs.DropEdge | src/state/edition.ts:89 | `dropEdge` fails exactly on a missing key; otherwise it removes that one edge and nothing else |
| Graphs.SetPosition | src/state/edition.ts:113-114 | moving a node fails exactly on a missing key; otherwise only that node's x and y change, and the topology is kept |
| Simulation.UpdateDayHtml | src/state/simulation.ts:11-16 | in simulation mode the day label shows the history length; outside it the label is kept; nothing else changes |
| Simulation.ResetFoxPositions | src/state/simulation.ts:18-22 | every node may hold the fox again; only the flags change |
| Simulation.ApplySnapshot | src/state/simulation.ts:28-30 | after applying a snapshot that covers the graph, each node's flag is that snapshot's entry; only the flags change |
| Simulation.UpdateFoxPositions | src/state/simulation.ts:24-31 | in simulation mode the displayed flags equal the last snapshot, or are all true when the history is empty; nothing but flags changes; outside simulation nothing happens |
| Simulation.NextDay | src/state/simulation.ts:40-49 | the next day has one entry per node, and a node may hold the fox iff some neighbour other than the inspected node may hold it today |
| Simulation.SimulateNextDay | src/state/simulation.ts:33-52 | a click in simulation mode appends exactly the next-day snapshot, sets the day label to the new history length, shows the new flags, and keeps the history consistent with the display; outside simulation it does nothing |
| Simulation.Back | src/state/simulation.ts:82-87 | the back button drops exactly the last day (a no-op on an empty history), and the display and day label follow the shortened history |
| Simulation.ProbeThenUndo | src/state/simulation.ts:33-87 | from any consistent simulation state, inspecting a node and then pressing back restores the whole state exactly |
| Simulation.Setup | src/state/simulation.ts:54-88 | entering simulation subscribes exactly the click and back handlers of a fresh generation, marks every node possible, installs the fox colouring, and starts an empty, consistent history at day 0 |
| Simulation.Release | src/state/simulation.ts:90-100 | teardown removes exactly the installed subscriptions, erases every possibleFox attribute, and restores the identity reducer |
| Simulation.Handle | src/state/simulation.ts:57-60 | a simulation handler changes only the flags, history and day label, and keeps the history consistent |
| Simulation.FoxColorShowsFlag | src/state/simulation.ts:66-76 | in a consistent state a node is drawn orange iff the history allows the fox there, and red otherwise |
| Edition.CreateNode | src/state/edition.ts:35-48 | a stage double-click in edition mode adds a node of size 30 at the clicked point under a fresh key; it changes nothing else, and it is refused when the key exists |
| Edition.ResetSelection | src/state/edition.ts:50-53 | a stage click clears the selection in edition mode only |
| Edition.SelectNode | src/state/edition.ts:55-61 | a node click selects that node in edition mode only |
| Edition.SelectEdge | src/state/edition.ts:63-70 | an edge click selects that edge in edition mode only |
| Edition.CreateEdge | src/state/edition.ts:72-82 | a right click with a node selected links the selected node to the clicked one, unless the target is the selected node, an end is missing, or the edge already exists; no self-loop is ever created |
| Edition.DeleteSelection | src/state/edition.ts:84-91 | deleting a selected node removes it with its edges; deleting a selected edge removes only that edge; either clears the selection; a failing delete leaves everything, the selection included, unchanged |
| Edition.StartDragging | src/state/edition.ts:93-102 | only a primary-button press starts a drag, and it records the pressed node |
| Edition.MoveNode | src/state/edition.ts:104-115 | while dragging a named node, a mouse move sets only that node's position; otherwise nothing changes |
| Edition.StopDragging | src/state/edition.ts:117-123 | mouse-up ends any drag and forgets the dragged node |
| Edition.PressKey | src/state/edition.ts:149-151 | only the Delete key acts, and it deletes the current selection |
| Edition.Setup | src/state/edition.ts:125-172 | entering edition clears drag and selection and subscribes exactly nine handlers of a fresh generation, with the selection reducer installed |
| Edition.Release | src/state/edition.ts:175-187 | teardown removes exactly the installed subscriptions and restores the identity reducer; the graph is untouched |
| Edition.Handle | src/state/edition.ts:132-151 | edition handlers never touch the mode, subscriptions, history or day label, and act only in edition mode |
| Edition.HandlePreservesInv | src/state/edition.ts:35-123 | every edition handler keeps the graph well formed, the selection pointing at an existing element, and the drag state coherent |
| Edition.CreateSelectDeleteNode | src/state/edition.ts:35-91 | creating a node, selecting it and pressing Delete gives back the original graph with nothing selected |
| Edition.CreateSelectDeleteEdge | src/state/edition.ts:72-91 | creating an edge, selecting it and pressing Delete gives back the original graph |
| Edition.SelectionColorAsWritten | src/state/edition.ts:163-172 | the reducer as written: outside edition a node keeps its colour; in edition it is dodgerblue iff its key equals the selection's key, whether a node or an edge is selected |
| Edition.EdgeSelectionHighlightsNode | src/state/edition.ts:163-172 | as written, selecting edge "0" highlights node "0" |
| Edition.SelectionColor | src/state/edition.ts:163-172 | corrected reducer: in edition mode a node is highlighted iff that node itself is selected; it agrees with the code whenever no edge is selected |
| Modes.Initial | src/state/state.ts:14-36 | the application starts in simulation mode with no teardown, no subscriptions and the identity reducer |
| Modes.ChangeMode | src/state/state.ts:16-32 | switching runs the old teardown first, then the new setup; the result has exactly the new mode's subscriptions, its reducer and a matching teardown, and leaves the topology alone |
| Modes.ToggleMode | src/state/state.ts:39-41 | toggling always switches to the other mode |
| Modes.CleanMeansOneSetup | src/state/state.ts:16-32 | in a clean state every subscription belongs to the current mode and to its latest setup, with one per trigger |
| Modes.InitialInv | src/state/state.ts:35-42 | the initial state satisfies the controller invariant |
| Modes.ChangeModePreservesInv | src/state/state.ts:16-32 | any mode change keeps the controller invariant |
| Modes.Dispatch | src/state/edition.ts:153-161 | delivering a gesture never changes the controller fields; with no subscriber nothing happens; with only one mode subscribed, exactly that mode's handler runs |
| Modes.DispatchPreservesInv | src/state/edition.ts:153-161 | dispatching a gesture keeps the invariant and runs exactly the current mode's handler; with no subscriber, nothing happens |
| Modes.StepPreservesInv | src/state/state.ts:16-41 | a mode change, a toggle or a gesture keeps the controller invariant |
| Modes.RunPreservesInv | src/state/state.ts:16-41 | every finite run of actions keeps the controller invariant |
| Modes.NoAccumulation | src/state/state.ts:16-32 | after any run, the subscriptions are exactly those of the current mode's latest setup; handlers never pile up or survive a mode change |
| Modes.ReenterSameMode | src/state/state.ts:16-32 | re-selecting the current mode replaces every subscription with a fresh one and restarts that mode |
| Modes.NodeColor | src/state/edition.ts:163-172 | sigma draws a node with the installed reducer: the node's own colour under the identity reducer; red iff its flag is false, else orange, under the fox reducer; dodgerblue iff its key equals the selection's key, in edition mode, under the selection reducer |
| Modes.ColorsFollowMode | src/state/simulation.ts:66-97 | in a reachable state: before any setup a node keeps its own colour; in simulation it is orange iff the history allows the fox there; in edition it is dodgerblue iff its key equals the selection's key, which is exactly "this node is selected" unless an edge is selected |
| Legacy.DefaultNodeData | src/main.ts:4 | a new GoJS node starts as "fox" and is drawn as an orange ellipse |
| Legacy.InitialDiagram | src/main.ts:65-80 | the diagram starts with two fox nodes joined by one link, on day 1 |
| Legacy.NewStatuses | src/main.ts:101-111 | each node becomes fox iff some connected node was fox, and empty otherwise; there is one entry per node |
| Legacy.ApplyStatuses | src/main.ts:114-124 | each node receives its computed status with the matching colour and figure; links and day are unchanged |
| Legacy.Mark | src/main.ts:92 | the clicked node's status becomes "checked", so it stops counting as a fox; every other node's data, the links and the day are unchanged; an unknown key changes nothing |
| Legacy.SimulateNextDay | src/main.ts:86-129 | one day advances the counter by one and leaves only fox/empty statuses; a node is fox iff a connected node other than the clicked one was fox; colours and figures follow the status |
| Legacy.DayCounter | src/main.ts:80-126 | after n clicks the day counter has grown by exactly n, starting from 1 |
| Agreement.StepsAgree | src/main.ts:104-111 | on corresponding graphs, one inspection of the same node gives the same possible-fox set in both implementations: a node is flagged by the sigma rule iff it becomes "fox" under the GoJS rule |
| Agreement.ProbeIsClick | src/state/simulation.ts:33-52 | in simulation mode a click changes the graph exactly as the probe the agreement lemmas reason about |
| Agreement.ProbeKeepsCorrespondence | src/state/simulation.ts:33-52 | after one inspection the two representations still correspond |
| Agreement.RunsAgree | src/state/simulation.ts:33-52 | over any sequence of inspections the two implementations keep corresponding |
| Scenarios.PathScenario | src/state/simulation.ts:33-100 | on the path A–B–C: start (T,T,T) day 0; probe B gives (F,T,F) day 1; probe A gives (T,F,T) day 2; back gives (F,T,F) day 1; re-entering simulation gives (T,T,T) day 0 |

## Left out

- DOM output is left out: the `#day` text, `#mode-name`, the body class and the back-button element lookup. The day label is kept as a number (`dayLabel`).
- `console.log` calls are left out; they have no effect on state.
- `preventSigmaDefault` and event default-prevention are left out; they only suppress sigma's own camera behaviour.
- `viewportToGraph` is left out: positions arrive already in graph coordinates, as `real` numbers, so floating-point rounding is not modelled.
- `uuid()` and graphology's generated edge keys are parameters of `CreateNode` and `CreateEdge`. A colliding key is refused, as graphology would refuse it.
- `edgeCreation.tempNode` is never read, so it is not modelled.
- `src/load.ts` (GEXF loading and the sigma instance) is not part of this model. Node attributes other than position, size and `possibleFox` are left out, and the base colour is a parameter of the reducers.
- The initial `history`, `selection` and `drag` are undefined in the code. They are modelled as empty/none, because no handler can read them before the first `changeMode`.
- ApplySnapshot: graphology would throw on a snapshot key absent from the graph; the model skips such keys. This never arises, because the topology is frozen in simulation mode.
- Modes.Dispatch runs each mode's handler at most once per gesture. Duplicate subscriptions of one mode, which would run twice, cannot occur (`Modes.NoAccumulation`).
- The GoJS part leaves out node and link templates, the model-changed listener that renders the day, the undo manager, transaction boundaries and the linking and relinking tools. GoJS node keys are modelled as the strings "-1" and "-2" that the initial link data names.
- Graphs.AddEdge assumes that the graph `parse(Graph, gexf)` builds in `src/load.ts` is mixed and not multi, like graphology's default graph. `Edition.CreateEdge` refuses a duplicate directed edge only because of that assumption.

## Findings

| source | as written | input that shows it | evidently intended | confidence | as-written member | corrected member |
|---|---|---|---|---|---|---|
| src/state/edition.ts:163-172 | the reducer highlights any node whose key equals `state.selection?.key`, even when the selection is an edge | nodes "0" and "1" with an edge keyed "0"; selecting edge "0" paints node "0" dodgerblue | highlight a node only when that node is the selection | medium, not executed | Edition.SelectionColorAsWritten, shown by Edition.EdgeSelectionHighlightsNode | Edition.SelectionColor |
