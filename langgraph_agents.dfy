/**
 * The two-node pipeline of app/agents/langgraph_agents.py: a shared state
 * record, two node functions that each fill in one field, and the graph
 * `analyze -> summarize -> END` that runs them.
 *
 * The language model is the uninterpreted function `gen`: it maps a prompt to
 * the `'response'` field of the daemon's answer.
 */
module LanggraphAgents {
  import opened Wrappers

  /**
   * `GraphState`: `text` is always given; `analysis` and `summary` are keys
   * that are absent until a node writes them.
   */
  datatype GraphState = GraphState(text: string, analysis: Option<string>, summary: Option<string>)

  /** The input of `app.invoke({"text": ...})`. */
  function Initial(text: string): GraphState
  {
    GraphState(text, None, None)
  }

  const AnalyzePrompt := "Analyze this text: "
  const SummarizePrompt := "Summarize: "

  /** The two nodes of the graph, `"analyze"` and `"summarize"`. */
  datatype Node = AnalyzeNode | SummarizeNode

  const AllNodes: set<Node> := {AnalyzeNode, SummarizeNode}

  /** Where an edge leads: another node, or the `END` marker. */
  datatype Target = To(node: Node) | End

  datatype GraphError =
    | MissingKey(key: string)   // a node read a key that no node has written
    | NoEntryPoint
    | NoEdge(from: Node)        // a node without an outgoing edge
    | Cycle(at: Node)           // the walk came back to a node it had run

  /** `analyze_text`: writes `analysis` from a prompt built on `text`, and nothing else. */
  function AnalyzeText(state: GraphState, gen: string -> string): (next: GraphState)
    ensures next.analysis == Some(gen(AnalyzePrompt + state.text))
    ensures next.text == state.text && next.summary == state.summary
  {
    state.(analysis := Some(gen(AnalyzePrompt + state.text)))
  }

  /**
   * `summarize`: writes `summary` from a prompt built on `analysis`, and
   * nothing else; reading an absent `analysis` raises, as `state['analysis']` does.
   */
  function Summarize(state: GraphState, gen: string -> string): (r: Result<GraphState, GraphError>)
    ensures r.Failure? <==> state.analysis.None?
    ensures r.Failure? ==> r.error == MissingKey("analysis")
    ensures r.Success? ==> r.value.summary == Some(gen(SummarizePrompt + state.analysis.value))
    ensures r.Success? ==> r.value.text == state.text && r.value.analysis == state.analysis
  {
    match state.analysis
    case None => Failure(MissingKey("analysis"))
    case Some(analysis) => Success(state.(summary := Some(gen(SummarizePrompt + analysis))))
  }

  /** The function registered under each node by `add_node`. */
  function RunNode(node: Node, state: GraphState, gen: string -> string): Result<GraphState, GraphError>
  {
    match node
    case AnalyzeNode => Success(AnalyzeText(state, gen))
    case SummarizeNode => Summarize(state, gen)
  }

  /** A `StateGraph` under construction: its nodes, entry point and edges. */
  datatype StateGraph = StateGraph(nodes: set<Node>, entry: Option<Node>, edges: map<Node, Target>)

  function NewStateGraph(): (g: StateGraph)
    ensures g.nodes == {} && g.entry == None && g.edges == map[]
  {
    StateGraph({}, None, map[])
  }

  function AddNode(g: StateGraph, node: Node): (h: StateGraph)
    ensures h.nodes == g.nodes + {node} && h.entry == g.entry && h.edges == g.edges
  {
    g.(nodes := g.nodes + {node})
  }

  function SetEntryPoint(g: StateGraph, node: Node): (h: StateGraph)
    ensures h.entry == Some(node) && h.nodes == g.nodes && h.edges == g.edges
  {
    g.(entry := Some(node))
  }

  function AddEdge(g: StateGraph, from: Node, to: Target): (h: StateGraph)
    ensures from in h.edges && h.edges[from] == to
    ensures forall n :: n in g.edges && n != from ==> n in h.edges && h.edges[n] == g.edges[n]
    ensures h.edges.Keys == g.edges.Keys + {from}
    ensures h.nodes == g.nodes && h.entry == g.entry
  {
    g.(edges := g.edges[from := to])
  }

  /** The graph built at lines 28-37: both nodes, entry `analyze`, edges `analyze -> summarize -> END`. */
  function Workflow(): (g: StateGraph)
    ensures g.nodes == AllNodes
    ensures g.entry == Some(AnalyzeNode)
    ensures g.edges == map[AnalyzeNode := To(SummarizeNode), SummarizeNode := End]
  {
    var g := NewStateGraph();
    var g := AddNode(g, AnalyzeNode);
    var g := AddNode(g, SummarizeNode);
    var g := SetEntryPoint(g, AnalyzeNode);
    var g := AddEdge(g, AnalyzeNode, To(SummarizeNode));
    AddEdge(g, SummarizeNode, End)
  }

  /** The elements of `path` are pairwise distinct. */
  predicate Distinct(path: seq<Node>)
  {
    forall i, j :: 0 <= i < j < |path| ==> path[i] != path[j]
  }

  /** `path` follows the edges of `g` from its first node and the last edge leads to `END`. */
  predicate FollowsEdges(g: StateGraph, path: seq<Node>)
  {
    && path != []
    && (forall i :: 0 <= i < |path| ==> path[i] in g.edges)
    && (forall i :: 0 <= i < |path| - 1 ==> g.edges[path[i]] == To(path[i + 1]))
    && g.edges[path[|path| - 1]] == End
  }

  /**
   * The nodes run, in order, from `from` until an edge leads to `END`; a node
   * met a second time is reported as a cycle instead of looping forever.
   */
  function Walk(g: StateGraph, from: Node, visited: set<Node>): (r: Result<seq<Node>, GraphError>)
    requires visited <= AllNodes
    ensures r.Success? ==> FollowsEdges(g, r.value) && r.value[0] == from
    ensures r.Success? ==> Distinct(r.value) && forall i :: 0 <= i < |r.value| ==> r.value[i] !in visited
    decreases AllNodes - visited
  {
    if from in visited then Failure(Cycle(from))
    else if from !in g.edges then Failure(NoEdge(from))
    else
      assert from == AnalyzeNode || from == SummarizeNode;
      match g.edges[from]
      case End => Success([from])
      case To(next) =>
        var rest :- Walk(g, next, visited + {from});
        Success([from] + rest)
  }

  /**
   * `compile()` and the walk from the entry point: no entry point is an error,
   * otherwise the nodes run are those of the walk from the entry point.
   */
  function Run(g: StateGraph): (r: Result<seq<Node>, GraphError>)
    ensures g.entry.None? ==> r == Failure(NoEntryPoint)
    ensures r.Success? ==> FollowsEdges(g, r.value) && Distinct(r.value)
    ensures r.Success? ==> g.entry.Some? && r.value[0] == g.entry.value
  {
    match g.entry
    case None => Failure(NoEntryPoint)
    case Some(entry) => Walk(g, entry, {})
  }

  /** Runs the nodes of `path` in order, each on the state the previous one returned. */
  function Execute(path: seq<Node>, state: GraphState, gen: string -> string): (r: Result<GraphState, GraphError>)
    ensures r.Success? ==> r.value.text == state.text
    ensures r.Success? && (AnalyzeNode in path || state.analysis.Some?) ==> r.value.analysis.Some?
  {
    if path == [] then Success(state)
    else
      var next :- RunNode(path[0], state, gen);
      Execute(path[1..], next, gen)
  }

  /** A walk takes at most one step per node it has not yet run. */
  lemma {:induction false} WalkBound(g: StateGraph, from: Node, visited: set<Node>)
    requires visited <= AllNodes
    ensures var r := Walk(g, from, visited);
            r.Success? ==> |r.value| <= |AllNodes - visited|
    decreases AllNodes - visited
  {
    if from !in visited && from in g.edges {
      var unvisited := AllNodes - (visited + {from});
      assert from == AnalyzeNode || from == SummarizeNode;
      assert AllNodes - visited == unvisited + {from} && from !in unvisited;
      assert |AllNodes - visited| == |unvisited| + 1;
      match g.edges[from]
      case End =>
      case To(next) =>
        var rest := Walk(g, next, visited + {from});
        WalkBound(g, next, visited + {from});
        if rest.Success? {
          assert Walk(g, from, visited) == Success([from] + rest.value);
        }
    }
  }

  /** Whatever its edges, a graph of these two nodes finishes its walk within two steps. */
  lemma RunAtMostTwoSteps(g: StateGraph)
    ensures Run(g).Success? ==> |Run(g).value| <= 2
  {
    if g.entry.Some? {
      WalkBound(g, g.entry.value, {});
      assert AllNodes - {} == AllNodes;
    }
  }

  /**
   * `app.invoke({"text": text})`: walk the graph, then run its nodes in that
   * order. A graph that cannot be walked runs nothing; a run that succeeds keeps
   * the text and has analysed it, since `summarize` cannot come first.
   */
  function Invoke(g: StateGraph, text: string, gen: string -> string): (r: Result<GraphState, GraphError>)
    ensures Run(g).Failure? ==> r.Failure?
    ensures r.Success? ==> r.value.text == text && r.value.analysis.Some?
  {
    var path :- Run(g);
    Execute(path, Initial(text), gen)
  }

  /** Any graph with the workflow's edges, walked from `analyze`, runs both nodes once, in order. */
  lemma WalkFromAnalyze(g: StateGraph)
    requires g.edges == map[AnalyzeNode := To(SummarizeNode), SummarizeNode := End]
    ensures Walk(g, AnalyzeNode, {}) == Success([AnalyzeNode, SummarizeNode])
  {
    assert Walk(g, SummarizeNode, {AnalyzeNode}) == Success([SummarizeNode]);
    assert [AnalyzeNode] + [SummarizeNode] == [AnalyzeNode, SummarizeNode];
  }

  /** The walk of the workflow runs `analyze` and then `summarize`, once each, and stops. */
  lemma WorkflowWalk()
    ensures Run(Workflow()) == Success([AnalyzeNode, SummarizeNode])
  {
    WalkFromAnalyze(Workflow());
  }

  /** Invoking the workflow on `text` fills in all three fields from the two prompts. */
  lemma InvokeWorkflow(text: string, gen: string -> string)
    ensures var analysis := gen(AnalyzePrompt + text);
            Invoke(Workflow(), text, gen)
            == Success(GraphState(text, Some(analysis), Some(gen(SummarizePrompt + analysis))))
  {
    WorkflowWalk();
    var s1 := AnalyzeText(Initial(text), gen);
    var s2 := Summarize(s1, gen);
    assert Execute([SummarizeNode], s1, gen) == s2;
    assert Execute([AnalyzeNode, SummarizeNode], Initial(text), gen) == s2;
  }

  /**
   * Whatever graph is built from these two nodes, a successful invocation has
   * written exactly the analysis of the input text: `analyze` ran first and
   * only once.
   */
  lemma InvokeAnalysis(g: StateGraph, text: string, gen: string -> string)
    ensures var r := Invoke(g, text, gen);
            r.Success? ==> r.value.analysis == Some(gen(AnalyzePrompt + text))
  {
    var run := Run(g);
    if run.Success? && Invoke(g, text, gen).Success? {
      var path := run.value;
      assert path[0] == AnalyzeNode;
      var s1 := AnalyzeText(Initial(text), gen);
      assert Execute(path, Initial(text), gen) == Execute(path[1..], s1, gen);
      assert AnalyzeNode !in path[1..] by {
        forall i | 0 <= i < |path[1..]| ensures path[1..][i] != AnalyzeNode {
          assert path[1..][i] == path[i + 1] && path[0] != path[i + 1];
        }
      }
      ExecutePassesThrough(path[1..], s1, gen);
    }
  }

  /** `summarize` depends on `analyze`: run first, it finds no analysis. */
  lemma SummarizeNeedsAnalysis(text: string, gen: string -> string)
    ensures Execute([SummarizeNode, AnalyzeNode], Initial(text), gen) == Failure(MissingKey("analysis"))
  {
  }

  /** Over any run of nodes, a field that no node of the run writes passes through. */
  lemma {:induction false} ExecutePassesThrough(path: seq<Node>, state: GraphState, gen: string -> string)
    ensures var r := Execute(path, state, gen);
            r.Success? ==>
              && (AnalyzeNode !in path ==> r.value.analysis == state.analysis)
              && (SummarizeNode !in path ==> r.value.summary == state.summary)
  {
    if path != [] {
      var next := RunNode(path[0], state, gen);
      if next.Success? {
        ExecutePassesThrough(path[1..], next.value, gen);
        assert forall n :: n in path[1..] ==> n in path;
      }
    }
  }
}
