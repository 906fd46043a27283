/** `aiStepsToCanvas`: the step list of the AI planner becomes a strategy graph. */
module AiCompile {
  import opened Wrappers
  import opened Graph
  import opened Naming

  /** `None` stands for a missing token; empty strings are as falsy as they are in the source. */
  datatype Token = Token(symbol: string, amount: string)

  datatype Step = Step(typ: string, tokenIn: Option<Token>, tokenOut: Option<Token>)

  function LowerChar(c: char): char {
    if 'A' <= c <= 'Z' then c + ('a' - 'A') else c
  }

  function Lower(s: string): string {
    seq(|s|, i requires 0 <= i < |s| => LowerChar(s[i]))
  }

  /** The table of step types is a plain object, so the names every object inherits pass the
      lookup as well; of these only two are in lower case. */
  function KindOf(t: string): Option<Kind> {
    if t == "supply" then Some(Supply)
    else if t == "borrow" then Some(Borrow)
    else if t == "swap" then Some(Swap)
    else if t == "repeat" then Some(Repeat)
    else if t == "settle" then Some(Settle)
    else if t == "vault" then Some(Vault)
    else if t == "constructor" || t == "__proto__" then Some(Custom(t))
    else None
  }

  function StepKind(step: Step): Option<Kind> {
    KindOf(Lower(step.typ))
  }

  function SymbolOr(t: Option<Token>, default: string): string {
    if t.Some? && t.value.symbol != "" then t.value.symbol else default
  }

  function AmountOf(t: Option<Token>): string {
    if t.Some? && t.value.amount != "" then t.value.amount else "0"
  }

  function ConfigFor(step: Step, kind: Kind): Config {
    match kind
    case Supply => map["asset" := SymbolOr(step.tokenIn, "USDC"), "amount" := AmountOf(step.tokenIn)]
    case Borrow => map["asset" := SymbolOr(step.tokenOut, "USDC"), "ltv" := "50", "amount" := AmountOf(step.tokenOut)]
    case Swap => map["from" := SymbolOr(step.tokenIn, "USDC"), "to" := SymbolOr(step.tokenOut, "WETH"),
                     "slip" := "0.5", "amount" := "≈" + AmountOf(step.tokenOut)]
    case Repeat => map["loops" := "3"]
    case Vault => map["asset" := "USDC", "amount" := "5,000", "strategyId" := "0"]
    case Settle => map[]
    case Custom(_) => map[]
  }

  function StepId(prefix: string, i: nat): Id {
    prefix + Decimal(i)
  }

  /** One node per recognised step, named after the position of the step. */
  function StepNodes(prefix: string, steps: seq<Step>): seq<Node> {
    if steps == [] then []
    else
      var i := |steps| - 1;
      var kind := StepKind(steps[i]);
      StepNodes(prefix, steps[..i])
      + if kind.Some? then [Node(StepId(prefix, i), kind.value, 0.0, 0.0, ConfigFor(steps[i], kind.value))] else []
  }

  /** The simple path through `ids`. */
  function Chain(ids: seq<Id>): (r: seq<Edge>)
    ensures |r| == if ids == [] then 0 else |ids| - 1
    ensures forall i :: 0 <= i < |r| ==> r[i] == Edge(ids[i], ids[i + 1])
  {
    if |ids| <= 1 then []
    else seq(|ids| - 1, i requires 0 <= i < |ids| - 1 => Edge(ids[i], ids[i + 1]))
  }

  function CanvasNodes(prefix: string, steps: seq<Step>): seq<Node> {
    var nodes := StepNodes(prefix, steps);
    if nodes == [] || nodes[|nodes| - 1].kind == Settle then nodes
    else nodes + [Node(prefix + "settle", Settle, 0.0, 0.0, map[])]
  }

  // ----- what each step becomes -----

  function NameOf(kind: Kind): string {
    match kind
    case Supply => "supply"
    case Borrow => "borrow"
    case Swap => "swap"
    case Repeat => "repeat"
    case Settle => "settle"
    case Vault => "vault"
    case Custom(name) => name
  }

  /** A step type is recognised exactly by the name of its kind. */
  lemma KindOfIff(t: string, kind: Kind)
    ensures KindOf(t) == Some(kind)
            <==> t == NameOf(kind) && (kind.Custom? ==> t == "constructor" || t == "__proto__")
  {}

  /** What a token says, or the default where it says nothing. */
  ghost predicate Says(text: string, said: Option<string>, default: string) {
    text == if said.None? || said.value == "" then default else said.value
  }

  function SymbolOf(t: Option<Token>): Option<string> {
    if t.Some? then Some(t.value.symbol) else None
  }

  function QuantityOf(t: Option<Token>): Option<string> {
    if t.Some? then Some(t.value.amount) else None
  }

  /** A supply takes its asset and amount from the token put in, a borrow from the token taken
      out, and a swap its assets from both and its amount, marked as estimated, from the latter. */
  lemma ConfigSaysTokens(step: Step)
    ensures var c := ConfigFor(step, Supply);
            && "asset" in c && Says(c["asset"], SymbolOf(step.tokenIn), "USDC")
            && "amount" in c && Says(c["amount"], QuantityOf(step.tokenIn), "0")
    ensures var c := ConfigFor(step, Borrow);
            && "asset" in c && Says(c["asset"], SymbolOf(step.tokenOut), "USDC")
            && "amount" in c && Says(c["amount"], QuantityOf(step.tokenOut), "0")
            && "ltv" in c && c["ltv"] == "50"
    ensures var c := ConfigFor(step, Swap);
            && "from" in c && Says(c["from"], SymbolOf(step.tokenIn), "USDC")
            && "to" in c && Says(c["to"], SymbolOf(step.tokenOut), "WETH")
            && "amount" in c && c["amount"] != [] && c["amount"][0] == '≈'
            && Says(c["amount"][1..], QuantityOf(step.tokenOut), "0")
            && "slip" in c && c["slip"] == "0.5"
  {}

  /** `n` is what step `i` becomes. */
  ghost predicate IsStep(prefix: string, steps: seq<Step>, n: Node, i: nat) {
    && i < |steps| && n.id == prefix + Decimal(i)
    && StepKind(steps[i]) == Some(n.kind) && n.config == ConfigFor(steps[i], n.kind)
  }

  /** `at` lists, in order, the positions of the recognised steps, and `nodes` what they become. */
  ghost predicate IsSteps(prefix: string, steps: seq<Step>, nodes: seq<Node>, at: seq<nat>) {
    && |at| == |nodes|
    && (forall j, k :: 0 <= j < k < |at| ==> at[j] < at[k])
    && (forall i: nat :: i < |steps| ==> (StepKind(steps[i]).Some? <==> i in at))
    && (forall k :: 0 <= k < |at| ==> IsStep(prefix, steps, nodes[k], at[k]))
  }

  lemma IsStepsNext(prefix: string, front: seq<Step>, step: Step, nodes: seq<Node>, at: seq<nat>)
    requires IsSteps(prefix, front, nodes, at)
    ensures StepKind(step).None? ==> IsSteps(prefix, front + [step], nodes, at)
    ensures StepKind(step).Some? ==>
              var kind := StepKind(step).value;
              var n := Node(StepId(prefix, |front|), kind, 0.0, 0.0, ConfigFor(step, kind));
              IsSteps(prefix, front + [step], nodes + [n], at + [|front|])
  {
    var steps := front + [step];
    forall k | 0 <= k < |at|
      ensures at[k] < |front| && IsStep(prefix, steps, nodes[k], at[k])
    {
      assert IsStep(prefix, front, nodes[k], at[k]);
      assert steps[at[k]] == front[at[k]];
    }
    assert forall i: nat :: i < |front| ==> steps[i] == front[i];
    assert steps[|front|] == step && |front| !in at;
  }

  /** The compiled nodes are the recognised steps in step order, each with its own kind. */
  lemma {:induction false} StepNodesSelect(prefix: string, steps: seq<Step>) returns (at: seq<nat>)
    ensures IsSteps(prefix, steps, StepNodes(prefix, steps), at)
  {
    if steps == [] {
      at := [];
    } else {
      var front, step := steps[..|steps| - 1], steps[|steps| - 1];
      at := StepNodesSelect(prefix, front);
      IsStepsNext(prefix, front, step, StepNodes(prefix, front), at);
      assert steps == front + [step];
      if StepKind(step).Some? {
        at := at + [|front|];
      } else {
        assert StepNodes(prefix, front) + [] == StepNodes(prefix, front);
      }
    }
  }

  /** A settle is appended exactly when steps are recognised and the last of them is none. */
  lemma SettleOnlyIfMissing(prefix: string, steps: seq<Step>)
    ensures var nodes, canvas := StepNodes(prefix, steps), CanvasNodes(prefix, steps);
            && nodes <= canvas && |canvas| <= |nodes| + 1
            && (canvas != nodes <==> nodes != [] && nodes[|nodes| - 1].kind != Settle)
  {}

  // ----- ids are distinct -----

  lemma {:induction false} StepNodeIds(prefix: string, steps: seq<Step>)
    ensures forall n :: n in StepNodes(prefix, steps) ==> exists i: nat :: i < |steps| && n.id == StepId(prefix, i)
    ensures DistinctIds(StepNodes(prefix, steps))
  {
    if steps != [] {
      var i := |steps| - 1;
      var rest := StepNodes(prefix, steps[..i]);
      StepNodeIds(prefix, steps[..i]);
      forall n | n in rest
        ensures n.id != StepId(prefix, i)
      {
        var j: nat :| j < i && n.id == StepId(prefix, j);
        if StepId(prefix, j) == StepId(prefix, i) {
          PrefixedInjective(prefix, Decimal(j), Decimal(i));
          DecimalInjective(j, i);
        }
      }
      assert forall k :: 0 <= k < |rest| ==> rest[k] in rest;
    }
  }

  lemma SettleIdIsNew(prefix: string, i: nat)
    ensures prefix + "settle" != StepId(prefix, i)
  {
    assert (prefix + "settle")[|prefix|] == 's';
    assert StepId(prefix, i)[|prefix|] == Decimal(i)[0];
  }

  lemma CanvasIdsDistinct(prefix: string, steps: seq<Step>)
    ensures DistinctIds(CanvasNodes(prefix, steps))
  {
    var nodes := StepNodes(prefix, steps);
    StepNodeIds(prefix, steps);
    forall k | 0 <= k < |nodes|
      ensures nodes[k].id != prefix + "settle"
    {
      assert nodes[k] in nodes;
      var i: nat :| i < |steps| && nodes[k].id == StepId(prefix, i);
      SettleIdIsNew(prefix, i);
    }
  }

  /** The compiled graph is a path: distinct ids, and unless it is empty it ends in settle. */
  lemma CanvasIsSettledPath(prefix: string, steps: seq<Step>)
    ensures var nodes := CanvasNodes(prefix, steps);
            && DistinctIds(nodes)
            && (nodes != [] ==> nodes[|nodes| - 1].kind == Settle)
            && (nodes == [] <==> forall s :: s in steps ==> StepKind(s).None?)
  {
    CanvasIdsDistinct(prefix, steps);
    NoStepsNoNodes(prefix, steps);
  }

  lemma {:induction false} NoStepsNoNodes(prefix: string, steps: seq<Step>)
    ensures StepNodes(prefix, steps) == [] <==> forall s :: s in steps ==> StepKind(s).None?
  {
    if steps != [] {
      NoStepsNoNodes(prefix, steps[..|steps| - 1]);
      assert steps == steps[..|steps| - 1] + [steps[|steps| - 1]];
    }
  }

  // ----- the loops of the source -----

  method CollectNodes(prefix: string, steps: seq<Step>) returns (nodes: seq<Node>)
    ensures nodes == StepNodes(prefix, steps)
  {
    nodes := [];
    for i := 0 to |steps|
      invariant nodes == StepNodes(prefix, steps[..i])
    {
      assert steps[..i + 1][..i] == steps[..i];
      var kind := StepKind(steps[i]);
      if kind.Some? {
        nodes := nodes + [Node(StepId(prefix, i), kind.value, 0.0, 0.0, ConfigFor(steps[i], kind.value))];
      }
    }
    assert steps[..|steps|] == steps;
  }

  method LinkInOrder(nodes: seq<Node>) returns (edges: seq<Edge>)
    ensures edges == Chain(Ids(nodes))
  {
    edges := [];
    var i := 0;
    while i < |nodes| - 1
      invariant 0 <= i
      invariant i <= |nodes| - 1 || i == 0
      invariant |edges| == i && forall k :: 0 <= k < i ==> edges[k] == Edge(nodes[k].id, nodes[k + 1].id)
    {
      edges := edges + [Edge(nodes[i].id, nodes[i + 1].id)];
      i := i + 1;
    }
  }

  method AiStepsToCanvas(prefix: string, steps: seq<Step>) returns (nodes: seq<Node>, edges: seq<Edge>)
    ensures nodes == CanvasNodes(prefix, steps)
    ensures edges == Chain(Ids(nodes))
  {
    nodes := CollectNodes(prefix, steps);
    edges := LinkInOrder(nodes);
    if |nodes| > 0 && nodes[|nodes| - 1].kind != Settle {
      var sid := prefix + "settle";
      nodes := nodes + [Node(sid, Settle, 0.0, 0.0, map[])];
      edges := edges + [Edge(nodes[|nodes| - 2].id, sid)];
    }
  }
}
