/**
 The bounded check of client inputs: a depth-first walk over an explicit stack, which
 visits every occurrence of every value, and stops on the budget of visits, on nesting
 and on a container that lies below itself.
 */
module BoundedTraversal {
  import opened Options

  const MAX_INPUT_DEPTH := 64
  const MAX_INPUT_NODES := 10_000

  /** A value to visit, where it was found, and the caller's context for it. */
  datatype Input<+C> = Input(value: nat, path: seq<nat>, context: C)

  /** What the caller and the values decide: what is expanded, to which values, in which context. */
  datatype Policy<!C> = Policy(
    isContainer: (nat, C) -> bool,
    members: nat -> seq<nat>,
    childContext: (nat, C) -> C)

  datatype Failure = Depth | Nodes | Cycle

  datatype Outcome = Accepted(nodes: nat) | Rejected(failure: Failure, path: seq<nat>)

  function Children<C>(p: Policy<C>, input: Input<C>): (r: seq<Input<C>>)
    ensures |r| == |p.members(input.value)|
    ensures forall i :: 0 <= i < |r| ==>
                          && r[i].value == p.members(input.value)[i] && r[i].path == input.path + [i]
                          && r[i].context == p.childContext(input.value, input.context)
  {
    var members := p.members(input.value);
    var context := p.childContext(input.value, input.context);
    seq(|members|, i requires 0 <= i < |members| => Input(members[i], input.path + [i], context))
  }

  // ---------------------------------------------------------------- the unfolded forest

  datatype Tree = Leaf | Container(value: nat, members: seq<Tree>)

  /** The value with every shared part copied out, or nothing if it nests `levels` deep or more. */
  ghost function Unfold<C>(p: Policy<C>, input: Input<C>, levels: nat): Option<Tree>
    decreases levels, 0
  {
    if levels == 0 then None
    else if !p.isContainer(input.value, input.context) then Some(Leaf)
    else
      match UnfoldAll(p, Children(p, input), levels - 1)
      case None => None
      case Some(ts) => Some(Container(input.value, ts))
  }

  ghost function UnfoldAll<C>(p: Policy<C>, inputs: seq<Input<C>>, levels: nat): Option<seq<Tree>>
    decreases levels, |inputs| + 1
  {
    if inputs == [] then Some([])
    else
      match Unfold(p, inputs[0], levels)
      case None => None
      case Some(t) =>
        match UnfoldAll(p, inputs[1..], levels)
        case None => None
        case Some(ts) => Some([t] + ts)
  }

  lemma {:induction false} UnfoldAllIsPointwise<C>(p: Policy<C>, inputs: seq<Input<C>>, levels: nat)
    ensures UnfoldAll(p, inputs, levels).Some?
       <==> forall i :: 0 <= i < |inputs| ==> Unfold(p, inputs[i], levels).Some?
    ensures UnfoldAll(p, inputs, levels).Some? ==>
              && |UnfoldAll(p, inputs, levels).value| == |inputs|
              && forall i :: 0 <= i < |inputs| ==>
                   Unfold(p, inputs[i], levels) == Some(UnfoldAll(p, inputs, levels).value[i])
  {
    if inputs != [] {
      UnfoldAllIsPointwise(p, inputs[1..], levels);
      forall i | 0 < i < |inputs|
        ensures inputs[i] == inputs[1..][i - 1]
      {
      }
    }
  }

  /** The tree of a container holds the trees of its members, each in its place. */
  lemma UnfoldFollowsMembers<C>(p: Policy<C>, input: Input<C>, levels: nat)
    requires levels > 0 && p.isContainer(input.value, input.context)
    ensures
      var t, children := Unfold(p, input, levels), Children(p, input);
      && (t.Some? <==> forall i :: 0 <= i < |children| ==> Unfold(p, children[i], levels - 1).Some?)
      && (t.Some? ==>
            && t.value.Container? && t.value.value == input.value && |t.value.members| == |children|
            && forall i :: 0 <= i < |children| ==> Unfold(p, children[i], levels - 1) == Some(t.value.members[i]))
  {
    UnfoldAllIsPointwise(p, Children(p, input), levels - 1);
  }

  /** How many visits a forest takes: every occurrence of every value is one. */
  function Visits(t: Tree): nat
    decreases t, 1
  {
    match t
    case Leaf => 1
    case Container(_, ts) => 1 + VisitsAll(ts)
  }

  function VisitsAll(ts: seq<Tree>): nat
    decreases ts, 0
  {
    if ts == [] then 0 else Visits(ts[0]) + VisitsAll(ts[1..])
  }

  /** No container is its own ancestor, or one of those above. */
  predicate IsAcyclic(t: Tree, above: set<nat>)
    decreases t, 1
  {
    match t
    case Leaf => true
    case Container(v, ts) => v !in above && AreAcyclic(ts, above + {v})
  }

  predicate AreAcyclic(ts: seq<Tree>, above: set<nat>)
    decreases ts, 0
  {
    ts == [] || (IsAcyclic(ts[0], above) && AreAcyclic(ts[1..], above))
  }

  // ---------------------------------------------------------------- the walk, recursively

  function Visit<C>(p: Policy<C>, input: Input<C>, depth: nat, above: set<nat>, nodes: nat): Outcome
    requires depth <= MAX_INPUT_DEPTH + 1
    decreases MAX_INPUT_DEPTH + 1 - depth, 0
  {
    if nodes + 1 > MAX_INPUT_NODES then Rejected(Nodes, input.path)
    else if depth > MAX_INPUT_DEPTH then Rejected(Depth, input.path)
    else if !p.isContainer(input.value, input.context) then Accepted(nodes + 1)
    else if input.value in above then Rejected(Cycle, input.path)
    else VisitAll(p, Children(p, input), depth + 1, above + {input.value}, nodes + 1)
  }

  function VisitAll<C>(p: Policy<C>, inputs: seq<Input<C>>, depth: nat, above: set<nat>, nodes: nat): Outcome
    requires depth <= MAX_INPUT_DEPTH + 1
    decreases MAX_INPUT_DEPTH + 1 - depth, |inputs| + 1
  {
    if inputs == [] then Accepted(nodes)
    else
      match Visit(p, inputs[0], depth, above, nodes)
      case Rejected(failure, path) => Rejected(failure, path)
      case Accepted(n) => VisitAll(p, inputs[1..], depth, above, n)
  }

  /** What acceptance means for one value and for several, from any point of the walk. */
  lemma {:induction false} VisitMeans<C>(p: Policy<C>, input: Input<C>, depth: nat, above: set<nat>, nodes: nat)
    requires depth <= MAX_INPUT_DEPTH + 1 && nodes <= MAX_INPUT_NODES
    ensures
      var t := Unfold(p, input, MAX_INPUT_DEPTH + 1 - depth);
      var r := Visit(p, input, depth, above, nodes);
      && (r.Accepted? <==> t.Some? && nodes + Visits(t.value) <= MAX_INPUT_NODES && IsAcyclic(t.value, above))
      && (r.Accepted? ==> r.nodes == nodes + Visits(t.value))
    decreases MAX_INPUT_DEPTH + 1 - depth, 0
  {
    if nodes < MAX_INPUT_NODES && depth <= MAX_INPUT_DEPTH && p.isContainer(input.value, input.context) {
      VisitAllMeans(p, Children(p, input), depth + 1, above + {input.value}, nodes + 1);
    }
  }

  lemma {:induction false} VisitAllMeans<C>(
    p: Policy<C>, inputs: seq<Input<C>>, depth: nat, above: set<nat>, nodes: nat)
    requires depth <= MAX_INPUT_DEPTH + 1 && nodes <= MAX_INPUT_NODES
    ensures
      var ts := UnfoldAll(p, inputs, MAX_INPUT_DEPTH + 1 - depth);
      var r := VisitAll(p, inputs, depth, above, nodes);
      && (r.Accepted? <==> ts.Some? && nodes + VisitsAll(ts.value) <= MAX_INPUT_NODES && AreAcyclic(ts.value, above))
      && (r.Accepted? ==> r.nodes == nodes + VisitsAll(ts.value))
    decreases MAX_INPUT_DEPTH + 1 - depth, |inputs| + 1
  {
    if inputs != [] {
      VisitMeans(p, inputs[0], depth, above, nodes);
      var r := Visit(p, inputs[0], depth, above, nodes);
      if r.Accepted? {
        VisitAllMeans(p, inputs[1..], depth, above, r.nodes);
      }
    }
  }

  /** The value found by going down to the members numbered in `steps`. */
  function Target<C>(p: Policy<C>, input: Input<C>, steps: seq<nat>): Option<Input<C>>
    decreases |steps|
  {
    if steps == [] then Some(input)
    else if !p.isContainer(input.value, input.context) || steps[0] >= |p.members(input.value)| then None
    else Target(p, Children(p, input)[steps[0]], steps[1..])
  }

  /** The containers passed on the way. */
  function Passed<C>(p: Policy<C>, input: Input<C>, steps: seq<nat>): set<nat>
    decreases |steps|
  {
    if steps == [] || steps[0] >= |p.members(input.value)| then {}
    else {input.value} + Passed(p, Children(p, input)[steps[0]], steps[1..])
  }

  /** The path leads to a value, which lies one level too deep or is a container that was passed on the way. */
  predicate IsReason<C>(
    p: Policy<C>, input: Input<C>, depth: nat, above: set<nat>, failure: Failure, path: seq<nat>)
  {
    && input.path <= path
    && var steps := path[|input.path|..];
    && Target(p, input, steps).Some? && depth + |steps| <= MAX_INPUT_DEPTH + 1
    && var target := Target(p, input, steps).value;
    && (failure.Depth? ==> depth + |steps| == MAX_INPUT_DEPTH + 1)
    && (failure.Cycle? ==>
          p.isContainer(target.value, target.context) && target.value in above + Passed(p, input, steps))
  }

  /** A rejection names a place where what it says is so. */
  lemma {:induction false} RejectionIsReal<C>(p: Policy<C>, input: Input<C>, depth: nat, above: set<nat>, nodes: nat)
    requires depth <= MAX_INPUT_DEPTH + 1
    ensures
      var r := Visit(p, input, depth, above, nodes);
      r.Rejected? ==> IsReason(p, input, depth, above, r.failure, r.path)
    decreases MAX_INPUT_DEPTH + 1 - depth, 0
  {
    var r := Visit(p, input, depth, above, nodes);
    if r.Rejected? && nodes < MAX_INPUT_NODES && depth <= MAX_INPUT_DEPTH && input.value !in above {
      var i := SomeRejectionIsReal(p, Children(p, input), depth + 1, above + {input.value}, nodes + 1);
      ReasonAbove(p, input, depth, above, i, r.failure, r.path);
    }
  }

  lemma ReasonAbove<C>(
    p: Policy<C>, input: Input<C>, depth: nat, above: set<nat>, i: nat, failure: Failure, path: seq<nat>)
    requires p.isContainer(input.value, input.context) && i < |Children(p, input)|
    requires IsReason(p, Children(p, input)[i], depth + 1, above + {input.value}, failure, path)
    ensures IsReason(p, input, depth, above, failure, path)
  {
    var steps := path[|input.path|..];
    assert path[|input.path|] == Children(p, input)[i].path[|input.path|];
    assert steps[0] == i && steps[1..] == path[|input.path| + 1..];
  }

  lemma {:induction false} SomeRejectionIsReal<C>(
    p: Policy<C>, inputs: seq<Input<C>>, depth: nat, above: set<nat>, nodes: nat)
    returns (i: nat)
    requires depth <= MAX_INPUT_DEPTH + 1 && VisitAll(p, inputs, depth, above, nodes).Rejected?
    ensures i < |inputs|
    ensures
      var r := VisitAll(p, inputs, depth, above, nodes);
      IsReason(p, inputs[i], depth, above, r.failure, r.path)
    decreases MAX_INPUT_DEPTH + 1 - depth, |inputs| + 1
  {
    var r := Visit(p, inputs[0], depth, above, nodes);
    if r.Rejected? {
      RejectionIsReal(p, inputs[0], depth, above, nodes);
      i := 0;
    } else {
      var k := SomeRejectionIsReal(p, inputs[1..], depth, above, r.nodes);
      i := k + 1;
    }
  }

  // ---------------------------------------------------------------- the walk over a stack

  /** The values still to visit on one level, and the container they belong to, if any. */
  datatype Frame<+C> = Frame(rest: seq<Input<C>>, depth: nat, container: Option<nat>)

  /** The containers on the stack. */
  function Above<C>(stack: seq<Frame<C>>): set<nat> {
    if stack == [] then {}
    else
      var n := |stack| - 1;
      match stack[n].container
      case None => Above(stack[..n])
      case Some(v) => Above(stack[..n]) + {v}
  }

  /** Levels are numbered from the roots, and no container is on the stack twice. */
  predicate StackFits<C>(stack: seq<Frame<C>>) {
    stack == [] ||
    var n := |stack| - 1;
    && StackFits(stack[..n])
    && stack[n].depth == n <= MAX_INPUT_DEPTH + 1
    && (stack[n].container.Some? ==> stack[n].container.value !in Above(stack[..n]))
  }

  /** How the walk ends from here: each level in turn, from the top of the stack. */
  function Resume<C>(p: Policy<C>, stack: seq<Frame<C>>, nodes: nat): Outcome
    requires StackFits(stack)
  {
    if stack == [] then Accepted(nodes)
    else
      var n := |stack| - 1;
      match VisitAll(p, stack[n].rest, stack[n].depth, Above(stack), nodes)
      case Rejected(failure, path) => Rejected(failure, path)
      case Accepted(m) => Resume(p, stack[..n], m)
  }

  lemma PopStep<C>(p: Policy<C>, stack: seq<Frame<C>>, nodes: nat)
    requires StackFits(stack) && stack != [] && stack[|stack| - 1].rest == []
    ensures StackFits(stack[..|stack| - 1])
    ensures Resume(p, stack[..|stack| - 1], nodes) == Resume(p, stack, nodes)
    ensures Above(stack[..|stack| - 1])
         == match stack[|stack| - 1].container
            case None => Above(stack)
            case Some(v) => Above(stack) - {v}
  {
  }

  /** The top of the stack moves on to its next value. */
  function Advance<C>(stack: seq<Frame<C>>): seq<Frame<C>>
    requires stack != [] && stack[|stack| - 1].rest != []
  {
    var n := |stack| - 1;
    stack[..n] + [stack[n].(rest := stack[n].rest[1..])]
  }

  lemma AdvanceFits<C>(stack: seq<Frame<C>>)
    requires StackFits(stack) && stack != [] && stack[|stack| - 1].rest != []
    ensures StackFits(Advance(stack)) && Above(Advance(stack)) == Above(stack)
    ensures Advance(stack)[..|stack| - 1] == stack[..|stack| - 1]
  {
  }

  lemma RejectStep<C>(p: Policy<C>, stack: seq<Frame<C>>, nodes: nat, failure: Failure, path: seq<nat>)
    requires StackFits(stack) && stack != [] && stack[|stack| - 1].rest != []
    requires
      var top := stack[|stack| - 1];
      Visit(p, top.rest[0], top.depth, Above(stack), nodes) == Rejected(failure, path)
    ensures Resume(p, stack, nodes) == Rejected(failure, path)
  {
  }

  lemma LeafStep<C>(p: Policy<C>, stack: seq<Frame<C>>, nodes: nat)
    requires StackFits(stack) && stack != [] && stack[|stack| - 1].rest != []
    requires
      var top := stack[|stack| - 1];
      Visit(p, top.rest[0], top.depth, Above(stack), nodes) == Accepted(nodes + 1)
    ensures StackFits(Advance(stack)) && Resume(p, Advance(stack), nodes + 1) == Resume(p, stack, nodes)
  {
  }

  lemma PushFits<C>(stack: seq<Frame<C>>, top: Frame<C>)
    requires StackFits(stack) && top.depth == |stack| <= MAX_INPUT_DEPTH + 1
    requires top.container.Some? && top.container.value !in Above(stack)
    ensures StackFits(stack + [top]) && Above(stack + [top]) == Above(stack) + {top.container.value}
    ensures (stack + [top])[..|stack|] == stack
  {
  }

  lemma PushStep<C>(p: Policy<C>, stack: seq<Frame<C>>, nodes: nat)
    requires StackFits(stack) && stack != [] && stack[|stack| - 1].rest != [] && |stack| <= MAX_INPUT_DEPTH + 1
    requires
      var top := stack[|stack| - 1];
      var input := top.rest[0];
      && nodes < MAX_INPUT_NODES
      && p.isContainer(input.value, input.context) && input.value !in Above(stack)
    ensures
      var input := stack[|stack| - 1].rest[0];
      var pushed := Advance(stack) + [Frame(Children(p, input), |stack|, Some(input.value))];
      && StackFits(pushed) && Above(pushed) == Above(stack) + {input.value}
      && Resume(p, pushed, nodes + 1) == Resume(p, stack, nodes)
  {
    var top := stack[|stack| - 1];
    var input := top.rest[0];
    var pushed := Advance(stack) + [Frame(Children(p, input), |stack|, Some(input.value))];
    AdvanceFits(stack);
    PushFits(Advance(stack), Frame(Children(p, input), |stack|, Some(input.value)));
    var below := VisitAll(p, Children(p, input), |stack|, Above(stack) + {input.value}, nodes + 1);
    assert Visit(p, input, top.depth, Above(stack), nodes) == below;
    ResumeUnfolds(p, stack, nodes);
    ResumeUnfolds(p, pushed, nodes + 1);
    if below.Accepted? {
      ResumeUnfolds(p, Advance(stack), below.nodes);
    }
  }

  lemma ResumeUnfolds<C>(p: Policy<C>, stack: seq<Frame<C>>, nodes: nat)
    requires StackFits(stack) && stack != []
    ensures
      var n := |stack| - 1;
      Resume(p, stack, nodes)
      == match VisitAll(p, stack[n].rest, stack[n].depth, Above(stack), nodes)
         case Rejected(failure, path) => Rejected(failure, path)
         case Accepted(m) => Resume(p, stack[..n], m)
  {
  }

  /** Visits the next value on the top of the stack, or says why the walk ends here. */
  method VisitNext<C>(p: Policy<C>, stack: seq<Frame<C>>, ancestors: set<nat>, nodes: nat)
    returns (rejected: Option<Outcome>, stack': seq<Frame<C>>, ancestors': set<nat>)
    requires StackFits(stack) && stack != [] && stack[|stack| - 1].rest != []
    requires ancestors == Above(stack) && nodes <= MAX_INPUT_NODES
    ensures rejected.Some? ==> rejected.value.Rejected? && Resume(p, stack, nodes) == rejected.value
    ensures rejected.None? ==>
              && nodes < MAX_INPUT_NODES
              && StackFits(stack') && ancestors' == Above(stack')
              && Resume(p, stack', nodes + 1) == Resume(p, stack, nodes)
  {
    var frame := stack[|stack| - 1];
    var input := frame.rest[0];
    stack', ancestors', rejected := Advance(stack), ancestors, None;
    if nodes + 1 > MAX_INPUT_NODES {
      rejected := Some(Rejected(Nodes, input.path));
      RejectStep(p, stack, nodes, Nodes, input.path);
    } else if frame.depth > MAX_INPUT_DEPTH {
      rejected := Some(Rejected(Depth, input.path));
      RejectStep(p, stack, nodes, Depth, input.path);
    } else if !p.isContainer(input.value, input.context) {
      LeafStep(p, stack, nodes);
      AdvanceFits(stack);
    } else if input.value in ancestors {
      rejected := Some(Rejected(Cycle, input.path));
      RejectStep(p, stack, nodes, Cycle, input.path);
    } else {
      PushStep(p, stack, nodes);
      ancestors' := ancestors + {input.value};
      stack' := stack' + [Frame(Children(p, input), frame.depth + 1, Some(input.value))];
    }
  }

  /**
   The walk accepts exactly the inputs whose unfolded forest nests no value deeper than 64,
   takes at most 10,000 visits, and has no container below itself.
   */
  method ValidateBoundedInputs<C>(p: Policy<C>, inputs: seq<Input<C>>) returns (r: Outcome)
    ensures r == VisitAll(p, inputs, 0, {}, 0)
    ensures r.Accepted? <==>
            var ts := UnfoldAll(p, inputs, MAX_INPUT_DEPTH + 1);
            ts.Some? && VisitsAll(ts.value) <= MAX_INPUT_NODES && AreAcyclic(ts.value, {})
  {
    VisitAllMeans(p, inputs, 0, {}, 0);
    var ancestors: set<nat> := {};
    var stack := [Frame(inputs, 0, None)];
    var nodes := 0;
    assert stack[..0] == [];
    while |stack| > 0
      invariant StackFits(stack) && nodes <= MAX_INPUT_NODES
      invariant ancestors == Above(stack)
      invariant Resume(p, stack, nodes) == VisitAll(p, inputs, 0, {}, 0)
      decreases MAX_INPUT_NODES - nodes, |stack|
    {
      var frame := stack[|stack| - 1];
      if frame.rest == [] {
        PopStep(p, stack, nodes);
        if frame.container.Some? {
          ancestors := ancestors - {frame.container.value};
        }
        stack := stack[..|stack| - 1];
      } else {
        var rejected;
        rejected, stack, ancestors := VisitNext(p, stack, ancestors, nodes);
        if rejected.Some? {
          return rejected.value;
        }
        nodes := nodes + 1;
      }
    }
    return Accepted(nodes);
  }
}
