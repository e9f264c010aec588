/**
 Memory planning over nested subgraphs (vllm/env_override.py, `memory_plan_reuse_patched`).

 The wrapper's line list is trimmed of pointless planning lines and then planned in one
 sweep that keeps a stack of planning states, one per open subgraph.
 */
module MemoryPlan {
  import opened Wrappers

  /** A planning state, named by the line that opened it. */
  datatype State = Root | Sub(enter: nat)

  /** A memory line records the state that planned it. */
  datatype Line = Memory(name: string, plannedBy: Option<State>) | EnterSubgraph | ExitSubgraph | Code(text: string)

  datatype Error = IndexError | AssertionError

  // ---------------------------------------------------------------------------------
  // Nesting, as the line list defines it.

  /** One plus the number of subgraphs open before line `i`. */
  ghost function Depth(lines: seq<Line>, i: nat): int
    requires i <= |lines|
  {
    if i == 0 then 1
    else match lines[i - 1]
      case EnterSubgraph => Depth(lines, i - 1) + 1
      case ExitSubgraph => Depth(lines, i - 1) - 1
      case _ => Depth(lines, i - 1)
  }

  /** The state of the `d`-th enclosing subgraph of position `i`, counted from the innermost. */
  ghost function Owner(lines: seq<Line>, i: nat, d: nat): State
    requires i <= |lines|
  {
    if i == 0 then Root
    else match lines[i - 1]
      case EnterSubgraph => if d == 0 then Sub(i - 1) else Owner(lines, i - 1, d - 1)
      case ExitSubgraph => Owner(lines, i - 1, d + 1)
      case _ => Owner(lines, i - 1, d)
  }

  ghost predicate Balanced(lines: seq<Line>) {
    (forall i :: 0 <= i <= |lines| ==> Depth(lines, i) >= 1) && Depth(lines, |lines|) == 1
  }

  /** The stack discipline that the sweep needs: weaker than `Balanced`, because the root state may
      be popped as long as no memory line meets the empty stack. */
  ghost predicate Plannable(lines: seq<Line>) {
    NeverEmpty(lines) && Depth(lines, |lines|) == 1
  }

  /** None of the first `n` lines meets an empty stack that it needs. */
  ghost predicate NeverEmptyUpTo(lines: seq<Line>, n: nat)
    requires n <= |lines|
  {
    && (forall i :: 0 <= i <= n ==> Depth(lines, i) >= 0)
    && (forall i :: 0 <= i < n && lines[i].Memory? ==> Depth(lines, i) >= 1)
  }

  ghost predicate NeverEmpty(lines: seq<Line>) {
    NeverEmptyUpTo(lines, |lines|)
  }

  lemma NeverEmptyEarlier(lines: seq<Line>, n: nat)
    requires n <= |lines|
    ensures NeverEmpty(lines) ==> NeverEmptyUpTo(lines, n)
  {
  }

  /** `Owner` finds the innermost subgraph that is still open: the nesting never falls back to its level. */
  lemma {:induction false} OwnerIsInnermost(lines: seq<Line>, i: nat, d: nat)
    requires i <= |lines|
    ensures match Owner(lines, i, d)
            case Sub(k) =>
              && k < i && lines[k].EnterSubgraph?
              && Depth(lines, k) == Depth(lines, i) - d - 1
              && forall j :: k < j <= i ==> Depth(lines, j) > Depth(lines, k)
            case Root => forall j :: 0 <= j <= i ==> Depth(lines, j) >= Depth(lines, i) - d
  {
    if i > 0 {
      match lines[i - 1]
      case EnterSubgraph => if d > 0 { OwnerIsInnermost(lines, i - 1, d - 1); }
      case ExitSubgraph => OwnerIsInnermost(lines, i - 1, d + 1);
      case _ => OwnerIsInnermost(lines, i - 1, d);
    }
  }

  // ---------------------------------------------------------------------------------
  // Trimming.

  predicate Pointless(line: Line, outNames: set<string>) {
    line.Memory? && line.name !in outNames
  }

  ghost function Trimmed(lines: seq<Line>, outNames: set<string>): seq<Line> {
    if lines != [] && Pointless(lines[|lines| - 1], outNames) then Trimmed(lines[..|lines| - 1], outNames) else lines
  }

  /** Trimming cuts off a tail of planning lines for non-output buffers, and all of it: no line of another kind,
      and none of an output buffer. */
  lemma {:induction false} TrimmedTail(lines: seq<Line>, outNames: set<string>)
    ensures var t := Trimmed(lines, outNames);
            && t <= lines
            && (forall i :: |t| <= i < |lines| ==> lines[i].Memory? && lines[i].name !in outNames)
            && (t != [] ==> t[|t| - 1].Memory? ==> t[|t| - 1].name in outNames)
  {
    if lines != [] && Pointless(lines[|lines| - 1], outNames) {
      TrimmedTail(lines[..|lines| - 1], outNames);
    }
  }

  lemma {:induction false} DepthOfPrefix(lines: seq<Line>, n: nat, i: nat)
    requires i <= n <= |lines|
    ensures Depth(lines[..n], i) == Depth(lines, i)
  {
    if i > 0 { DepthOfPrefix(lines, n, i - 1); }
  }

  lemma {:induction false} TrimKeepsDepth(lines: seq<Line>, n: nat, i: nat)
    requires n <= i <= |lines|
    requires forall j :: n <= j < |lines| ==> lines[j].Memory?
    ensures Depth(lines, i) == Depth(lines, n)
  {
    if i > n { TrimKeepsDepth(lines, n, i - 1); }
  }

  /** A balanced line list stays balanced when trimmed, and is then planned without error. */
  lemma BalancedIsPlannable(lines: seq<Line>, outNames: set<string>)
    requires Balanced(lines)
    ensures Balanced(Trimmed(lines, outNames)) && Plannable(Trimmed(lines, outNames))
  {
    var t := Trimmed(lines, outNames);
    TrimmedTail(lines, outNames);
    assert t == lines[..|t|];
    forall i | 0 <= i <= |t| ensures Depth(t, i) == Depth(lines, i) { DepthOfPrefix(lines, |t|, i); }
    TrimKeepsDepth(lines, |t|, |lines|);
  }

  /** The sweep also accepts lists that are not balanced. */
  lemma PlannableNeedNotBeBalanced()
    ensures Plannable([ExitSubgraph, EnterSubgraph]) && !Balanced([ExitSubgraph, EnterSubgraph])
  {
    var lines := [ExitSubgraph, EnterSubgraph];
    assert Depth(lines, 0) == 1 && Depth(lines, 1) == 0 && Depth(lines, 2) == 1;
  }

  // ---------------------------------------------------------------------------------
  // Planning.

  /** The line list with each memory line planned by its innermost open subgraph. */
  ghost predicate PlannedUpTo(lines: seq<Line>, planned: seq<Line>, n: nat) {
    && |planned| == |lines|
    && (forall i :: 0 <= i < n && i < |lines| ==>
          planned[i] == if lines[i].Memory? then Memory(lines[i].name, Some(Owner(lines, i, 0))) else lines[i])
    && (forall i :: n <= i < |lines| ==> planned[i] == lines[i])
  }

  /** A planned list: each memory line has the state of the innermost subgraph that is open there, which is the
      last one that the nesting has not left, and every other line is as it was. */
  lemma PlannedByInnermost(lines: seq<Line>, planned: seq<Line>, i: nat)
    requires PlannedUpTo(lines, planned, |lines|) && i < |lines|
    ensures |planned| == |lines| && (!lines[i].Memory? ==> planned[i] == lines[i])
    ensures lines[i].Memory? ==>
              planned[i].Memory? && planned[i].name == lines[i].name && planned[i].plannedBy.Some?
    ensures lines[i].Memory? ==>
              match planned[i].plannedBy.value
              case Sub(k) =>
                && k < i && lines[k].EnterSubgraph? && Depth(lines, i) == Depth(lines, k) + 1
                && forall j :: k < j <= i ==> Depth(lines, j) > Depth(lines, k)
              case Root => forall j :: 0 <= j <= i ==> Depth(lines, j) >= Depth(lines, i)
  {
    OwnerIsInnermost(lines, i, 0);
  }

  ghost predicate StackMatches(lines: seq<Line>, stack: seq<State>, i: nat)
    requires i <= |lines|
  {
    && |stack| == Depth(lines, i)
    && forall d :: 0 <= d < |stack| ==> stack[|stack| - 1 - d] == Owner(lines, i, d)
  }

  /** What one line does to the stack of planning states. */
  function StackAfter(line: Line, i: nat, stack: seq<State>): seq<State>
    requires line.ExitSubgraph? ==> stack != []
  {
    match line
    case EnterSubgraph => stack + [Sub(i)]
    case ExitSubgraph => stack[..|stack| - 1]
    case _ => stack
  }

  lemma DepthStep(lines: seq<Line>, i: nat, next: nat)
    requires i < next == i + 1 <= |lines|
    ensures Depth(lines, next) ==
            Depth(lines, i) + if lines[i].EnterSubgraph? then 1 else if lines[i].ExitSubgraph? then -1 else 0
  {
  }

  lemma StackStep(lines: seq<Line>, stack: seq<State>, i: nat, next: nat)
    requires i < next == i + 1 <= |lines| && StackMatches(lines, stack, i)
    requires lines[i].ExitSubgraph? ==> stack != []
    ensures StackMatches(lines, StackAfter(lines[i], i, stack), next)
  {
    var after := StackAfter(lines[i], i, stack);
    forall d | 0 <= d < |after| ensures after[|after| - 1 - d] == Owner(lines, next, d) {
      match lines[i]
      case EnterSubgraph => if d > 0 { assert stack[|stack| - 1 - (d - 1)] == Owner(lines, i, d - 1); }
      case ExitSubgraph => assert stack[|stack| - 1 - (d + 1)] == Owner(lines, i, d + 1);
      case _ =>
    }
  }

  class PythonWrapperCodegen {
    var lines: seq<Line>

    method TrimLines(outNames: set<string>)
      modifies this
      ensures lines == Trimmed(old(lines), outNames)
    {
      while lines != [] && Pointless(lines[|lines| - 1], outNames)
        invariant Trimmed(lines, outNames) == Trimmed(old(lines), outNames)
        decreases |lines|
      {
        lines := lines[..|lines| - 1];
      }
    }

    /** The body of the loop: plans line `i` of the list, which was `before`. */
    method PlanLine(i: nat, states: seq<State>, past: seq<State>, ghost before: seq<Line>)
      returns (ok: bool, states': seq<State>, past': seq<State>)
      requires i < |lines| && PlannedUpTo(before, lines, i) && StackMatches(before, states, i) && NeverEmptyUpTo(before, i)
      modifies this
      ensures |lines| == |before| && (ok <==> NeverEmptyUpTo(before, i + 1))
      ensures ok ==> PlannedUpTo(before, lines, i + 1) && StackMatches(before, states', i + 1)
    {
      var line := lines[i];
      assert line == before[i];
      DepthStep(before, i, i + 1);
      if states == [] && (line.Memory? || line.ExitSubgraph?) {
        assert !NeverEmptyUpTo(before, i + 1) by {
          if before[i].Memory? { assert Depth(before, i) < 1; } else { assert Depth(before, i + 1) < 0; }
        }
        return false, states, past;
      }
      StackStep(before, states, i, i + 1);
      ok, states', past' := true, StackAfter(line, i, states), past;
      match line
      case Memory(name, _) => lines := lines[i := Memory(name, Some(states[|states| - 1]))];
      case ExitSubgraph => past' := past + [states[|states| - 1]];
      case _ =>
    }

    /** The sweep over all lines. */
    method PlanAll(ghost before: seq<Line>) returns (ok: bool, states: seq<State>, past: seq<State>)
      requires lines == before
      modifies this
      ensures ok <==> NeverEmpty(before)
      ensures ok ==> PlannedUpTo(before, lines, |before|) && StackMatches(before, states, |before|)
    {
      ok, states, past := true, [Root], [];
      var i := 0;
      while i < |lines|
        invariant i <= |lines| == |before| && ok
        invariant PlannedUpTo(before, lines, i) && StackMatches(before, states, i) && NeverEmptyUpTo(before, i)
      {
        ok, states, past := PlanLine(i, states, past, before);
        i := i + 1;
        if !ok {
          NeverEmptyEarlier(before, i);
          return;
        }
      }
    }

    method PlanLines() returns (error: Option<Error>)
      modifies this
      ensures error.None? <==> Plannable(old(lines))
      ensures error == Some(AssertionError) <==> NeverEmpty(old(lines)) && Depth(old(lines), |old(lines)|) > 1
      ensures error.None? ==> PlannedUpTo(old(lines), lines, |lines|)
    {
      var ok, states, past := PlanAll(lines);
      if !ok || states == [] { return Some(IndexError); }
      states, past := states[..|states| - 1], past + [states[|states| - 1]];
      error := if states == [] then None else Some(AssertionError);
    }

    method MemoryPlanReuse(outNames: set<string>) returns (error: Option<Error>)
      modifies this
      ensures error.None? <==> Plannable(Trimmed(old(lines), outNames))
      ensures var t := Trimmed(old(lines), outNames);
              error == Some(AssertionError) <==> NeverEmpty(t) && Depth(t, |t|) > 1
      ensures error.None? ==> PlannedUpTo(Trimmed(old(lines), outNames), lines, |lines|)
    {
      TrimLines(outNames);
      error := PlanLines();
    }
  }
}
