/** `Action`: timed animations a node runs one tick at a time. A basic action moves,
    rotates or scales its node; a sequence runs its members one after another; a
    group runs all of them side by side. Each action keeps a timer that counts up by
    the frame's `delta`; a one-shot action completes, and calls its completion, once
    the timer reaches its duration, while a forever action starts over instead.

    The node's position, rotation and scale, and the easing curve that turns
    `timer / duration` into progress, are floating-point geometry and are not part of
    this model: a basic action here only carries which motion it is. A completion
    closure is named by a number, and a run reports, in order, the completions it
    called. Actions are values: the model does not follow one `Action` object that
    sits at two places at once. */
module Animation {
  import opened Wrappers

  /** The basic action types. The source's parameters (a target point, an amount)
      drive geometry only. */
  datatype Motion = MoveTo | MoveBy | RotateBy | ScaleBy | ScaleByXY | ScaleTo

  /** `ActionType`. */
  datatype Kind =
    | Basic(motion: Motion)
    | Sequence(steps: ActionSequence)
    | Group(actions: seq<Action>)

  /** `ActionSequence`: the members, the position of the current one and whether
      the sequence starts over after its last member. The current action is the
      member at `index`; only an empty sequence has none. */
  datatype ActionSequence = ActionSequence(sequence: seq<Action>, index: nat, forever: bool)

  datatype Action = Action(
    kind: Kind,
    duration: real,
    timer: real,
    forever: bool,
    completion: Option<nat>,
    completed: bool)

  /** Indexing an empty array, which stops the program. */
  datatype Trap = IndexOutOfRange

  /** Counts the actions in `a` and below it; only used to show that running ends. */
  function Size(a: Action): nat
  {
    1 + match a.kind
        case Basic(_) => 0
        case Sequence(s) => SizeAll(s.sequence)
        case Group(acts) => SizeAll(acts)
  }

  function SizeAll(acts: seq<Action>): nat
  {
    if acts == [] then 0 else Size(acts[0]) + SizeAll(acts[1..])
  }

  lemma {:induction false} SizeBound(acts: seq<Action>, i: nat)
    requires i < |acts|
    ensures Size(acts[i]) <= SizeAll(acts)
  {
    if i > 0 {
      SizeBound(acts[1..], i - 1);
    }
  }

  // ----- the motions -----

  /** A motion that `run` leaves as it is. */
  predicate Settled(m: Motion)
  {
    !(m.MoveTo? || m.ScaleTo? || m.ScaleBy?)
  }

  /** The type an action has after one run: `moveTo` becomes the `moveBy` that
      covers the remaining distance, and `scaleTo` and `scaleBy` become `scaleByXY`. */
  function Settle(m: Motion): (r: Motion)
    ensures Settled(r)
    ensures Settled(m) ==> r == m
    ensures m.MoveTo? ==> r.MoveBy?
    ensures m.ScaleTo? || m.ScaleBy? ==> r.ScaleByXY?
  {
    match m
    case MoveTo => MoveBy
    case ScaleTo => ScaleByXY
    case ScaleBy => ScaleByXY
    case _ => m
  }

  /** The per-axis amount `scaleTo` hands to `scaleByXY`: the distance between the
      target and the current scale, negated when the current scale is the larger. */
  function ScaleStep(target: real, current: real): (r: real)
    ensures r == target - current
  {
    var step := Max(target, current) - Min(target, current);
    if current > target then -step else step
  }

  function Max(x: real, y: real): real
  {
    if x >= y then x else y
  }

  function Min(x: real, y: real): real
  {
    if x <= y then x else y
  }

  // ----- completion and stopping -----

  /** Whether a run with `delta` finishes `a`: one-shot actions finish once the timer
      reaches the duration. */
  predicate Finishes(a: Action, delta: real)
  {
    !a.forever && a.timer + delta >= a.duration
  }

  /** The completions a finishing action calls: its own, if it has one. */
  function Calls(completion: Option<nat>): seq<nat>
  {
    if completion.Some? then [completion.value] else []
  }

  /** What one run does to an action's own bookkeeping: the timer moves on by `delta`;
      a one-shot action becomes completed when it reaches its duration and stays so;
      a forever action keeps its completed flag and starts its timer over instead.
      Duration, mode and completion never change. */
  ghost predicate Stepped(a: Action, b: Action, delta: real)
  {
    && b.duration == a.duration
    && b.forever == a.forever
    && b.completion == a.completion
    && (if a.forever then b.completed == a.completed else b.completed == (a.completed || a.timer + delta >= a.duration))
    && (if a.forever && a.timer + delta >= a.duration then b.timer == 0.0 else b.timer == a.timer + delta)
  }

  /** `a` and `b` are the same kind of action with as many members. */
  ghost predicate SameShape(a: Kind, b: Kind)
  {
    match a
    case Basic(m) => b == Basic(Settle(m))
    case Sequence(s) => b.Sequence? && |b.steps.sequence| == |s.sequence| && b.steps.forever == s.forever
    case Group(acts) => b.Group? && |b.actions| == |acts|
  }

  /** `stopAction()`: the action is completed and calls its completion. */
  function Stop(a: Action): (r: (Action, seq<nat>))
    ensures r.0.completed
    ensures r.0.kind == a.kind && r.0.timer == a.timer && r.0.duration == a.duration
    ensures r.0.completion == a.completion && r.0.forever == a.forever
    ensures r.1 == Calls(a.completion)
  {
    (a.(completed := true), Calls(a.completion))
  }

  /** The timer bookkeeping at the end of `run`, given the members' completions. */
  function Advance(a: Action, delta: real, inner: seq<nat>): (r: (Action, seq<nat>))
    ensures Stepped(a, r.0, delta) && r.0.kind == a.kind
    ensures r.1 == inner + (if Finishes(a, delta) then Calls(a.completion) else [])
  {
    var timer := a.timer + delta;
    if timer >= a.duration && !a.forever then
      (a.(timer := timer, completed := true), inner + Calls(a.completion))
    else if timer >= a.duration && a.forever then
      (a.(timer := 0.0), inner)
    else
      (a.(timer := timer), inner)
  }

  // ----- sequences -----

  /** `currentAction`. */
  function Current(s: ActionSequence): Option<Action>
  {
    if s.index < |s.sequence| then Some(s.sequence[s.index]) else None
  }

  /** An action ready for another pass: not completed, timer at zero. */
  function Rewind(a: Action): Action
  {
    a.(completed := false, timer := 0.0)
  }

  ghost predicate Rested(a: Action)
  {
    !a.completed && a.timer == 0.0
  }

  /** `getNextAction()` as the source writes it. While the current action is still
      running it is returned as it is. Otherwise a forever sequence moves on to the
      next member, wrapping round after the last, and rewinds the member it leaves;
      a one-shot sequence goes back to its first member, whether or not that has
      already completed. An empty sequence traps. */
  function GetNextActionAsWritten(s: ActionSequence): (r: Result<ActionSequence, Trap>)
    ensures r.Failure? <==> |s.sequence| == 0
    ensures r.Success? ==>
              && r.value.index < |r.value.sequence| == |s.sequence|
              && r.value.forever == s.forever
              && (forall j :: 0 <= j < |s.sequence| ==> r.value.sequence[j].kind == s.sequence[j].kind)
              && (forall j :: 0 <= j < |s.sequence| && j != s.index ==> r.value.sequence[j] == s.sequence[j])
    ensures Current(s).Some? && !Current(s).value.completed ==> r == Success(s)
    ensures Current(s).Some? && Current(s).value.completed && !s.forever ==> r == Success(s.(index := 0))
    ensures Current(s).Some? && Current(s).value.completed && s.forever ==>
              && r.value.index == (if s.index + 1 < |s.sequence| then s.index + 1 else 0)
              && r.value.sequence == s.sequence[s.index := Rewind(s.sequence[s.index])]
  {
    if Current(s).Some? && !Current(s).value.completed then Success(s)
    else
      var index := if s.forever && s.index + 1 < |s.sequence| then s.index + 1 else 0;
      var members := if Current(s).Some? && s.forever then s.sequence[s.index := Rewind(s.sequence[s.index])] else s.sequence;
      if index < |members| then Success(ActionSequence(members, index, s.forever)) else Failure(IndexOutOfRange)
  }

  /** A one-shot sequence as written never leaves its first member: every later
      call hands back member 0 with nothing changed, completed or not. */
  lemma {:induction false} AsWrittenStaysAtFirst(s: ActionSequence, n: nat)
    requires !s.forever && s.index == 0 && |s.sequence| > 0
    ensures Repeat(s, n) == Success(s)
  {
    if n > 0 {
      AsWrittenStaysAtFirst(s, n - 1);
    }
  }

  /** `n` calls of the as-written `getNextAction()` in a row. */
  function Repeat(s: ActionSequence, n: nat): Result<ActionSequence, Trap>
  {
    if n == 0 then Success(s)
    else
      var t := Repeat(s, n - 1);
      if t.Failure? then t else GetNextActionAsWritten(t.value)
  }

  /** The smallest case: a one-shot sequence of two members whose first has
      completed. The source hands back the completed first member; the second is
      never reached. */
  lemma SecondMemberNeverReached()
    ensures var first := Action(Basic(MoveBy), 1.0, 1.0, false, None, true);
            var second := Action(Basic(RotateBy), 1.0, 0.0, false, None, false);
            var s := ActionSequence([first, second], 0, false);
            && GetNextActionAsWritten(s) == Success(s)
            && GetNextAction(s) == Success((s.(index := 1), Some(1)))
  {
  }

  /** `getNextAction()` as evidently intended, which the rest of the model runs: the
      current action while it is still running; once it has completed, the next
      member, rewinding the one left behind when the sequence repeats; after the
      last member, the first again for a forever sequence and nothing for a one-shot
      one. The second part of the result is the position of the action to run, if
      any. An empty sequence traps, as in the source. */
  function GetNextAction(s: ActionSequence): (r: Result<(ActionSequence, Option<nat>), Trap>)
    ensures r.Failure? <==> |s.sequence| == 0
    ensures r.Success? ==>
              && |r.value.0.sequence| == |s.sequence|
              && r.value.0.forever == s.forever
              && r.value.0.index < |s.sequence|
              && (r.value.1.Some? ==> r.value.1.value == r.value.0.index)
              && (forall j :: 0 <= j < |s.sequence| ==> r.value.0.sequence[j].kind == s.sequence[j].kind)
              && (forall j :: 0 <= j < |s.sequence| && j != s.index ==> r.value.0.sequence[j] == s.sequence[j])
    ensures Current(s).Some? && !Current(s).value.completed ==> r == Success((s, Some(s.index)))
    ensures Current(s).Some? && Current(s).value.completed ==>
              if s.index + 1 < |s.sequence| then
                && r.value.1 == Some(s.index + 1)
                && r.value.0.sequence[s.index] == (if s.forever then Rewind(s.sequence[s.index]) else s.sequence[s.index])
              else if s.forever then
                r.value.1 == Some(0) && r.value.0.sequence[s.index] == Rewind(s.sequence[s.index])
              else
                r == Success((s, None))
  {
    if Current(s).Some? && !Current(s).value.completed then Success((s, Some(s.index)))
    else if |s.sequence| == 0 then Failure(IndexOutOfRange)
    else if !s.forever && s.index + 1 >= |s.sequence| && s.index < |s.sequence| then Success((s, None))
    else
      var index := if s.index + 1 < |s.sequence| then s.index + 1 else 0;
      var members := if s.forever && s.index < |s.sequence| then s.sequence[s.index := Rewind(s.sequence[s.index])] else s.sequence;
      Success((ActionSequence(members, index, s.forever), Some(index)))
  }

  /** A one-shot sequence only ever moves forward, one member at a time, and only
      past a member that has completed. */
  lemma OneShotMovesForward(s: ActionSequence)
    requires !s.forever && s.index < |s.sequence|
    ensures var r := GetNextAction(s);
            && r.Success?
            && s.index <= r.value.0.index <= s.index + 1
            && (r.value.0.index == s.index + 1 <==> s.sequence[s.index].completed && s.index + 1 < |s.sequence|)
  {
  }

  /** `getNextAction()` under `reading`: the sequence afterwards and the position of
      the action handed back, if any. The as-written one always hands back the
      member at its new index. */
  function NextAction(s: ActionSequence, reading: Reading): (r: Result<(ActionSequence, Option<nat>), Trap>)
    ensures r.Failure? <==> |s.sequence| == 0
    ensures r.Success? ==>
              && |r.value.0.sequence| == |s.sequence|
              && r.value.0.forever == s.forever
              && r.value.0.index < |s.sequence|
              && (r.value.1.Some? ==> r.value.1.value == r.value.0.index)
              && (forall j :: 0 <= j < |s.sequence| ==> r.value.0.sequence[j].kind == s.sequence[j].kind)
              && (forall j :: 0 <= j < |s.sequence| && j != s.index ==> r.value.0.sequence[j] == s.sequence[j])
    ensures reading.AsWritten? && r.Success? ==>
              r.value == (GetNextActionAsWritten(s).value, Some(GetNextActionAsWritten(s).value.index))
    ensures reading.Intended? ==> r == GetNextAction(s)
  {
    match reading
    case Intended => GetNextAction(s)
    case AsWritten =>
      var t := GetNextActionAsWritten(s);
      if t.Failure? then Failure(t.error) else Success((t.value, Some(t.value.index)))
  }

  // ----- running -----

  /** `run(_:delta:)`: one tick of `a`. A basic action takes its settled type; a
      sequence runs at most one member, a group every member in order; then the
      timer advances as `Stepped` says. The result lists the completions called,
      members' first and `a`'s own last. Only an empty sequence reached while
      running traps. */
  function Run(a: Action, delta: real, reading: Reading): (r: Result<(Action, seq<nat>), Trap>)
    decreases Size(a), 0
    ensures r.Failure? ==> EmptyInside(a)
    ensures r.Success? ==> Stepped(a, r.value.0, delta) && SameShape(a.kind, r.value.0.kind)
    ensures r.Success? && Finishes(a, delta) && a.completion.Some? ==>
              r.value.1 != [] && r.value.1[|r.value.1| - 1] == a.completion.value
    ensures r.Success? && a.kind.Basic? ==>
              r.value.1 == (if Finishes(a, delta) then Calls(a.completion) else [])
  {
    var inner: Result<(Kind, seq<nat>), Trap> :=
      match a.kind
      case Basic(m) => Success((Basic(Settle(m)), []))
      case Sequence(s) =>
        var ran := RunSequence(s, delta, reading);
        if ran.Failure? then Failure(ran.error) else Success((Sequence(ran.value.0), ran.value.1))
      case Group(acts) =>
        var ran := RunAll(acts, delta, reading);
        if ran.Failure? then Failure(ran.error) else Success((Group(ran.value.0), ran.value.1));
    if inner.Failure? then Failure(inner.error)
    else Success(Advance(a.(kind := inner.value.0), delta, inner.value.1))
  }

  /** Some sequence inside `a` has no members. */
  ghost predicate EmptyInside(a: Action)
  {
    match a.kind
    case Basic(_) => false
    case Sequence(s) => |s.sequence| == 0 || exists i :: 0 <= i < |s.sequence| && EmptyInside(s.sequence[i])
    case Group(acts) => exists i :: 0 <= i < |acts| && EmptyInside(acts[i])
  }

  /** `sequenceActions`: fetch the next action and run it, if there is one. Only
      the member run and the one left behind can change. */
  function RunSequence(s: ActionSequence, delta: real, reading: Reading): (r: Result<(ActionSequence, seq<nat>), Trap>)
    decreases SizeAll(s.sequence), 1
    ensures r.Failure? ==> |s.sequence| == 0 || exists i :: 0 <= i < |s.sequence| && EmptyInside(s.sequence[i])
    ensures r.Success? ==>
              && |r.value.0.sequence| == |s.sequence|
              && r.value.0.forever == s.forever
              && r.value.0.index < |s.sequence|
              && (forall j :: 0 <= j < |s.sequence| && j != s.index && j != r.value.0.index ==>
                    r.value.0.sequence[j] == s.sequence[j])
  {
    var next := NextAction(s, reading);
    if next.Failure? then Failure(next.error)
    else
      var (t, pick) := next.value;
      if pick.None? then Success((t, []))
      else
        var i := pick.value;
        SizeBound(s.sequence, i);
        assert Size(t.sequence[i]) == Size(s.sequence[i]);
        var ran := Run(t.sequence[i], delta, reading);
        if ran.Failure? then
          assert EmptyInside(s.sequence[i]);
          Failure(ran.error)
        else Success((t.(sequence := t.sequence[i := ran.value.0]), ran.value.1))
  }

  /** `groupActions`: every member runs once, in order, with the same tick; a member
      with an empty sequence inside traps. */
  function RunAll(acts: seq<Action>, delta: real, reading: Reading): (r: Result<(seq<Action>, seq<nat>), Trap>)
    decreases SizeAll(acts), 1
    ensures r.Failure? ==> exists i :: 0 <= i < |acts| && EmptyInside(acts[i])
    ensures r.Success? ==>
              && |r.value.0| == |acts|
              && forall i :: 0 <= i < |acts| ==> Stepped(acts[i], r.value.0[i], delta)
  {
    if acts == [] then Success(([], []))
    else
      var head := Run(acts[0], delta, reading);
      if head.Failure? then Failure(head.error)
      else
        var rest := RunAll(acts[1..], delta, reading);
        if rest.Failure? then
          assert forall i :: 0 < i < |acts| ==> acts[1..][i - 1] == acts[i];
          Failure(rest.error)
        else
          Success(([head.value.0] + rest.value.0, head.value.1 + rest.value.1))
  }

  /** A one-shot sequence action whose first member is current, basic, one-shot,
      completed, past its duration and carrying completion `c`: the state in which
      the as-written `getNextAction()` keeps handing that member back. */
  ghost predicate StuckOnFirst(a: Action, c: nat)
  {
    && a.kind.Sequence? && !a.forever && !a.completed
    && var s := a.kind.steps;
       && !s.forever && s.index == 0 && |s.sequence| > 0
       && var m := s.sequence[0];
          m.kind.Basic? && !m.forever && m.completed && m.timer >= m.duration && m.completion == Some(c)
  }

  /** As written, a run of such a sequence runs its completed first member once
      more, which calls that member's completion again, and leaves the sequence in
      the same state. */
  lemma AsWrittenRecallsFirst(a: Action, c: nat, delta: real)
    requires StuckOnFirst(a, c) && 0.0 <= delta && a.timer + delta < a.duration
    ensures var r := Run(a, delta, AsWritten);
            && r.Success? && r.value.1 == [c]
            && StuckOnFirst(r.value.0, c) && r.value.0.timer == a.timer + delta
  {
  }

  /** As written, a node running such a sequence calls the first member's completion
      on every one of `n` frames, for as long as the sequence's own timer has not run
      out. */
  lemma {:induction false} AsWrittenCallsEveryFrame(a: Action, c: nat, delta: real, n: nat)
    requires StuckOnFirst(a, c) && 0.0 <= delta && a.timer + (n as real) * delta < a.duration
    ensures var r := UpdateTimes(Some(a), delta, n, AsWritten);
            r.Success? && r.value.0.Some? && StuckOnFirst(r.value.0.value, c) && r.value.1 == seq(n, _ => c)
    decreases n
  {
    if n > 0 {
      assert (n as real) * delta == ((n - 1) as real) * delta + delta;
      assert ((n - 1) as real) * delta >= 0.0;
      AsWrittenRecallsFirst(a, c, delta);
      var next := Run(a, delta, AsWritten).value.0;
      AsWrittenCallsEveryFrame(next, c, delta, n - 1);
      var rest := UpdateTimes(Some(next), delta, n - 1, AsWritten);
      assert [c] + rest.value.1 == seq(n, _ => c);
    }
  }

  /** A forever sequence rewinds each member it leaves, so every member other than
      the current one is waiting at a fresh start, run after run. */
  lemma ForeverSequenceKeepsRested(s: ActionSequence, delta: real, reading: Reading)
    requires s.forever && s.index < |s.sequence|
    requires forall j :: 0 <= j < |s.sequence| && j != s.index ==> Rested(s.sequence[j])
    ensures var r := RunSequence(s, delta, reading);
            r.Success? ==>
              forall j :: 0 <= j < |s.sequence| && j != r.value.0.index ==> Rested(r.value.0.sequence[j])
  {
    var r := RunSequence(s, delta, reading);
    if r.Success? {
      var next := NextAction(s, reading);
      var t := next.value.0;
      forall j | 0 <= j < |s.sequence| && j != r.value.0.index
        ensures Rested(r.value.0.sequence[j])
      {
        if j == s.index {
          assert t.sequence[j] == Rewind(s.sequence[j]);
          assert r.value.0.sequence[j] == t.sequence[j];
        }
      }
    }
  }

  /** A forever action whose timer lies within its duration keeps it there under
      non-negative ticks. */
  lemma ForeverTimerBounded(a: Action, delta: real, reading: Reading)
    requires a.forever && 0.0 <= a.timer < a.duration && 0.0 <= delta
    ensures var r := Run(a, delta, reading);
            r.Success? ==> 0.0 <= r.value.0.timer < r.value.0.duration && r.value.0.completed == a.completed
  {
  }

  // ----- making actions -----

  /** The factories for basic actions (`moveTo`, `moveBy`, `rotateBy`, `scaleTo`,
      `scaleBy`). The action starts with its timer at zero, not completed, one-shot.
      `moveBy` and `rotateBy` drop the completion they are given. */
  function Make(m: Motion, duration: real, completion: Option<nat>): (r: Action)
    ensures r.kind == Basic(m) && r.duration == duration && Rested(r) && !r.forever
    ensures r.completion == (if m.MoveBy? || m.RotateBy? then None else completion)
  {
    var kept := if m.MoveBy? || m.RotateBy? then None else completion;
    Action(Basic(m), duration, 0.0, false, kept, false)
  }

  /** A fresh basic action completes in its first run exactly when the tick covers
      its duration, and then calls the completion it was made with, unless it is a
      `moveBy` or `rotateBy`; a shorter tick calls nothing. */
  lemma MadeActionCompletes(m: Motion, duration: real, c: nat, delta: real, reading: Reading)
    ensures var r := Run(Make(m, duration, Some(c)), delta, reading);
            && r.Success?
            && (r.value.0.completed <==> delta >= duration)
            && r.value.0.kind == Basic(Settle(m))
            && r.value.1 == (if delta >= duration && !(m.MoveBy? || m.RotateBy?) then [c] else [])
  {
  }

  /** The sum of `durations`, added from the left as `reduce(0, +)` does. */
  function Total(durations: seq<real>): real
  {
    if durations == [] then 0.0 else Total(durations[..|durations| - 1]) + durations[|durations| - 1]
  }

  /** The largest of `durations`, or zero when there are none (`max() ?? 0`). */
  function Longest(durations: seq<real>): (r: real)
    ensures durations == [] ==> r == 0.0
    ensures durations != [] ==>
              && (exists i :: 0 <= i < |durations| && durations[i] == r)
              && forall i :: 0 <= i < |durations| ==> durations[i] <= r
  {
    if durations == [] then 0.0
    else if |durations| == 1 then durations[0]
    else
      var rest := Longest(durations[1..]);
      assert forall i :: 1 <= i < |durations| ==> durations[1..][i - 1] == durations[i];
      if durations[0] >= rest then durations[0] else rest
  }

  function Durations(acts: seq<Action>): (r: seq<real>)
    ensures |r| == |acts| && forall i :: 0 <= i < |acts| ==> r[i] == acts[i].duration
  {
    seq(|acts|, i requires 0 <= i < |acts| => acts[i].duration)
  }

  /** `sequence(_:completion:)`: members run in order, taking as long as all of them
      together. */
  function MakeSequence(members: seq<Action>, completion: Option<nat>): (r: Action)
    ensures r.kind == Sequence(ActionSequence(members, 0, false))
    ensures r.duration == Total(Durations(members))
    ensures Rested(r) && !r.forever && r.completion == completion
  {
    Action(Sequence(ActionSequence(members, 0, false)), Total(Durations(members)), 0.0, false, completion, false)
  }

  /** `group(_:completion:)`: members run side by side, taking as long as the
      longest. */
  function MakeGroup(members: seq<Action>, completion: Option<nat>): (r: Action)
    ensures r.kind == Group(members)
    ensures r.duration == Longest(Durations(members))
    ensures Rested(r) && !r.forever && r.completion == completion
  {
    Action(Group(members), Longest(Durations(members)), 0.0, false, completion, false)
  }

  /** Adding up two lists one after the other is adding up each. */
  lemma {:induction false} TotalAppend(p: seq<real>, q: seq<real>)
    ensures Total(p + q) == Total(p) + Total(q)
  {
    if q == [] {
      assert p + q == p;
    } else {
      var q' := q[..|q| - 1];
      assert (p + q)[..|p + q| - 1] == p + q';
      assert (p + q)[|p + q| - 1] == q[|q| - 1];
      TotalAppend(p, q');
    }
  }

  /** A sequence of two sequences lasts as long as the single sequence of all
      their members. */
  lemma NestedSequenceDuration(p: seq<Action>, q: seq<Action>, c1: Option<nat>, c2: Option<nat>, c: Option<nat>)
    ensures MakeSequence([MakeSequence(p, c1), MakeSequence(q, c2)], c).duration == MakeSequence(p + q, c).duration
  {
    var dp, dq := Durations(p), Durations(q);
    var both := [MakeSequence(p, c1), MakeSequence(q, c2)];
    assert Durations(both) == [Total(dp), Total(dq)];
    TotalPair(Total(dp), Total(dq));
    assert Durations(p + q) == dp + dq;
    TotalAppend(dp, dq);
  }

  lemma TotalPair(x: real, y: real)
    ensures Total([x, y]) == x + y
  {
    assert [x, y][..1] == [x];
    assert [x][..0] == [];
    assert Total([x]) == x;
  }

  /** A group of two non-empty groups lasts as long as the single group of all
      their members. */
  lemma NestedGroupDuration(p: seq<Action>, q: seq<Action>, c1: Option<nat>, c2: Option<nat>, c: Option<nat>)
    requires p != [] && q != []
    ensures MakeGroup([MakeGroup(p, c1), MakeGroup(q, c2)], c).duration == MakeGroup(p + q, c).duration
  {
    var dp, dq := Durations(p), Durations(q);
    assert Durations([MakeGroup(p, c1), MakeGroup(q, c2)]) == [Longest(dp), Longest(dq)];
    LongestPair(Longest(dp), Longest(dq));
    assert Durations(p + q) == dp + dq;
    LongestAppend(dp, dq);
  }

  lemma LongestPair(x: real, y: real)
    ensures Longest([x, y]) == Max(x, y)
  {
    assert [x, y][1..] == [y];
  }

  /** The longest of two non-empty lists put together is the longer of their
      longest. */
  lemma LongestAppend(dp: seq<real>, dq: seq<real>)
    requires dp != [] && dq != []
    ensures Longest(dp + dq) == Max(Longest(dp), Longest(dq))
  {
    var whole := Longest(dp + dq);
    var i :| 0 <= i < |dp + dq| && (dp + dq)[i] == whole;
    if i < |dp| {
      assert dp[i] == whole;
    } else {
      assert dq[i - |dp|] == whole;
    }
    forall k | 0 <= k < |dp|
      ensures dp[k] <= whole
    {
      assert (dp + dq)[k] == dp[k];
    }
    forall k | 0 <= k < |dq|
      ensures dq[k] <= whole
    {
      assert (dp + dq)[|dp| + k] == dq[k];
    }
  }

  /** `repeatForever(_:)`: a new forever action of the same type and duration, with
      no completion; a sequence inside is marked to start over. */
  function RepeatForever(a: Action): (r: Action)
    ensures r.forever && r.completion == None && Rested(r) && r.duration == a.duration
    ensures a.kind.Sequence? ==> r.kind == Sequence(a.kind.steps.(forever := true))
    ensures !a.kind.Sequence? ==> r.kind == a.kind
  {
    var kind := if a.kind.Sequence? then Sequence(a.kind.steps.(forever := true)) else a.kind;
    Action(kind, a.duration, 0.0, true, None, false)
  }

  // ----- the node's side -----

  /** `Node.update(delta:)` for the node's action slot: nothing without an action,
      one run of an action still going, and a completed action is dropped. */
  function Update(action: Option<Action>, delta: real, reading: Reading): (r: Result<(Option<Action>, seq<nat>), Trap>)
    ensures action.None? || action.value.completed ==> r == Success((None, []))
    ensures action.Some? && !action.value.completed ==>
              && (r.Failure? ==> EmptyInside(action.value))
              && (r.Success? ==> r.value.0.Some? && Stepped(action.value, r.value.0.value, delta))
  {
    match action
    case None => Success((None, []))
    case Some(a) =>
      if !a.completed then
        var ran := Run(a, delta, reading);
        if ran.Failure? then Failure(ran.error) else Success((Some(ran.value.0), ran.value.1))
      else Success((None, []))
  }

  /** `Node.stopAction()`: the action, if any, is stopped, calling its completion,
      and the slot is emptied. */
  function StopOnNode(action: Option<Action>): (r: (Option<Action>, seq<nat>))
    ensures r.0 == None
    ensures r.1 == (if action.Some? then Calls(action.value.completion) else [])
  {
    if action.Some? then (None, Stop(action.value).1) else (None, [])
  }

  /** `Node.run(action:)`: the slot takes the new action; one already there is
      replaced without being stopped, so its completion is never called. */
  function RunOnNode(slot: Option<Action>, a: Action): (r: Option<Action>)
    ensures r.Some? && r.value == a
  {
    Some(a)
  }

  /** Whatever the slot held before, a node that runs `a` and then stops it calls
      `a`'s completion alone; the replaced action leaves no trace. */
  lemma RunThenStop(slot: Option<Action>, a: Action)
    ensures StopOnNode(RunOnNode(slot, a)) == (None, Calls(a.completion))
    ensures StopOnNode(RunOnNode(slot, a)) == StopOnNode(RunOnNode(None, a))
  {
  }

  /** `n` frames of `update(delta:)`, collecting the completions called. */
  function UpdateTimes(action: Option<Action>, delta: real, n: nat, reading: Reading): Result<(Option<Action>, seq<nat>), Trap>
    decreases n
  {
    if n == 0 then Success((action, []))
    else
      var first := Update(action, delta, reading);
      if first.Failure? then first
      else
        var rest := UpdateTimes(first.value.0, delta, n - 1, reading);
        if rest.Failure? then rest else Success((rest.value.0, first.value.1 + rest.value.1))
  }

  /** A stopped action calls its completion once, in `stopAction`; the next update
      drops it without calling anything. */
  lemma StopThenUpdate(a: Action, delta: real, reading: Reading)
    ensures Update(Some(Stop(a).0), delta, reading) == Success((None, []))
    ensures Stop(a).1 == Calls(a.completion)
  {
  }

  /** A forever action that was not stopped stays on its node frame after frame
      and never calls a completion of its own. */
  lemma {:induction false} ForeverStays(a: Action, delta: real, n: nat, reading: Reading)
    requires a.forever && !a.completed && a.completion == None && a.kind.Basic?
    ensures var r := UpdateTimes(Some(a), delta, n, reading);
            && r.Success?
            && r.value.0.Some? && r.value.0.value.forever && !r.value.0.value.completed
            && r.value.0.value.kind.Basic?
            && r.value.1 == []
    decreases n
  {
    if n > 0 {
      var next := Run(a, delta, reading).value.0;
      ForeverStays(next, delta, n - 1, reading);
    }
  }

  /** A basic one-shot action on a node calls its completion at most once, however
      many frames pass, and has called it after `n` frames whose ticks add up to
      what was left of its duration. */
  lemma {:induction false} BasicFiresOnce(action: Option<Action>, c: nat, delta: real, n: nat, reading: Reading)
    requires action.Some? ==>
               && action.value.kind.Basic? && !action.value.forever && action.value.completion == Some(c)
    ensures var r := UpdateTimes(action, delta, n, reading);
            && r.Success?
            && (r.value.1 == [] || r.value.1 == [c])
            && ((&& action.Some? && !action.value.completed && 0.0 <= delta && n >= 1
                 && action.value.timer + (n as real) * delta >= action.value.duration)
                ==> r.value.1 == [c])
    decreases n
  {
    if n > 0 {
      var first := Update(action, delta, reading);
      BasicFiresOnce(first.value.0, c, delta, n - 1, reading);
      if action.Some? && !action.value.completed {
        var a := action.value;
        if first.value.1 == [c] {
          AfterFinishQuiet(first.value.0.value, delta, n - 1, reading);
        } else if 0.0 <= delta && a.timer + (n as real) * delta >= a.duration {
          var b := first.value.0.value;
          assert b.timer == a.timer + delta;
          assert ((n - 1) as real) * delta + delta == (n as real) * delta;
        }
      }
    }
  }

  /** A completed action is gone after the next frame and calls nothing more. */
  lemma {:induction false} AfterFinishQuiet(a: Action, delta: real, n: nat, reading: Reading)
    requires a.completed
    ensures var r := UpdateTimes(Some(a), delta, n, reading);
            r.Success? && r.value.1 == [] && (n >= 1 ==> r.value.0 == None)
    decreases n
  {
    if n > 0 {
      NothingHappens(delta, n - 1, reading);
    }
  }

  /** A node without an action stays without one. */
  lemma {:induction false} NothingHappens(delta: real, n: nat, reading: Reading)
    ensures UpdateTimes(None, delta, n, reading) == Success((None, []))
    decreases n
  {
    if n > 0 {
      NothingHappens(delta, n - 1, reading);
      assert Update(None, delta, reading) == Success((None, []));
      var none: seq<nat> := [];
      assert none + none == none;
    }
  }
}
