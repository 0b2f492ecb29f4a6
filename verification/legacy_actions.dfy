/** The first generation of `Action`, in `src/public`: the timer starts at the
    duration and counts down, a sequence is a queue its members are taken from one
    at a time, and `repeatForever` gives an action an infinite duration instead of a
    forever mode. The completion an action is made with is kept but never called.

    As in the newer module, the node's geometry is left out and actions are
    values. The source's durations and timers are `Double`s; here they are exact
    reals, and the only non-finite value they take is the positive infinity
    `repeatForever` uses. */
module LegacyAnimation {
  import opened Wrappers
  import Animation

  /** A duration or timer: a number of seconds, or `Double.infinity`. */
  datatype Time = Finite(seconds: real) | Infinite

  datatype Kind =
    | Basic(motion: Animation.Motion)
    | Sequence(steps: ActionSequence)
    | Group(actions: seq<Action>)

  /** `ActionSequence`: the members not yet started and the one running, if any. */
  datatype ActionSequence = ActionSequence(sequence: seq<Action>, current: Option<Action>)

  datatype Action = Action(kind: Kind, duration: Time, timer: Time, completion: Option<nat>, completed: bool)

  function Size(a: Action): nat
  {
    1 + match a.kind
        case Basic(_) => 0
        case Sequence(s) => SizeSteps(s)
        case Group(acts) => SizeAll(acts)
  }

  function SizeSteps(s: ActionSequence): nat
  {
    SizeAll(s.sequence) + if s.current.Some? then Size(s.current.value) else 0
  }

  function SizeAll(acts: seq<Action>): nat
  {
    if acts == [] then 0 else Size(acts[0]) + SizeAll(acts[1..])
  }

  // ----- time -----

  /** `timer - delta` for a finite `delta`: infinity stays infinity. */
  function Minus(t: Time, delta: real): Time
  {
    if t.Finite? then Finite(t.seconds - delta) else Infinite
  }

  function Plus(x: Time, y: Time): (r: Time)
    ensures r.Infinite? <==> x.Infinite? || y.Infinite?
  {
    if x.Finite? && y.Finite? then Finite(x.seconds + y.seconds) else Infinite
  }

  /** `x <= y` on doubles, infinity above every number. */
  predicate AtMost(x: Time, y: Time)
  {
    y.Infinite? || (x.Finite? && x.seconds <= y.seconds)
  }

  /** `timer <= 0.0`. */
  predicate Expired(t: Time)
  {
    t.Finite? && t.seconds <= 0.0
  }

  // ----- the motions -----

  /** After one run `moveTo` has become a `moveBy` and `scaleTo` a `scaleByXY`;
      in this generation `scaleBy` keeps its type. */
  function Settle(m: Animation.Motion): (r: Animation.Motion)
    ensures !r.MoveTo? && !r.ScaleTo?
    ensures !m.MoveTo? && !m.ScaleTo? ==> r == m
    ensures m.MoveTo? ==> r.MoveBy?
    ensures m.ScaleTo? ==> r.ScaleByXY?
  {
    match m
    case MoveTo => Animation.MoveBy
    case ScaleTo => Animation.ScaleByXY
    case _ => m
  }

  // ----- sequences -----

  /** The members still to run, in order: the current one while it has not
      completed, then those not yet started. */
  function Queue(s: ActionSequence): seq<Action>
  {
    (if s.current.Some? && !s.current.value.completed then [s.current.value] else []) + s.sequence
  }

  /** `getNextAction()`: the current action while it has not completed; otherwise
      the first member not yet started, taken off the list, or nothing when none is
      left. The action handed out is `current` of the result. */
  function GetNextAction(s: ActionSequence): (r: ActionSequence)
    ensures Queue(s) == [] ==> r == ActionSequence([], None)
    ensures Queue(s) != [] ==> r.current == Some(Queue(s)[0]) && r.sequence == Queue(s)[1..]
  {
    if s.current.Some? && !s.current.value.completed then s
    else if |s.sequence| > 0 then ActionSequence(s.sequence[1..], Some(s.sequence[0]))
    else ActionSequence(s.sequence, None)
  }

  /** Taking actions from a sequence never loses or reorders a member: what is
      running and what waits is the old queue, and a member that completes is
      replaced by the next. */
  lemma {:induction false} QueueKept(s: ActionSequence)
    ensures var r := GetNextAction(s);
            && (r.current.Some? ==> [r.current.value] + r.sequence == Queue(s))
            && (r.current.None? <==> Queue(s) == [])
            && (r.current.Some? && !r.current.value.completed ==> Queue(r) == Queue(s))
  {
    var r := GetNextAction(s);
    if Queue(s) != [] {
      assert Queue(s) == [Queue(s)[0]] + Queue(s)[1..];
    }
  }

  // ----- running -----

  /** What one run does to an action's own bookkeeping: the timer goes down by
      `delta`, and the action is completed once it is at or below zero, and stays
      so. Duration and completion never change. */
  ghost predicate Stepped(a: Action, b: Action, delta: real)
  {
    && b.duration == a.duration
    && b.completion == a.completion
    && b.timer == Minus(a.timer, delta)
    && b.completed == (a.completed || Expired(Minus(a.timer, delta)))
  }

  /** `run(node:delta:)`: `moveTo` and `scaleTo` settle their type, a sequence runs
      its next action, a group all of its members; then the timer goes down. */
  function Run(a: Action, delta: real): (r: Action)
    decreases Size(a), 0
    ensures Stepped(a, r, delta)
    ensures a.kind.Basic? ==> r.kind == Basic(Settle(a.kind.motion))
    ensures a.kind.Group? ==> r.kind.Group? && |r.kind.actions| == |a.kind.actions|
    ensures a.kind.Sequence? ==> r.kind.Sequence?
  {
    var kind :=
      match a.kind
      case Basic(m) => Basic(Settle(m))
      case Sequence(s) => Sequence(RunSequence(s, delta))
      case Group(acts) => Group(RunAll(acts, delta));
    var timer := Minus(a.timer, delta);
    a.(kind := kind, timer := timer, completed := a.completed || Expired(timer))
  }

  /** `sequenceActions`: fetch the next action and run it, if there is one; only
      that action runs. */
  function RunSequence(s: ActionSequence, delta: real): (r: ActionSequence)
    decreases SizeSteps(s), 1
    ensures r.sequence == GetNextAction(s).sequence
    ensures r.current.Some? <==> Queue(s) != []
    ensures r.current.Some? ==> Stepped(Queue(s)[0], r.current.value, delta)
  {
    var t := GetNextAction(s);
    match t.current
    case None => t
    case Some(next) =>
      assert Size(next) <= SizeSteps(s) by {
        if s.current.None? || s.current.value.completed {
          SizeBound(s.sequence, 0);
        }
      }
      t.(current := Some(Run(next, delta)))
  }

  /** `groupActions`: every member runs, in order. */
  function RunAll(acts: seq<Action>, delta: real): (r: seq<Action>)
    decreases SizeAll(acts), 1
    ensures |r| == |acts|
    ensures forall i :: 0 <= i < |acts| ==> Stepped(acts[i], r[i], delta)
  {
    if acts == [] then []
    else
      assert SizeAll(acts[1..]) < SizeAll(acts) by {
        assert Size(acts[0]) >= 1;
      }
      var rest := RunAll(acts[1..], delta);
      assert forall i :: 0 < i < |acts| ==> acts[1..][i - 1] == acts[i];
      [Run(acts[0], delta)] + rest
  }

  lemma {:induction false} SizeBound(acts: seq<Action>, i: nat)
    requires i < |acts|
    ensures Size(acts[i]) <= SizeAll(acts)
  {
    if i > 0 {
      SizeBound(acts[1..], i - 1);
    }
  }

  /** Runs with the ticks `deltas`, one after another. */
  function RunEach(a: Action, deltas: seq<real>): Action
  {
    if deltas == [] then a else Run(RunEach(a, deltas[..|deltas| - 1]), deltas[|deltas| - 1])
  }

  /** An action with a finite timer has, after some non-empty run of non-negative
      ticks, the timer it started with less all of them, and it is completed
      exactly when that is at or below zero (or it was completed to begin with). */
  lemma {:induction false} CountsDown(a: Action, deltas: seq<real>)
    requires a.timer.Finite? && deltas != []
    requires forall i :: 0 <= i < |deltas| ==> deltas[i] >= 0.0
    ensures var r := RunEach(a, deltas);
            && r.timer == Finite(a.timer.seconds - Animation.Total(deltas))
            && (r.completed <==> a.completed || a.timer.seconds - Animation.Total(deltas) <= 0.0)
  {
    var init := deltas[..|deltas| - 1];
    var last := deltas[|deltas| - 1];
    if init == [] {
      assert deltas == [last];
      assert Animation.Total(deltas) == Animation.Total([]) + last;
    } else {
      forall i | 0 <= i < |init|
        ensures init[i] >= 0.0
      {
        assert init[i] == deltas[i];
      }
      CountsDown(a, init);
    }
  }

  /** An action that repeats forever is never completed, whatever finite ticks it
      is run with. */
  lemma {:induction false} ForeverNeverCompletes(a: Action, deltas: seq<real>)
    ensures var r := RunEach(RepeatForever(a), deltas);
            r.timer.Infinite? && !r.completed
  {
    if deltas != [] {
      ForeverNeverCompletes(a, deltas[..|deltas| - 1]);
    }
  }

  // ----- making actions -----

  /** The factories for basic actions: the timer starts at the duration; `moveBy`
      and `rotateBy` drop the completion they are given. */
  function Make(m: Animation.Motion, duration: Time, completion: Option<nat>): (r: Action)
    ensures r.kind == Basic(m) && r.duration == duration && r.timer == duration && !r.completed
    ensures r.completion == (if m.MoveBy? || m.RotateBy? then None else completion)
  {
    var kept := if m.MoveBy? || m.RotateBy? then None else completion;
    Action(Basic(m), duration, duration, kept, false)
  }

  /** Running a fresh action for its whole duration in one tick completes it, and
      a shorter tick leaves it going. */
  lemma MadeActionCompletes(m: Animation.Motion, duration: real, c: Option<nat>, delta: real)
    ensures Run(Make(m, Finite(duration), c), delta).completed <==> delta >= duration
  {
  }

  /** The sum of `durations` with `reduce(0.0, +)`. */
  function Total(durations: seq<Time>): Time
  {
    if durations == [] then Finite(0.0) else Plus(Total(durations[..|durations| - 1]), durations[|durations| - 1])
  }

  /** A sequence lasts forever as soon as one member does; otherwise its duration is
      the plain sum. */
  lemma {:induction false} TotalInfinite(durations: seq<Time>)
    ensures Total(durations).Infinite? <==> exists i :: 0 <= i < |durations| && durations[i].Infinite?
    ensures Total(durations).Finite? ==> Total(durations).seconds == Animation.Total(Seconds(durations))
  {
    if durations != [] {
      var init := durations[..|durations| - 1];
      TotalInfinite(init);
      assert forall i :: 0 <= i < |init| ==> init[i] == durations[i];
      if Total(durations).Finite? {
        assert Seconds(durations)[..|durations| - 1] == Seconds(init);
      }
    }
  }

  /** The seconds of each duration, infinity counted as zero. */
  function Seconds(durations: seq<Time>): (r: seq<real>)
    ensures |r| == |durations|
    ensures forall i :: 0 <= i < |durations| && durations[i].Finite? ==> r[i] == durations[i].seconds
  {
    seq(|durations|, i requires 0 <= i < |durations| => if durations[i].Finite? then durations[i].seconds else 0.0)
  }

  /** `maxElement() ?? 0.0`. */
  function Longest(durations: seq<Time>): (r: Time)
    ensures durations == [] ==> r == Finite(0.0)
    ensures durations != [] ==>
              && (exists i :: 0 <= i < |durations| && durations[i] == r)
              && forall i :: 0 <= i < |durations| ==> AtMost(durations[i], r)
  {
    if durations == [] then Finite(0.0)
    else if |durations| == 1 then durations[0]
    else
      var rest := Longest(durations[1..]);
      assert forall i :: 1 <= i < |durations| ==> durations[1..][i - 1] == durations[i];
      if AtMost(rest, durations[0]) then durations[0] else rest
  }

  function Durations(acts: seq<Action>): (r: seq<Time>)
    ensures |r| == |acts| && forall i :: 0 <= i < |acts| ==> r[i] == acts[i].duration
  {
    seq(|acts|, i requires 0 <= i < |acts| => acts[i].duration)
  }

  /** `sequence(sequence:completion:)`. */
  function MakeSequence(members: seq<Action>, completion: Option<nat>): (r: Action)
    ensures r.kind == Sequence(ActionSequence(members, None))
    ensures r.duration == Total(Durations(members)) && r.timer == r.duration
    ensures !r.completed && r.completion == completion
  {
    var duration := Total(Durations(members));
    Action(Sequence(ActionSequence(members, None)), duration, duration, completion, false)
  }

  /** `group(group:completion:)`. */
  function MakeGroup(members: seq<Action>, completion: Option<nat>): (r: Action)
    ensures r.kind == Group(members)
    ensures r.duration == Longest(Durations(members)) && r.timer == r.duration
    ensures !r.completed && r.completion == completion
  {
    var duration := Longest(Durations(members));
    Action(Group(members), duration, duration, completion, false)
  }

  /** `repeatForever(action:)`: the same type, an infinite duration, no
      completion. */
  function RepeatForever(a: Action): (r: Action)
    ensures r.kind == a.kind && r.duration.Infinite? && r.timer.Infinite?
    ensures r.completion == None && !r.completed
  {
    Action(a.kind, Infinite, Infinite, None, false)
  }
}
