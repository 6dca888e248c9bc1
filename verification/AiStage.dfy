/**
  * The asynchronous inference hand-off of src/pipeline_stages/ai_stage/ai_stage.cc: the pipeline thread and the
  * inference worker as atomic steps that interleave in any order.
  */
module AiStage {
  import opened Options

  /**
    * The worker: at the loop head, about to look for a frame, holding the mutex after it found none, asleep without the
    * mutex, holding a frame, holding one already reported, or gone.
    */
  datatype Worker =
    | NotStarted
    | AtTop
    | Waiting
    | Checked
    | Blocked
    | Inferring(frame: nat)
    | Clearing(frame: nat)
    | Exited

  /** The pipeline thread inside ProcessFrame, for the frame with this arrival number. */
  datatype Pipeline =
    | Ready
    | Attaching(frame: nat)
    | Claiming(frame: nat, attached: Option<nat>)
    | Submitting(frame: nat, attached: Option<nat>)
    | Notifying(frame: nat, attached: Option<nat>)
    | Passing(frame: nat, attached: Option<nat>)

  datatype Output = Output(frame: nat, attached: Option<nat>)
  datatype Submission = Submission(frame: nat, count: nat)

  /**
    * Shared and private fields, then the history: submissions claimed, frames taken by the worker, frames whose
    * inference has ended, and the frames passed on. A result is named by the frame it was inferred from.
    */
  datatype State = State(
    skip: int, engine: bool, shutdown: bool, notified: bool, running: bool, pending: Option<nat>, last: Option<nat>,
    counter: nat, arrived: nat, pipeline: Pipeline, worker: Worker,
    submitted: seq<Submission>, taken: seq<nat>, ended: seq<nat>, outputs: seq<Output>)

  function Initial(skip: int): State {
    State(skip, true, false, false, false, None, None, 0, 0, Ready, NotStarted, [], [], [], [])
  }

  datatype Step =
    | Arrive(raw: bool)      // ProcessFrame entered, worker started on first use
    | Attach                 // read last_result_
    | Claim                  // count the frame, exchange infer_running_
    | Submit                 // set pending_frame_ under infer_mutex_
    | Notify                 // wake the worker if it is asleep
    | Pass                   // hand the frame on
    | CheckLoop              // the worker's loop condition
    | Look                   // the wait's predicate, under infer_mutex_, and taking the frame
    | Block                  // go to sleep and release infer_mutex_
    | WakeUp                 // a wake-up without a notification
    | Infer(found: bool)     // inference, and the result when it found something
    | Clear                  // infer_running_ := false
    | SetShutdown            // the flag of Shutdown, stored without infer_mutex_
    | NotifyShutdown         // the notification of Shutdown
    | DropEngine             // the rest of Shutdown, after the worker was joined

  predicate Due(skip: int, count: nat) {
    skip <= 0 || count % (skip + 1) == 0
  }

  /** A worker that is asleep looks again. */
  function Awake(w: Worker): Worker {
    if w.Blocked? then Waiting else w
  }

  /** One atomic step; a step whose thread is elsewhere or blocked does nothing. */
  function Next(s: State, step: Step): State {
    match step
    case Arrive(raw) =>
      if !s.pipeline.Ready? then s
      else if !raw || !s.engine then s.(arrived := s.arrived + 1, pipeline := Passing(s.arrived, None))
      else s.(arrived := s.arrived + 1, pipeline := Attaching(s.arrived),
              worker := if s.worker.NotStarted? then AtTop else s.worker)
    case Attach =>
      if s.pipeline.Attaching? then s.(pipeline := Claiming(s.pipeline.frame, s.last)) else s
    case Claim =>
      if !s.pipeline.Claiming? then s
      else
        var frame, attached, count := s.pipeline.frame, s.pipeline.attached, s.counter + 1;
        if Due(s.skip, count) && !s.running then
          s.(counter := count, running := true, pipeline := Submitting(frame, attached),
             submitted := s.submitted + [Submission(frame, count)])
        else s.(counter := count, pipeline := Passing(frame, attached))
    case Submit =>
      if s.pipeline.Submitting? && !s.worker.Checked?
      then s.(pending := Some(s.pipeline.frame), pipeline := Notifying(s.pipeline.frame, s.pipeline.attached)) else s
    case Notify =>
      if s.pipeline.Notifying?
      then s.(pipeline := Passing(s.pipeline.frame, s.pipeline.attached), worker := Awake(s.worker)) else s
    case Pass =>
      if s.pipeline.Passing?
      then s.(pipeline := Ready, outputs := s.outputs + [Output(s.pipeline.frame, s.pipeline.attached)]) else s
    case CheckLoop =>
      if s.worker.AtTop? then s.(worker := if s.shutdown then Exited else Waiting) else s
    case Look =>
      if !s.worker.Waiting? then s
      else if s.shutdown then s.(worker := Exited)
      else if s.pending.Some?
      then s.(worker := Inferring(s.pending.value), taken := s.taken + [s.pending.value], pending := None)
      else s.(worker := Checked)
    case Block => if s.worker.Checked? then s.(worker := Blocked) else s
    case WakeUp => s.(worker := Awake(s.worker))
    case Infer(found) =>
      if s.worker.Inferring?
      then s.(worker := Clearing(s.worker.frame), last := if found then Some(s.worker.frame) else s.last) else s
    case Clear =>
      if s.worker.Clearing?
      then s.(worker := AtTop, running := false, ended := s.ended + [s.worker.frame]) else s
    case SetShutdown => s.(shutdown := true)
    case NotifyShutdown =>
      if s.shutdown && !s.notified then s.(notified := true, worker := Awake(s.worker)) else s
    case DropEngine =>
      if s.notified && (s.worker.NotStarted? || s.worker.Exited?) then s.(engine := false) else s
  }

  function Execute(s: State, steps: seq<Step>): State
    decreases |steps|
  {
    if steps == [] then s else Next(Execute(s, steps[..|steps| - 1]), steps[|steps| - 1])
  }

  // ---------- the invariant ----------

  function One(b: bool): nat {
    if b then 1 else 0
  }

  predicate Holding(s: State) {
    s.worker.Inferring? || s.worker.Clearing?
  }

  /**
    * Idle, submitting, pending or inferring: exactly one, and the flag says whether it is idle. A worker asleep while a
    * frame is pending has its notification coming.
    */
  ghost predicate OnePhase(s: State) {
    && One(s.pipeline.Submitting?) + One(s.pending.Some?) + One(Holding(s)) == One(s.running)
    && (s.worker.NotStarted? ==> !s.running && (s.pipeline.Ready? || s.pipeline.Passing?))
    && (s.worker.Exited? ==> s.shutdown)
    && (s.worker.Checked? ==> s.pending.None?)
    && (s.worker.Blocked? && s.pending.Some? ==> s.pipeline.Notifying?)
  }

  /** The frame on its way from the claim to the worker. */
  function OnTheWay(s: State): seq<nat> {
    if s.pipeline.Submitting? then [s.pipeline.frame]
    else if s.pending.Some? then [s.pending.value]
    else []
  }

  function InHand(s: State): seq<nat> {
    if Holding(s) then [s.worker.frame] else []
  }

  function Frames(subs: seq<Submission>): (r: seq<nat>)
    ensures |r| == |subs|
  {
    seq(|subs|, i requires 0 <= i < |subs| => subs[i].frame)
  }

  /** Each submitted frame is taken once and in order, the last perhaps not yet; likewise for those taken. */
  ghost predicate HandedOver(s: State) {
    && Frames(s.submitted) == s.taken + OnTheWay(s)
    && s.taken == s.ended + InHand(s)
  }

  /** Frames in the stage: all earlier ones have left, in order of arrival. */
  ghost predicate InOrder(s: State) {
    && (!s.pipeline.Ready? ==> s.arrived > 0 && s.pipeline.frame == s.arrived - 1)
    && |s.outputs| == s.arrived - One(!s.pipeline.Ready?)
    && (forall i :: 0 <= i < |s.outputs| ==> s.outputs[i].frame == i)
  }

  ghost predicate Increasing(frames: seq<nat>) {
    forall i, j :: 0 <= i < j < |frames| ==> frames[i] < frames[j]
  }

  /** The newest frame that may have been submitted. */
  function Bound(s: State): int {
    if s.pipeline.Attaching? || s.pipeline.Claiming? then s.arrived - 1 else s.arrived
  }

  ghost predicate SubmittedInOrder(s: State) {
    && Increasing(Frames(s.submitted))
    && (forall i :: 0 <= i < |s.submitted| ==> s.submitted[i].frame < Bound(s))
  }

  /** The result known to the stage is from a frame the worker took. */
  ghost predicate ResultTaken(s: State) {
    s.last.Some? ==> s.last.value in s.taken
  }

  ghost predicate Earlier(subs: seq<nat>, o: Output) {
    o.attached.Some? ==> o.attached.value < o.frame && o.attached.value in subs
  }

  predicate NotAfter(a: Option<nat>, b: Option<nat>) {
    a.Some? && b.Some? ==> a.value <= b.value
  }

  /** The frames passed on and the one that already has its result. */
  function Attachments(s: State): seq<Output> {
    s.outputs + (if !s.pipeline.Ready? && !s.pipeline.Attaching?
                 then [Output(s.pipeline.frame, s.pipeline.attached)] else [])
  }

  /** Attached results are from strictly earlier submissions and never go back, nor beyond the result now known. */
  ghost predicate AttachedInOrder(outs: seq<Output>, subs: seq<nat>, last: Option<nat>) {
    && (forall i :: 0 <= i < |outs| ==> Earlier(subs, outs[i]) && (last.None? ==> outs[i].attached.None?))
    && (forall i :: 0 <= i < |outs| ==> NotAfter(outs[i].attached, last))
    && (forall i, j :: 0 <= i < j < |outs| ==> NotAfter(outs[i].attached, outs[j].attached))
  }

  /** Submissions keep the configured number of analysed frames between them. */
  ghost predicate Sparse(s: State) {
    && (forall i :: 0 <= i < |s.submitted| ==> s.submitted[i].count <= s.counter && Due(s.skip, s.submitted[i].count))
    && (forall i, j :: 0 <= i < j < |s.submitted| ==> s.submitted[i].count < s.submitted[j].count)
  }

  ghost predicate Valid(s: State) {
    && OnePhase(s) && HandedOver(s) && InOrder(s) && SubmittedInOrder(s) && ResultTaken(s)
    && AttachedInOrder(Attachments(s), Frames(s.submitted), s.last) && Sparse(s)
  }

  // ---------- every step keeps it ----------

  lemma FramesSnoc(subs: seq<Submission>, x: Submission)
    ensures Frames(subs + [x]) == Frames(subs) + [x.frame]
  {
  }

  lemma PhaseStep(s: State, step: Step)
    requires OnePhase(s)
    ensures OnePhase(Next(s, step))
  {
  }

  lemma TakenSideStep(s: State, step: Step)
    requires OnePhase(s) && s.taken == s.ended + InHand(s)
    ensures Next(s, step).taken == Next(s, step).ended + InHand(Next(s, step))
  {
    if step.Clear? && s.worker.Clearing? {
      assert s.ended + [s.worker.frame] + [] == s.ended + [s.worker.frame];
    }
  }

  /** What a step does to the submissions, the frames taken and the frame on its way. */
  lemma SubmittedSideStep(s: State, step: Step)
    requires OnePhase(s) && Frames(s.submitted) == s.taken + OnTheWay(s)
    ensures Frames(Next(s, step).submitted) == Next(s, step).taken + OnTheWay(Next(s, step))
  {
    if step.Claim? && s.pipeline.Claiming? {
      FramesSnoc(s.submitted, Submission(s.pipeline.frame, s.counter + 1));
      hide Frames, Due;
    } else {
      SubmittedSame(s, step);
      hide Frames;
    }
  }

  lemma SubmittedSame(s: State, step: Step)
    requires !(step.Claim? && s.pipeline.Claiming?)
    ensures Next(s, step).submitted == s.submitted
  {
  }

  lemma HandedOverStep(s: State, step: Step)
    requires OnePhase(s) && HandedOver(s)
    ensures HandedOver(Next(s, step))
  {
    hide Next, OnePhase, OnTheWay, InHand, Frames;
    TakenSideStep(s, step);
    SubmittedSideStep(s, step);
  }

  lemma InOrderStep(s: State, step: Step)
    requires InOrder(s)
    ensures InOrder(Next(s, step))
  {
  }

  lemma SubmittedStep(s: State, step: Step)
    requires InOrder(s) && SubmittedInOrder(s)
    ensures SubmittedInOrder(Next(s, step))
  {
    if step.Claim? && s.pipeline.Claiming? {
      FramesSnoc(s.submitted, Submission(s.pipeline.frame, s.counter + 1));
      hide Due;
    } else {
      SubmittedSame(s, step);
      BoundGrows(s, step);
      hide Next, Frames;
    }
  }

  lemma BoundGrows(s: State, step: Step)
    requires InOrder(s)
    ensures Bound(s) <= Bound(Next(s, step))
  {
  }

  lemma ResultStep(s: State, step: Step)
    requires HandedOver(s) && ResultTaken(s)
    ensures ResultTaken(Next(s, step))
  {
    hide Frames;
    if step.Infer? && s.worker.Inferring? {
      assert InHand(s) == [s.worker.frame];
    }
  }

  /** The frame in the worker's hands is the newest it took. */
  lemma InHandIsNewest(s: State, frame: nat)
    requires HandedOver(s) && SubmittedInOrder(s) && frame in s.taken && Holding(s)
    ensures frame <= s.worker.frame
  {
    var all, n := Frames(s.submitted), |s.taken|;
    var i :| 0 <= i < n && s.taken[i] == frame;
    assert all[i] == s.taken[i] && all[n - 1] == s.taken[n - 1];
    assert s.taken[n - 1] == s.worker.frame;
  }

  lemma TakenWasSubmitted(s: State, frame: nat)
    requires HandedOver(s) && SubmittedInOrder(s) && frame in s.taken
    ensures frame in Frames(s.submitted) && frame < Bound(s)
  {
    var i :| 0 <= i < |s.taken| && s.taken[i] == frame;
    assert Frames(s.submitted)[i] == frame;
  }

  lemma SubmittedGrow(s: State, step: Step, frame: nat)
    requires frame in Frames(s.submitted)
    ensures frame in Frames(Next(s, step).submitted)
  {
    if step.Claim? && s.pipeline.Claiming? {
      FramesSnoc(s.submitted, Submission(s.pipeline.frame, s.counter + 1));
    }
    hide Frames;
  }

  /** The known result only moves to newer frames. */
  lemma LastGrows(s: State, step: Step)
    requires HandedOver(s) && SubmittedInOrder(s) && ResultTaken(s)
    ensures s.last.Some? ==> Next(s, step).last.Some? && s.last.value <= Next(s, step).last.value
  {
    if step.Infer? && s.worker.Inferring? && s.last.Some? {
      InHandIsNewest(s, s.last.value);
    }
  }

  lemma AttachmentsStep(s: State, step: Step)
    ensures Attachments(Next(s, step)) ==
            (if step.Attach? && s.pipeline.Attaching? then s.outputs + [Output(s.pipeline.frame, s.last)]
             else if step.Arrive? && s.pipeline.Ready? && (!step.raw || !s.engine)
             then s.outputs + [Output(s.arrived, None)]
             else Attachments(s))
  {
  }

  lemma AttachedGrow(outs: seq<Output>, subs: seq<nat>, last: Option<nat>, subs': seq<nat>, last': Option<nat>)
    requires AttachedInOrder(outs, subs, last)
    requires (forall x :: x in subs ==> x in subs') && (last.Some? ==> last'.Some? && last.value <= last'.value)
    ensures AttachedInOrder(outs, subs', last')
  {
  }

  lemma AttachedSnoc(outs: seq<Output>, subs: seq<nat>, last: Option<nat>, o: Output)
    requires AttachedInOrder(outs, subs, last) && (o.attached == last || o.attached == None) && Earlier(subs, o)
    ensures AttachedInOrder(outs + [o], subs, last)
  {
  }

  lemma AttachedStep(s: State, step: Step)
    requires HandedOver(s) && InOrder(s) && SubmittedInOrder(s) && ResultTaken(s)
    requires AttachedInOrder(Attachments(s), Frames(s.submitted), s.last)
    ensures AttachedInOrder(Attachments(Next(s, step)), Frames(Next(s, step).submitted), Next(s, step).last)
  {
    var t, subs := Next(s, step), Frames(s.submitted);
    AttachmentsStep(s, step);
    LastGrows(s, step);
    forall x | x in subs ensures x in Frames(t.submitted) {
      SubmittedGrow(s, step, x);
    }
    if s.last.Some? && s.pipeline.Attaching? {
      TakenWasSubmitted(s, s.last.value);
    }
    hide AttachedInOrder, Frames;
    if s.pipeline.Attaching? {
      assert Attachments(s) == s.outputs;
      AttachedSnoc(s.outputs, subs, s.last, Output(s.pipeline.frame, s.last));
    } else if s.pipeline.Ready? {
      assert Attachments(s) == s.outputs;
      AttachedSnoc(s.outputs, subs, s.last, Output(s.arrived, None));
    }
    hide Attachments;
    AttachedGrow(Attachments(t), subs, s.last, Frames(t.submitted), t.last);
  }

  lemma SparseStep(s: State, step: Step)
    requires Sparse(s)
    ensures Sparse(Next(s, step))
  {
    hide Due;
  }

  lemma StepKeepsValid(s: State, step: Step)
    requires Valid(s)
    ensures Valid(Next(s, step))
  {
    hide Next, OnePhase, HandedOver, InOrder, SubmittedInOrder, ResultTaken, AttachedInOrder, Sparse, Attachments,
         Frames;
    PhaseStep(s, step);
    HandedOverStep(s, step);
    InOrderStep(s, step);
    SubmittedStep(s, step);
    ResultStep(s, step);
    AttachedStep(s, step);
    SparseStep(s, step);
  }

  lemma InitialValid(skip: int)
    ensures Valid(Initial(skip))
  {
  }

  /**
    * Every interleaving: exactly one of idle, submitting, pending and inferring, tied to the running flag; every
    * submitted frame reaches the worker once and in order; results are attached only to later frames, in order.
    */
  lemma {:induction false} RunInvariant(skip: int, steps: seq<Step>)
    ensures Valid(Execute(Initial(skip), steps))
    decreases |steps|
  {
    hide Valid, Next;
    if steps == [] {
      InitialValid(skip);
    } else {
      RunInvariant(skip, steps[..|steps| - 1]);
      StepKeepsValid(Execute(Initial(skip), steps[..|steps| - 1]), steps[|steps| - 1]);
    }
  }

  // ---------- what it gives ----------

  /** No claimed frame is overwritten: when a frame is submitted the slot is empty and the worker has nothing. */
  lemma SlotFreeAtSubmit(skip: int, steps: seq<Step>)
    requires Execute(Initial(skip), steps).pipeline.Submitting?
    ensures var s := Execute(Initial(skip), steps); s.pending.None? && !Holding(s) && s.running
  {
    RunInvariant(skip, steps);
    hide Execute;
  }

  /** What is attached to the frames passed on, over every interleaving. */
  lemma AttachedResults(skip: int, steps: seq<Step>, i: nat, j: nat)
    requires i <= j < |Execute(Initial(skip), steps).outputs|
    ensures
      var s := Execute(Initial(skip), steps);
      var a, b := s.outputs[i].attached, s.outputs[j].attached;
      && s.outputs[j].frame == j
      && (b.Some? ==> b.value < j && exists k :: 0 <= k < |s.submitted| && s.submitted[k].frame == b.value)
      && (a.Some? && b.Some? ==> a.value <= b.value)
  {
    RunInvariant(skip, steps);
    var s := Execute(Initial(skip), steps);
    hide Execute;
    var outs, subs := Attachments(s), Frames(s.submitted);
    assert outs[i] == s.outputs[i] && outs[j] == s.outputs[j];
    assert Earlier(subs, outs[j]) && (i < j ==> NotAfter(outs[i].attached, outs[j].attached));
    if s.outputs[j].attached.Some? {
      var k :| 0 <= k < |subs| && subs[k] == s.outputs[j].attached.value;
      assert s.submitted[k].frame == s.outputs[j].attached.value;
    }
  }

  lemma MultiplesApart(m: nat, a: nat, b: nat)
    requires m > 0 && a % m == 0 && b % m == 0 && a < b
    ensures b - a >= m
  {
    var x, y := a / m, b / m;
    assert a == m * x && b == m * y;
    if y <= x {
      ProductGrows(m, y, x);
    } else {
      ProductGrows(m, x + 1, y);
    }
  }

  lemma ProductGrows(m: nat, x: nat, y: nat)
    requires x <= y
    ensures m * x <= m * y
  {
  }

  /** With frames to skip, that many analysed frames lie between any two submissions. */
  lemma SubmissionsSpaced(skip: int, steps: seq<Step>, i: nat, j: nat)
    requires skip > 0 && i < j < |Execute(Initial(skip), steps).submitted|
    ensures var s := Execute(Initial(skip), steps); s.submitted[j].count - s.submitted[i].count >= skip + 1
  {
    RunInvariant(skip, steps);
    SkipConstant(skip, steps);
    var s := Execute(Initial(skip), steps);
    hide Execute;
    MultiplesApart(skip + 1, s.submitted[i].count, s.submitted[j].count);
  }

  lemma {:induction false} SkipConstant(skip: int, steps: seq<Step>)
    ensures Execute(Initial(skip), steps).skip == skip
    decreases |steps|
  {
    hide Next;
    if steps != [] {
      SkipConstant(skip, steps[..|steps| - 1]);
      NextKeepsSkip(Execute(Initial(skip), steps[..|steps| - 1]), steps[|steps| - 1]);
    }
  }

  lemma NextKeepsSkip(s: State, step: Step)
    ensures Next(s, step).skip == s.skip
  {
  }

  lemma ExecuteSnoc(s: State, steps: seq<Step>, x: Step)
    ensures Execute(s, steps + [x]) == Next(Execute(s, steps), x)
  {
    assert (steps + [x])[..|steps|] == steps;
  }

  lemma {:induction false} ExecuteAppend(s: State, a: seq<Step>, b: seq<Step>)
    ensures Execute(s, a + b) == Execute(Execute(s, a), b)
    decreases |b|
  {
    hide Next;
    if b == [] {
      assert a + b == a;
    } else {
      var n := |b| - 1;
      assert (a + b)[..|a| + n] == a + b[..n];
      ExecuteAppend(s, a, b[..n]);
    }
  }

  lemma ExecuteCons(s: State, steps: seq<Step>)
    requires steps != []
    ensures Execute(s, steps) == Execute(Next(s, steps[0]), steps[1..])
  {
    hide Next;
    assert steps == [steps[0]] + steps[1..];
    ExecuteAppend(s, [steps[0]], steps[1..]);
    assert Execute(s, []) == s && [] + [steps[0]] == [steps[0]];
    ExecuteSnoc(s, [], steps[0]);
  }

  /** Four steps at a time. */
  lemma ExecuteFour(s: State, a: Step, b: Step, c: Step, d: Step, rest: seq<Step>)
    ensures Execute(s, [a, b, c, d] + rest) == Execute(Next(Next(Next(Next(s, a), b), c), d), rest)
  {
    hide Next;
    var front := [a, b, c, d];
    ExecuteAppend(s, front, rest);
    assert front[1..] == [b, c, d] && front[1..][1..] == [c, d] && front[1..][1..][1..] == [d] && [d][1..] == [];
    var s1 := Next(s, a);
    var s2 := Next(s1, b);
    var s3 := Next(s2, c);
    assert Execute(Next(s3, d), []) == Next(s3, d);
    hide Execute;
    ExecuteCons(s, front);
    ExecuteCons(s1, [b, c, d]);
    ExecuteCons(s2, [c, d]);
    ExecuteCons(s3, [d]);
  }

  // ---------- which result a frame gets ----------

  /** The state in front of step `i`. */
  function Before(skip: int, steps: seq<Step>, i: nat): State
    requires i <= |steps|
  {
    Execute(Initial(skip), steps[..i])
  }

  /** Step `i` is an inference that finds something. */
  predicate Finds(skip: int, steps: seq<Step>, i: nat) {
    i < |steps| && steps[i] == Infer(true) && Before(skip, steps, i).worker.Inferring?
  }

  /** Step `a` is the moment at which frame `g` looks for a result. */
  predicate Reads(skip: int, steps: seq<Step>, a: nat, g: nat) {
    a < |steps| && steps[a] == Attach && Before(skip, steps, a).pipeline == Attaching(g)
  }

  /** In front of step `a`, frame `f` is the one whose inference found something last. */
  ghost predicate FoundLast(skip: int, steps: seq<Step>, i: nat, a: nat, f: nat) {
    && i < a && Finds(skip, steps, i) && Before(skip, steps, i).worker.frame == f
    && forall j :: i < j < a ==> !Finds(skip, steps, j)
  }

  lemma BeforePrefix(skip: int, steps: seq<Step>, a: nat, i: nat)
    requires i <= a <= |steps|
    ensures Before(skip, steps[..a], i) == Before(skip, steps, i)
    ensures i < a ==> Finds(skip, steps[..a], i) == Finds(skip, steps, i)
  {
    assert steps[..a][..i] == steps[..i];
  }

  lemma BeforeNext(skip: int, steps: seq<Step>, i: nat)
    requires i < |steps|
    ensures Before(skip, steps, i + 1) == Next(Before(skip, steps, i), steps[i])
  {
    hide Next;
    assert steps[..i + 1][..i] == steps[..i];
  }

  lemma LastAfter(s: State, step: Step)
    ensures Next(s, step).last ==
            if step == Infer(true) && s.worker.Inferring? then Some(s.worker.frame) else s.last
  {
  }

  /** The result on offer is that of the inference that found something last. */
  lemma {:induction false} OnOffer(skip: int, steps: seq<Step>, a: nat)
    requires a <= |steps|
    ensures var last := Before(skip, steps, a).last;
            && (last.None? ==> forall i :: 0 <= i < a ==> !Finds(skip, steps, i))
            && (last.Some? ==> exists i :: FoundLast(skip, steps, i, a, last.value))
  {
    hide Next;
    if a > 0 {
      OnOffer(skip, steps, a - 1);
      BeforeNext(skip, steps, a - 1);
      var s, t := Before(skip, steps, a - 1), Before(skip, steps, a);
      LastAfter(s, steps[a - 1]);
      hide Before;
      if Finds(skip, steps, a - 1) {
        assert FoundLast(skip, steps, a - 1, a, t.last.value);
      } else if s.last.Some? {
        var i :| FoundLast(skip, steps, i, a - 1, s.last.value);
        assert FoundLast(skip, steps, i, a, t.last.value);
      }
    }
  }

  lemma BeforeValid(skip: int, steps: seq<Step>, i: nat)
    requires i <= |steps|
    ensures Valid(Before(skip, steps, i))
  {
    RunInvariant(skip, steps[..i]);
  }

  /** What a frame got stays with it. */
  lemma AttachmentsGrow(s: State, step: Step)
    requires InOrder(s)
    ensures Attachments(s) <= Attachments(Next(s, step))
    ensures |s.outputs| <= |Next(s, step).outputs|
  {
    AttachmentsStep(s, step);
  }

  lemma {:induction false} AttachmentsStay(skip: int, steps: seq<Step>, i: nat, j: nat)
    requires i <= j <= |steps|
    ensures Attachments(Before(skip, steps, i)) <= Attachments(Before(skip, steps, j))
    decreases j
  {
    hide Next, Attachments;
    if i < j {
      AttachmentsStay(skip, steps, i, j - 1);
      BeforeNext(skip, steps, j - 1);
      BeforeValid(skip, steps, j - 1);
      AttachmentsGrow(Before(skip, steps, j - 1), steps[j - 1]);
    }
  }

  /** A frame that looks for a result gets the one on offer. */
  lemma ReadsLast(skip: int, steps: seq<Step>, a: nat, g: nat)
    requires Reads(skip, steps, a, g)
    ensures g < |Attachments(Before(skip, steps, |steps|))|
    ensures Attachments(Before(skip, steps, |steps|))[g] == Output(g, Before(skip, steps, a).last)
  {
    var s := Before(skip, steps, a);
    BeforeNext(skip, steps, a);
    BeforeValid(skip, steps, a);
    AttachmentsStay(skip, steps, a + 1, |steps|);
    AttachmentsStep(s, Attach);
    hide Before, Next, Attachments;
    assert InOrder(s) && |s.outputs| == g;
  }

  lemma GotInStep(s: State, step: Step, g: nat)
    requires InOrder(s)
    requires g < |Attachments(Next(s, step))| && Attachments(Next(s, step))[g].attached.Some?
    ensures (step.Attach? && s.pipeline == Attaching(g))
            || (g < |Attachments(s)| && Attachments(s)[g].attached.Some?)
  {
    AttachmentsStep(s, step);
    hide Next;
  }

  /** Only frames that look for a result get one. */
  lemma {:induction false} GotByReading(skip: int, steps: seq<Step>, n: nat, g: nat)
    requires n <= |steps| && g < |Attachments(Before(skip, steps, n))|
    requires Attachments(Before(skip, steps, n))[g].attached.Some?
    ensures exists a: nat :: a < n && Reads(skip, steps, a, g)
  {
    if n > 0 {
      var s := Before(skip, steps, n - 1);
      BeforeNext(skip, steps, n - 1);
      BeforeValid(skip, steps, n - 1);
      hide Before, Next, Attachments;
      GotInStep(s, steps[n - 1], g);
      if steps[n - 1].Attach? && s.pipeline == Attaching(g) {
        assert Reads(skip, steps, n - 1, g);
      } else {
        GotByReading(skip, steps, n - 1, g);
      }
    }
  }

  /**
    * On every run a frame leaves with the result of frame `f` exactly when `f` was the frame whose inference had found
    * something last as the frame looked for a result.
    */
  lemma AttachedIff(skip: int, steps: seq<Step>, g: nat, f: nat)
    requires g < |Execute(Initial(skip), steps).outputs|
    ensures Execute(Initial(skip), steps).outputs[g] == Output(g, Some(f)) <==>
            exists a, i :: Reads(skip, steps, a, g) && FoundLast(skip, steps, i, a, f)
  {
    var n := |steps|;
    var s := Before(skip, steps, n);
    assert steps[..n] == steps;
    BeforeValid(skip, steps, n);
    assert s.outputs[g] == Attachments(s)[g] && s.outputs[g].frame == g by {
      assert InOrder(s);
    }
    if s.outputs[g].attached == Some(f) {
      GotByReading(skip, steps, n, g);
      var a: nat :| a < n && Reads(skip, steps, a, g);
      ReadsLast(skip, steps, a, g);
      OnOffer(skip, steps, a);
      var i :| FoundLast(skip, steps, i, a, f);
      assert Reads(skip, steps, a, g) && FoundLast(skip, steps, i, a, f);
    }
    if a, i :| Reads(skip, steps, a, g) && FoundLast(skip, steps, i, a, f) {
      ReadsLast(skip, steps, a, g);
      OnOffer(skip, steps, a);
      FoundLastUnique(skip, steps, i, a, f);
    }
  }

  lemma FoundLastUnique(skip: int, steps: seq<Step>, i: nat, a: nat, f: nat)
    requires a <= |steps| && FoundLast(skip, steps, i, a, f)
    ensures Before(skip, steps, a).last == Some(f)
  {
    OnOffer(skip, steps, a);
    hide Before;
  }

  /** Once an inference has found something, every frame that looks later gets its result or a newer one. */
  lemma AttachedOnceFound(skip: int, steps: seq<Step>, i: nat, a: nat, g: nat)
    requires i < a && Finds(skip, steps, i) && Reads(skip, steps, a, g)
    requires g < |Execute(Initial(skip), steps).outputs|
    ensures var attached := Execute(Initial(skip), steps).outputs[g].attached;
            attached.Some? && Before(skip, steps, i).worker.frame <= attached.value
  {
    var s := Before(skip, steps, |steps|);
    assert steps[..|steps|] == steps;
    assert s.outputs[g] == Attachments(s)[g];
    ReadsLast(skip, steps, a, g);
    BeforeNext(skip, steps, i);
    LastAfter(Before(skip, steps, i), steps[i]);
    LastStays(skip, steps, i + 1, a);
  }

  lemma {:induction false} LastStays(skip: int, steps: seq<Step>, i: nat, j: nat)
    requires i <= j <= |steps| && Before(skip, steps, i).last.Some?
    ensures Before(skip, steps, j).last.Some?
            && Before(skip, steps, i).last.value <= Before(skip, steps, j).last.value
    decreases j
  {
    hide Next;
    if i < j {
      LastStays(skip, steps, i, j - 1);
      BeforeNext(skip, steps, j - 1);
      BeforeValid(skip, steps, j - 1);
      LastGrows(Before(skip, steps, j - 1), steps[j - 1]);
    }
  }

  // ---------- which frames look, which are submitted ----------

  /** At step `b` frame `g` enters the stage raw, with an engine in place. */
  predicate Enters(skip: int, steps: seq<Step>, b: nat, g: nat) {
    && b < |steps| && steps[b] == Arrive(true)
    && var s := Before(skip, steps, b); s.pipeline.Ready? && s.engine && s.arrived == g
  }

  lemma AttachingStep(s: State, step: Step, g: nat)
    ensures Next(s, step).pipeline == Attaching(g) <==>
            (s.pipeline == Attaching(g) && step != Attach)
            || (step == Arrive(true) && s.pipeline.Ready? && s.engine && s.arrived == g)
  {
  }

  lemma {:induction false} LookingEntered(skip: int, steps: seq<Step>, n: nat, g: nat)
    requires n <= |steps| && Before(skip, steps, n).pipeline == Attaching(g)
    ensures exists b: nat :: b < n && Enters(skip, steps, b, g)
  {
    if n > 0 {
      BeforeNext(skip, steps, n - 1);
      AttachingStep(Before(skip, steps, n - 1), steps[n - 1], g);
      hide Before, Next;
      if Before(skip, steps, n - 1).pipeline == Attaching(g) {
        LookingEntered(skip, steps, n - 1, g);
      } else {
        assert Enters(skip, steps, n - 1, g);
      }
    }
  }

  lemma {:induction false} EnteredLooks(skip: int, steps: seq<Step>, b: nat, n: nat, g: nat)
    requires b < n <= |steps| && Enters(skip, steps, b, g)
    ensures Before(skip, steps, n).pipeline == Attaching(g) || exists a: nat :: a < n && Reads(skip, steps, a, g)
    decreases n
  {
    BeforeNext(skip, steps, n - 1);
    AttachingStep(Before(skip, steps, n - 1), steps[n - 1], g);
    hide Before, Next;
    if b < n - 1 {
      EnteredLooks(skip, steps, b, n - 1, g);
      if Before(skip, steps, n - 1).pipeline == Attaching(g) && steps[n - 1] == Attach {
        assert Reads(skip, steps, n - 1, g);
      }
    }
  }

  /** A frame that left had looked for a result exactly when it came in raw while there was an engine. */
  lemma LooksIff(skip: int, steps: seq<Step>, g: nat)
    requires g < |Execute(Initial(skip), steps).outputs|
    ensures (exists a :: Reads(skip, steps, a, g)) <==> (exists b :: Enters(skip, steps, b, g))
  {
    var n := |steps|;
    assert steps[..n] == steps;
    BeforeValid(skip, steps, n);
    assert InOrder(Before(skip, steps, n));
    hide Execute, Attachments, AttachedInOrder, Frames;
    if a :| Reads(skip, steps, a, g) {
      LookingEntered(skip, steps, a, g);
    }
    if b :| Enters(skip, steps, b, g) {
      EnteredLooks(skip, steps, b, n, g);
    }
  }

  /** The number of frames counted in front of step `i`. */
  function Counted(skip: int, steps: seq<Step>, i: nat): nat
    requires i <= |steps|
  {
    if i == 0 then 0
    else Counted(skip, steps, i - 1)
         + One(steps[i - 1] == Claim && Before(skip, steps, i - 1).pipeline.Claiming?)
  }

  lemma {:induction false} CounterCounts(skip: int, steps: seq<Step>, i: nat)
    requires i <= |steps|
    ensures Before(skip, steps, i).counter == Counted(skip, steps, i)
  {
    if i > 0 {
      CounterCounts(skip, steps, i - 1);
      BeforeNext(skip, steps, i - 1);
      CounterStep(Before(skip, steps, i - 1), steps[i - 1]);
      hide Before, Next;
    }
  }

  lemma CounterStep(s: State, step: Step)
    ensures Next(s, step).counter == s.counter + One(step == Claim && s.pipeline.Claiming?)
  {
  }

  /**
    * On every run a frame that has been counted is submitted exactly when it is its turn, one in `skip` + 1 or each,
    * and the inference of every frame submitted before has ended.
    */
  lemma SubmittedIff(skip: int, steps: seq<Step>, i: nat, g: nat)
    requires i < |steps| && steps[i] == Claim
    requires Before(skip, steps, i).pipeline.Claiming? && Before(skip, steps, i).pipeline.frame == g
    ensures
      var s, t := Before(skip, steps, i), Before(skip, steps, i + 1);
      var goes := (skip <= 0 || (Counted(skip, steps, i) + 1) % (skip + 1) == 0) && |s.ended| == |s.submitted|;
      && Frames(t.submitted) == Frames(s.submitted) + (if goes then [g] else [])
      && (goes <==> t.pipeline.Submitting?)
  {
    hide Before, Counted, Next, Valid;
    BeforeNext(skip, steps, i);
    BeforeValid(skip, steps, i);
    CounterCounts(skip, steps, i);
    BeforeSkip(skip, steps, i);
    RunningIff(Before(skip, steps, i));
    ClaimSubmits(Before(skip, steps, i), g);
  }

  lemma BeforeSkip(skip: int, steps: seq<Step>, i: nat)
    requires i <= |steps|
    ensures Before(skip, steps, i).skip == skip
  {
    SkipConstant(skip, steps[..i]);
  }

  lemma RunningIff(s: State)
    requires Valid(s)
    ensures s.running <==> |s.ended| != |s.submitted|
  {
    assert OnePhase(s) && HandedOver(s);
    assert |Frames(s.submitted)| == |s.submitted|;
    hide Frames, InOrder, SubmittedInOrder, ResultTaken, AttachedInOrder, Sparse, Attachments;
  }

  lemma ClaimSubmits(s: State, g: nat)
    requires s.pipeline.Claiming? && s.pipeline.frame == g
    ensures
      var t := Next(s, Claim);
      var goes := (s.skip <= 0 || (s.counter + 1) % (s.skip + 1) == 0) && !s.running;
      Frames(t.submitted) == Frames(s.submitted) + (if goes then [g] else []) && (goes <==> t.pipeline.Submitting?)
  {
    FramesSnoc(s.submitted, Submission(g, s.counter + 1));
    hide Frames;
  }

  // ---------- nothing gets stuck before shutdown ----------

  /** The steps that bring any frame under way to its end. */
  function Finish(): seq<Step> {
    [Block, Submit, Notify, CheckLoop] + [Look, Infer(false), Clear, CheckLoop]
  }

  /** A frame on its way is stored and the worker goes to look for it. */
  lemma FrameIsStored(s: State)
    requires OnePhase(s) && !s.shutdown
    ensures var t := Next(Next(Next(Next(s, Block), Submit), Notify), CheckLoop);
            && !t.pipeline.Submitting? && !t.shutdown && !t.worker.AtTop? && !t.worker.Checked?
            && !(t.worker.Blocked? && t.pending.Some?)
  {
    PhaseStep(s, Block);
    var s1 := Next(s, Block);
    PhaseStep(s1, Submit);
    var s2 := Next(s1, Submit);
    assert !s2.pipeline.Submitting? && !s2.worker.Checked? && !s2.shutdown && OnePhase(s2);
    var s3 := Next(s2, Notify);
    assert !s3.pipeline.Submitting? && !s3.worker.Checked? && !s3.shutdown;
    assert !(s3.worker.Blocked? && s3.pending.Some?);
  }

  /** A frame on its way gets into the worker's hands. */
  lemma FrameIsTaken(s: State)
    requires Valid(s) && !s.shutdown
    ensures var t := Next(Next(Next(Next(Next(s, Block), Submit), Notify), CheckLoop), Look);
            Valid(t) && (t.running ==> Holding(t))
  {
    FrameIsStored(s);
    var s1 := Next(s, Block);
    var s2 := Next(s1, Submit);
    var s3 := Next(s2, Notify);
    var s4 := Next(s3, CheckLoop);
    assert Valid(s4) && Valid(Next(s4, Look)) by {
      hide Valid, Next;
      StepKeepsValid(s, Block);
      StepKeepsValid(s1, Submit);
      StepKeepsValid(s2, Notify);
      StepKeepsValid(s3, CheckLoop);
      StepKeepsValid(s4, Look);
    }
    LookTakes(s4);
  }

  lemma LookTakes(s: State)
    requires Valid(s) && !s.pipeline.Submitting? && !s.shutdown && !s.worker.AtTop? && !s.worker.Checked?
    requires !(s.worker.Blocked? && s.pending.Some?)
    ensures Next(s, Look).running ==> Holding(Next(s, Look))
  {
    assert OnePhase(s);
    hide HandedOver, InOrder, SubmittedInOrder, ResultTaken, AttachedInOrder, Sparse, Attachments, Frames;
  }

  /** Before shutdown the stage can always come to rest, with every submitted frame inferred: nothing is stuck. */
  lemma CanAlwaysFinish(skip: int, steps: seq<Step>)
    requires !Execute(Initial(skip), steps).shutdown
    ensures var t := Execute(Execute(Initial(skip), steps), Finish()); !t.running && t.ended == Frames(t.submitted)
  {
    RunInvariant(skip, steps);
    var s := Execute(Initial(skip), steps);
    FrameIsTaken(s);
    ExecuteFour(s, Block, Submit, Notify, CheckLoop, [Look, Infer(false), Clear, CheckLoop]);
    var s4 := Next(Next(Next(Next(s, Block), Submit), Notify), CheckLoop);
    assert [Look, Infer(false), Clear, CheckLoop] + [] == [Look, Infer(false), Clear, CheckLoop];
    ExecuteFour(s4, Look, Infer(false), Clear, CheckLoop, []);
    var t := Next(Next(Next(Next(s4, Look), Infer(false)), Clear), CheckLoop);
    assert Execute(t, []) == t;
    hide Execute;
    RestingHandedOver(Next(s4, Look));
  }

  lemma RestingHandedOver(s: State)
    requires Valid(s) && (s.running ==> Holding(s))
    ensures var t := Next(Next(Next(s, Infer(false)), Clear), CheckLoop); !t.running && t.ended == Frames(t.submitted)
  {
    StepKeepsValid(s, Infer(false));
    StepKeepsValid(Next(s, Infer(false)), Clear);
    hide InOrder, SubmittedInOrder, ResultTaken, AttachedInOrder, Sparse, Attachments, Frames;
  }

  // ---------- shutdown ----------

  lemma TakesNothing(s: State, step: Step)
    requires s.shutdown
    ensures Next(s, step).shutdown && Next(s, step).taken == s.taken
  {
  }

  /** Once the shutdown flag is set the worker takes no frame: one that is still pending is never inferred. */
  lemma {:induction false} NothingTakenAfterShutdown(s: State, steps: seq<Step>)
    requires s.shutdown
    ensures Execute(s, steps).shutdown && Execute(s, steps).taken == s.taken
    decreases |steps|
  {
    hide Next;
    if steps != [] {
      NothingTakenAfterShutdown(s, steps[..|steps| - 1]);
      TakesNothing(Execute(s, steps[..|steps| - 1]), steps[|steps| - 1]);
    }
  }

  /** A frame in the worker's hands can be finished. */
  lemma InHandEnds(s: State)
    requires Holding(s)
    ensures s.worker.frame in Execute(s, [Infer(false), Clear]).ended
  {
    var t := Next(s, Infer(false));
    var u := Next(t, Clear);
    assert s.worker.frame in u.ended;
    hide Next;
    ExecuteCons(s, [Infer(false), Clear]);
    assert [Infer(false), Clear][1..] == [Clear] && [Clear][1..] == [];
    ExecuteCons(t, [Clear]);
    assert Execute(u, []) == u;
  }

  /** After shutdown a frame can still be inferred exactly when the worker had taken it by then. */
  lemma InferredAfterShutdownIff(skip: int, steps: seq<Step>, f: nat)
    requires Execute(Initial(skip), steps).shutdown
    ensures var s := Execute(Initial(skip), steps); (exists more :: f in Execute(s, more).ended) <==> f in s.taken
  {
    var s := Execute(Initial(skip), steps);
    RunInvariant(skip, steps);
    forall more | f in Execute(s, more).ended ensures f in s.taken {
      ExecuteAppend(Initial(skip), steps, more);
      RunInvariant(skip, steps + more);
      NothingTakenAfterShutdown(s, more);
      hide Execute, Frames, OnePhase, InOrder, SubmittedInOrder, ResultTaken, AttachedInOrder, Sparse;
    }
    if f in s.taken {
      var more := TakenEnds(s, f);
      assert f in Execute(s, more).ended;
    }
  }

  /** What the worker took has ended or can be brought to its end. */
  lemma TakenEnds(s: State, f: nat) returns (more: seq<Step>)
    requires HandedOver(s) && f in s.taken
    ensures f in Execute(s, more).ended
  {
    if f in s.ended {
      more := [];
    } else {
      assert f in InHand(s);
      InHandEnds(s);
      more := [Infer(false), Clear];
    }
  }

  /** A run that loses a frame: it is submitted, the flag is set before the worker looks, and it is never inferred. */
  lemma PendingFrameIsLost(skip: int) returns (steps: seq<Step>)
    requires skip <= 0
    ensures
      var s := Execute(Initial(skip), steps);
      && s.shutdown && s.pending == Some(0) && Frames(s.submitted) == [0] && s.taken == []
      && forall more :: 0 !in Execute(s, more).ended
  {
    steps := [Arrive(true), Attach, Claim, Submit, SetShutdown];
    var s := Execute(Initial(skip), steps);
    SubmitThenShutdown(skip);
    forall more ensures 0 !in Execute(s, more).ended {
      InferredAfterShutdownIff(skip, steps, 0);
    }
  }

  lemma SubmitThenShutdown(skip: int)
    requires skip <= 0
    ensures
      var s := Execute(Initial(skip), [Arrive(true), Attach, Claim, Submit, SetShutdown]);
      s.shutdown && s.pending == Some(0) && Frames(s.submitted) == [0] && s.taken == []
  {
    var s := Submitted(skip);
    var t := s.(shutdown := true);
    assert Next(s, SetShutdown) == t;
    hide Next;
    assert [Arrive(true), Attach, Claim, Submit] + [SetShutdown] == [Arrive(true), Attach, Claim, Submit, SetShutdown];
    ExecuteFour(Initial(skip), Arrive(true), Attach, Claim, Submit, [SetShutdown]);
    ExecuteCons(s, [SetShutdown]);
    assert [SetShutdown][1..] == [] && Execute(t, []) == t;
  }

  // ---------- the engine ----------

  /** The worker has been joined, or was never started. */
  predicate Joined(s: State) {
    s.notified && (s.worker.NotStarted? || s.worker.Exited?)
  }

  lemma JoinedStep(s: State, step: Step)
    requires !s.engine ==> Joined(s)
    ensures !Next(s, step).engine ==> Joined(Next(s, step))
  {
  }

  /** On every interleaving the engine is dropped only after the worker was joined, so no inference is without one. */
  lemma {:induction false} EngineOutlivesWorker(skip: int, steps: seq<Step>)
    ensures var s := Execute(Initial(skip), steps); !s.engine ==> Joined(s) && !Holding(s)
    decreases |steps|
  {
    hide Next;
    if steps != [] {
      var n := |steps| - 1;
      EngineOutlivesWorker(skip, steps[..n]);
      JoinedStep(Execute(Initial(skip), steps[..n]), steps[n]);
    }
  }

  /** Shut down and empty, or passing a frame through untouched. */
  predicate Down(s: State) {
    !s.engine && (s.pipeline.Ready? || (s.pipeline.Passing? && s.pipeline.attached == None))
  }

  lemma DownStep(s: State, step: Step)
    requires Down(s)
    ensures var t := Next(s, step);
            Down(t) && t.submitted == s.submitted
            && (t.outputs == s.outputs || (|t.outputs| == |s.outputs| + 1 && t.outputs[..|s.outputs|] == s.outputs
                                           && t.outputs[|s.outputs|].attached == None))
  {
  }

  /** Once shutdown has dropped the engine, whatever happens, frames pass without a result and none is submitted. */
  lemma {:induction false} PassesThroughOnceDown(s: State, more: seq<Step>)
    requires Joined(s) && s.pipeline.Ready?
    ensures
      var t := Execute(Next(s, DropEngine), more);
      && Down(t) && t.submitted == s.submitted && |s.outputs| <= |t.outputs|
      && forall i :: |s.outputs| <= i < |t.outputs| ==> t.outputs[i].attached == None
    decreases |more|
  {
    DropStep(s);
    hide Next, Joined, Down;
    if more != [] {
      var n := |more| - 1;
      PassesThroughOnceDown(s, more[..n]);
      DownStep(Execute(Next(s, DropEngine), more[..n]), more[n]);
    }
  }

  lemma DropStep(s: State)
    requires Joined(s) && s.pipeline.Ready?
    ensures var t := Next(s, DropEngine); Down(t) && t.submitted == s.submitted && t.outputs == s.outputs
  {
  }

  // ---------- whether shutdown ends ----------

  /** No new frame, and no wake-up without a notification. */
  predicate Quiet(steps: seq<Step>) {
    forall i :: 0 <= i < |steps| ==> !steps[i].Arrive? && !steps[i].WakeUp?
  }

  /** Asleep, or falling asleep, with every notification used up. */
  predicate Stuck(s: State) {
    s.notified && s.pipeline.Ready? && (s.worker.Checked? || s.worker.Blocked?)
  }

  lemma StuckStep(s: State, step: Step)
    requires Stuck(s) && !step.Arrive? && !step.WakeUp?
    ensures Stuck(Next(s, step))
  {
  }

  lemma {:induction false} StuckStays(s: State, steps: seq<Step>)
    requires Stuck(s) && Quiet(steps)
    ensures Stuck(Execute(s, steps))
    decreases |steps|
  {
    hide Next, Stuck;
    if steps != [] {
      var n := |steps| - 1;
      assert Quiet(steps[..n]);
      StuckStays(s, steps[..n]);
      StuckStep(Execute(s, steps[..n]), steps[n]);
    }
  }

  /**
    * With the pipeline thread gone, the worker can leave its loop after the notification of a shutdown, so that the
    * join returns, exactly when it was not just then between looking and falling asleep.
    */
  lemma ShutdownEndsIff(s: State)
    requires s.shutdown && !s.notified && s.pipeline.Ready? && !s.worker.NotStarted?
    ensures (exists more :: Quiet(more) && Execute(Next(s, NotifyShutdown), more).worker.Exited?)
            <==> !s.worker.Checked?
  {
    var t := Next(s, NotifyShutdown);
    if s.worker.Checked? {
      forall more | Quiet(more) ensures !Execute(t, more).worker.Exited? {
        StuckStays(t, more);
        hide Execute;
      }
    } else {
      var more := [Infer(false), Clear, CheckLoop, Look];
      LeavesLoop(t);
      assert more + [] == more;
      ExecuteFour(t, Infer(false), Clear, CheckLoop, Look, []);
      var u := Next(Next(Next(Next(t, Infer(false)), Clear), CheckLoop), Look);
      assert Execute(u, []) == u;
      assert Quiet(more) && Execute(t, more).worker.Exited?;
    }
  }

  lemma LeavesLoop(s: State)
    requires s.shutdown && !s.worker.NotStarted? && !s.worker.Checked? && !s.worker.Blocked?
    ensures Next(Next(Next(Next(s, Infer(false)), Clear), CheckLoop), Look).worker.Exited?
  {
  }

  /** A run, for any number of frames to skip, in which shutdown falls into that gap and its join never returns. */
  lemma ShutdownCanHang(skip: int) returns (steps: seq<Step>)
    ensures
      var s := Execute(Initial(skip), steps);
      && Stuck(s) && forall more :: Quiet(more) ==> !Execute(s, more).worker.Exited?
  {
    var lost := [SetShutdown, NotifyShutdown];
    var before, s := LookInVain(skip);
    steps := before + lost;
    ExecuteAppend(Initial(skip), before, lost);
    var t := s.(shutdown := true, notified := true);
    assert Next(Next(s, SetShutdown), NotifyShutdown) == t;
    hide Next;
    ExecuteCons(s, lost);
    ExecuteCons(Next(s, SetShutdown), [NotifyShutdown]);
    assert lost[1..] == [NotifyShutdown] && [NotifyShutdown][1..] == [] && Execute(t, []) == t;
    forall more | Quiet(more) ensures !Execute(t, more).worker.Exited? {
      StuckStays(t, more);
    }
  }

  /** A frame has gone through and the worker has looked for the next one and found none. */
  lemma LookInVain(skip: int) returns (steps: seq<Step>, s: State)
    ensures s == Execute(Initial(skip), steps) && s.pipeline.Ready? && s.worker.Checked? && !s.shutdown && !s.notified
  {
    if Due(skip, 1) {
      steps, s := LookAfterInference(skip);
    } else {
      steps, s := LookAfterSkip(skip);
    }
  }

  lemma TwoRounds(s: State, a: Step, b: Step, c: Step, d: Step, e: Step, f: Step, g: Step, h: Step)
    ensures Execute(s, [a, b, c, d] + [e, f, g, h]) ==
            Next(Next(Next(Next(Next(Next(Next(Next(s, a), b), c), d), e), f), g), h)
  {
    hide Next;
    var t := Next(Next(Next(Next(s, a), b), c), d);
    var u := Next(Next(Next(Next(t, e), f), g), h);
    assert Execute(u, []) == u;
    hide Execute;
    ExecuteFour(s, a, b, c, d, [e, f, g, h]);
    ExecuteFour(t, e, f, g, h, []);
    assert [e, f, g, h] + [] == [e, f, g, h];
  }

  lemma LookAfterSkip(skip: int) returns (steps: seq<Step>, s: State)
    requires !Due(skip, 1)
    ensures s == Execute(Initial(skip), steps) && s.pipeline.Ready? && s.worker.Checked? && !s.shutdown && !s.notified
  {
    steps := [Arrive(true), Attach, Claim, Pass] + [CheckLoop, Look, Look, Look];
    var i := Initial(skip);
    TwoRounds(i, Arrive(true), Attach, Claim, Pass, CheckLoop, Look, Look, Look);
    var s1 := i.(arrived := 1, pipeline := Attaching(0), worker := AtTop);
    var s2 := s1.(pipeline := Claiming(0, None));
    var s3 := s2.(counter := 1, pipeline := Passing(0, None));
    var s4 := s3.(pipeline := Ready, outputs := [Output(0, None)]);
    s := s4.(worker := Checked);
    hide Execute, Due;
    assert Next(i, Arrive(true)) == s1 && Next(s1, Attach) == s2;
    assert Next(s2, Claim) == s3;
    assert Next(s3, Pass) == s4;
    assert Next(Next(s4, CheckLoop), Look) == s && Next(s, Look) == s;
  }

  lemma LookAfterInference(skip: int) returns (steps: seq<Step>, s: State)
    requires Due(skip, 1)
    ensures s == Execute(Initial(skip), steps) && s.pipeline.Ready? && s.worker.Checked? && !s.shutdown && !s.notified
  {
    var rest := [Notify, Pass, CheckLoop, Look] + [Infer(false), Clear, CheckLoop, Look];
    steps := [Arrive(true), Attach, Claim, Submit] + rest;
    ExecuteFour(Initial(skip), Arrive(true), Attach, Claim, Submit, rest);
    var s4 := Submitted(skip);
    TwoRounds(s4, Notify, Pass, CheckLoop, Look, Infer(false), Clear, CheckLoop, Look);
    hide Execute, Due;
    var s8 := s4.(pipeline := Ready, outputs := [Output(0, None)], worker := Inferring(0), taken := [0],
                  pending := None);
    TakenBy(s4, s8);
    s := s8.(worker := Checked, ended := [0], running := false);
    EndedBy(s8, s);
  }

  lemma TakenBy(s: State, t: State)
    requires s.pipeline == Notifying(0, None) && s.worker.AtTop? && s.pending == Some(0) && !s.shutdown
    requires s.outputs == [] && s.taken == []
    requires t == s.(pipeline := Ready, outputs := [Output(0, None)], worker := Inferring(0), taken := [0],
                     pending := None)
    ensures Next(Next(Next(Next(s, Notify), Pass), CheckLoop), Look) == t
  {
  }

  lemma EndedBy(s: State, t: State)
    requires s.worker == Inferring(0) && s.pending == None && !s.shutdown && s.ended == []
    requires t == s.(worker := Checked, ended := [0], running := false)
    ensures Next(Next(Next(Next(s, Infer(false)), Clear), CheckLoop), Look) == t
  {
  }

  lemma Submitted(skip: int) returns (s: State)
    requires Due(skip, 1)
    ensures s == Next(Next(Next(Next(Initial(skip), Arrive(true)), Attach), Claim), Submit)
    ensures s == Initial(skip).(arrived := 1, counter := 1, running := true, pending := Some(0), worker := AtTop,
                                pipeline := Notifying(0, None), submitted := [Submission(0, 1)])
  {
    var i := Initial(skip);
    var s1 := i.(arrived := 1, pipeline := Attaching(0), worker := AtTop);
    var s2 := s1.(pipeline := Claiming(0, None));
    var s3 := s2.(counter := 1, running := true, pipeline := Submitting(0, None), submitted := [Submission(0, 1)]);
    s := s3.(pending := Some(0), pipeline := Notifying(0, None));
    assert Next(i, Arrive(true)) == s1 && Next(s1, Attach) == s2;
    assert Next(s2, Claim) == s3;
    assert Next(s3, Submit) == s;
  }
}
