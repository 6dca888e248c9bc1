/**
  * The chain of stage workers (src/core/pipeline/channel_pipeline.cc) as atomic steps of concurrent threads.
  * A queue operation is one step because it holds the queue's lock; a worker that has popped a frame or a batch
  * holds it in `hand` until its stage has dealt with it.
  */
module ChannelPipeline {
  import opened Options
  import opened Sequences
  import opened StageQueue

  datatype Stage = Stage(queue: Queue, hand: seq<Frame>, exited: bool)

  /** `sourced` numbers the frames the source has pushed; `out` lists those that left the last stage. */
  datatype Pipeline = Pipeline(stages: seq<Stage>, running: bool, sourced: nat, out: seq<nat>)

  /** What a stage does with a frame: pass it on, possibly altered but still the same source frame, or keep it. */
  datatype Verdict = Forward(channel: int, key: bool) | Swallow

  /** `abort` in Process: the stage reported failure, which ends the batch in hand. */
  datatype Action =
    | Source(channel: int, key: bool)
    | Pop(i: nat, count: nat)
    | Process(i: nat, verdict: Verdict, abort: bool)
    | Exit(i: nat)
    | SetCapacity(i: nat, limit: nat)
    | ShutdownQueue(i: nat)
    | StopRunning
    | Restart

  predicate Enabled(p: Pipeline, a: Action) {
    match a
    case Source(_, _) => p.stages != []
    case Pop(i, n) =>
      i < |p.stages| && !p.stages[i].exited && p.stages[i].hand == [] && n >= 1
      && (p.running || p.stages[i].queue.items != [])
    case Process(i, _, _) => i < |p.stages| && !p.stages[i].exited && p.stages[i].hand != []
    case Exit(i) =>
      i < |p.stages| && !p.stages[i].exited && p.stages[i].hand == []
      && !p.running && p.stages[i].queue.items == []
    case SetCapacity(i, _) => i < |p.stages|
    case ShutdownQueue(i) => i < |p.stages|
    case StopRunning => true
    case Restart => !p.running && forall i :: 0 <= i < |p.stages| ==> p.stages[i].exited
  }

  function AfterHand(s: Stage, abort: bool): Stage
    requires s.hand != []
  {
    s.(hand := if abort then [] else s.hand[1..])
  }

  function Step(p: Pipeline, a: Action): Pipeline
    requires Enabled(p, a)
  {
    match a
    case Source(channel, key) =>
      var s := p.stages[0];
      p.(stages := p.stages[0 := s.(queue := Pushed(s.queue, Frame(p.sourced, channel, key)).0)],
         sourced := p.sourced + 1)
    case Pop(i, n) =>
      var s := p.stages[i];
      var (q, fs) := Taken(s.queue, n);
      p.(stages := p.stages[i := s.(queue := q, hand := fs)])
    case Process(i, verdict, abort) =>
      var s := p.stages[i];
      var stages := p.stages[i := AfterHand(s, abort)];
      if verdict.Swallow? then p.(stages := stages)
      else if i == |p.stages| - 1 then p.(stages := stages, out := p.out + [s.hand[0].id])
      else
        var next := stages[i + 1];
        var f := Frame(s.hand[0].id, verdict.channel, verdict.key);
        p.(stages := stages[i + 1 := next.(queue := Pushed(next.queue, f).0)])
    case Exit(i) => p.(stages := p.stages[i := p.stages[i].(exited := true)])
    case SetCapacity(i, limit) =>
      p.(stages := p.stages[i := p.stages[i].(queue := p.stages[i].queue.(capacity := limit))])
    case ShutdownQueue(i) =>
      p.(stages := p.stages[i := p.stages[i].(queue := p.stages[i].queue.(shutdown := true))])
    case StopRunning => p.(running := false)
    case Restart =>
      p.(running := true,
         stages := seq(|p.stages|, i requires 0 <= i < |p.stages| => p.stages[i].(exited := false)))
  }

  /** Runs: any interleaving of enabled steps. */
  ghost predicate Reaches(p: Pipeline, actions: seq<Action>, q: Pipeline)
    decreases |actions|
  {
    if actions == [] then p == q
    else Enabled(p, actions[0]) && Reaches(Step(p, actions[0]), actions[1..], q)
  }

  predicate Initial(p: Pipeline) {
    && p.sourced == 0 && p.out == []
    && forall i :: 0 <= i < |p.stages| ==> p.stages[i].queue.items == [] && p.stages[i].hand == []
  }

  // ---------- order ----------

  function Ids(fs: seq<Frame>): (r: seq<nat>)
    ensures |r| == |fs|
  {
    seq(|fs|, i requires 0 <= i < |fs| => fs[i].id)
  }

  /** Frames a stage holds, those in hand ahead of those queued. */
  function Contents(s: Stage): seq<nat> {
    Ids(s.hand) + Ids(s.queue.items)
  }

  /** All frames inside the pipeline, from its end to its beginning. */
  function Line(stages: seq<Stage>): seq<nat> {
    if stages == [] then [] else Line(stages[1..]) + Contents(stages[0])
  }

  function Total(p: Pipeline): seq<nat> {
    p.out + Line(p.stages)
  }

  /** 0, 1, ..., n-1: the order in which the source pushed. */
  function SourceOrder(n: nat): (r: seq<nat>)
    ensures |r| == n
  {
    seq(n, i requires 0 <= i < n => i)
  }

  lemma {:induction false} LineAppend(a: seq<Stage>, b: seq<Stage>)
    ensures Line(a + b) == Line(b) + Line(a)
  {
    if a == [] {
      assert a + b == b;
    } else {
      assert (a + b)[1..] == a[1..] + b;
      LineAppend(a[1..], b);
    }
  }

  lemma LineOne(s: Stage)
    ensures Line([s]) == Contents(s)
  {
    assert [s][1..] == [];
  }

  lemma LineSplit(a: seq<Stage>, s: Stage, b: seq<Stage>)
    ensures Line(a + ([s] + b)) == Line(b) + Contents(s) + Line(a)
  {
    hide Contents, Line;
    LineAppend(a, [s] + b);
    LineAppend([s], b);
    LineOne(s);
  }

  /** The stages before, at and after `i`. */
  lemma LineAt(stages: seq<Stage>, i: nat)
    requires i < |stages|
    ensures Line(stages) == Line(stages[i + 1..]) + Contents(stages[i]) + Line(stages[..i])
  {
    hide *;
    LineSplit(stages[..i], stages[i], stages[i + 1..]);
    SplitAt(stages, i);
  }

  lemma LineUpdate(stages: seq<Stage>, i: nat, s: Stage)
    requires i < |stages| && Subsequence(Contents(s), Contents(stages[i]))
    ensures Subsequence(Line(stages[i := s]), Line(stages))
  {
    hide Contents, Subsequence, Line;
    var next := stages[i := s];
    assert next[i + 1..] == stages[i + 1..] && next[..i] == stages[..i];
    LineAt(stages, i);
    LineAt(next, i);
    SubsequenceRefl(Line(stages[i + 1..]));
    SubsequenceRefl(Line(stages[..i]));
    SubsequenceConcat(Line(next[i + 1..]), Line(stages[i + 1..]), Contents(s), Contents(stages[i]));
    SubsequenceConcat(Line(next[i + 1..]) + Contents(s), Line(stages[i + 1..]) + Contents(stages[i]),
                      Line(next[..i]), Line(stages[..i]));
  }

  lemma IdsAppend(a: seq<Frame>, b: seq<Frame>)
    ensures Ids(a + b) == Ids(a) + Ids(b)
  {
  }

  /** A push keeps what is queued in order, minus at most one frame, with the new frame last or dropped. */
  lemma PushedIds(q: Queue, f: Frame)
    ensures Subsequence(Ids(Pushed(q, f).0.items), Ids(q.items) + [f.id])
  {
    var items := Pushed(q, f).0.items;
    SubsequenceRefl(Ids(q.items));
    SubsequenceEmpty([f.id]);
    SubsequenceRefl([f.id]);
    hide Victim, Subsequence, Embeds;
    if items == q.items {
      SubsequenceConcat(Ids(q.items), Ids(q.items), [], [f.id]);
      assert Ids(q.items) + [] == Ids(q.items);
    } else if items == q.items + [f] {
      IdsAppend(q.items, [f]);
      assert Ids([f]) == [f.id];
      SubsequenceRefl(Ids(q.items) + [f.id]);
    } else {
      var v := Victim(q.items, f.channel);
      IdsAppend(Without(q.items, v), [f]);
      assert Ids([f]) == [f.id];
      assert Ids(Without(q.items, v)) == Without(Ids(q.items), v);
      SubsequenceRemove(Ids(q.items), v);
      SubsequenceConcat(Without(Ids(q.items), v), Ids(q.items), [f.id], [f.id]);
    }
  }

  lemma PushedContents(s: Stage, f: Frame)
    ensures Subsequence(Contents(s.(queue := Pushed(s.queue, f).0)), Contents(s) + [f.id])
  {
    PushedIds(s.queue, f);
    SubsequenceRefl(Ids(s.hand));
    hide Subsequence, Pushed, Ids;
    SubsequenceConcat(Ids(s.hand), Ids(s.hand), Ids(Pushed(s.queue, f).0.items), Ids(s.queue.items) + [f.id]);
    assert Ids(s.hand) + (Ids(s.queue.items) + [f.id]) == Contents(s) + [f.id];
  }

  lemma TakenContents(s: Stage, n: nat)
    requires s.hand == []
    ensures Contents(s.(queue := Taken(s.queue, n).0, hand := Taken(s.queue, n).1)) == Contents(s)
  {
    IdsAppend(Taken(s.queue, n).1, Taken(s.queue, n).0.items);
    assert Taken(s.queue, n).1 + Taken(s.queue, n).0.items == s.queue.items;
    assert Ids(s.hand) == [];
  }

  lemma HandContents(s: Stage)
    requires s.hand != []
    ensures Contents(s) == [s.hand[0].id] + Ids(s.hand[1..]) + Ids(s.queue.items)
  {
    assert s.hand == [s.hand[0]] + s.hand[1..];
    IdsAppend([s.hand[0]], s.hand[1..]);
    assert Ids([s.hand[0]]) == [s.hand[0].id];
  }

  lemma AfterHandIds(s: Stage, abort: bool)
    requires s.hand != []
    ensures Subsequence(Ids(AfterHand(s, abort).hand), Ids(s.hand[1..]))
    ensures Contents(AfterHand(s, abort)) == Ids(AfterHand(s, abort).hand) + Ids(s.queue.items)
  {
    hide Subsequence;
    if abort {
      assert Ids(AfterHand(s, abort).hand) == [];
      SubsequenceEmpty(Ids(s.hand[1..]));
    } else {
      SubsequenceRefl(Ids(s.hand[1..]));
    }
  }

  /** What is left after dropping the frame just processed, or the whole hand. */
  lemma AfterHandContents(s: Stage, abort: bool)
    requires s.hand != []
    ensures Subsequence([s.hand[0].id] + Contents(AfterHand(s, abort)), Contents(s))
  {
    hide Subsequence, Ids, Contents, AfterHand;
    HandContents(s);
    AfterHandIds(s, abort);
    SubsequenceWrap([s.hand[0].id], Ids(AfterHand(s, abort).hand), Ids(s.hand[1..]), Ids(s.queue.items));
    assert [s.hand[0].id] + (Ids(AfterHand(s, abort).hand) + Ids(s.queue.items)) ==
           [s.hand[0].id] + Ids(AfterHand(s, abort).hand) + Ids(s.queue.items);
  }

  /** Shrinking the middle shrinks the whole. */
  lemma SubsequenceWrap<T>(head: seq<T>, a: seq<T>, b: seq<T>, tail: seq<T>)
    requires Subsequence(a, b)
    ensures Subsequence(head + a + tail, head + b + tail)
  {
    hide Subsequence;
    SubsequenceRefl(head);
    SubsequenceRefl(tail);
    SubsequenceConcat(head, head, a, b);
    SubsequenceConcat(head + a, head + b, tail, tail);
  }

  lemma DropFirst<T>(x: T, a: seq<T>, b: seq<T>)
    requires Subsequence([x] + a, b)
    ensures Subsequence(a, b)
  {
    SubsequenceEmpty([x]);
    SubsequenceRefl(a);
    SubsequenceConcat([], [x], a, a);
    assert [] + a == a;
    SubsequenceTrans(a, [x] + a, b);
  }

  lemma HandOver(t: seq<nat>, t': seq<nat>, id: nat, s: seq<nat>, s': seq<nat>)
    requires Subsequence(t', t + [id]) && Subsequence([id] + s', s)
    ensures Subsequence(t' + s', t + s)
  {
    hide Subsequence;
    SubsequenceRefl(s');
    SubsequenceConcat(t', t + [id], s', s');
    SubsequenceRefl(t);
    SubsequenceConcat(t, t, [id] + s', s);
    assert t + [id] + s' == t + ([id] + s');
    SubsequenceTrans(t' + s', t + [id] + s', t + s);
  }

  /** Handing a frame from stage `i` to the queue of stage `i + 1`. */
  lemma ForwardLine(stages: seq<Stage>, i: nat, f: Frame, abort: bool)
    requires i + 1 < |stages| && stages[i].hand != [] && f.id == stages[i].hand[0].id
    ensures
      var next := stages[i + 1].(queue := Pushed(stages[i + 1].queue, f).0);
      Subsequence(Line(stages[i := AfterHand(stages[i], abort)][i + 1 := next]), Line(stages))
  {
    hide Contents, Line, Subsequence, AfterHand, Pushed;
    var s, t := stages[i], stages[i + 1];
    var s', t' := AfterHand(s, abort), t.(queue := Pushed(t.queue, f).0);
    var after := stages[i := s'][i + 1 := t'];
    PushedContents(t, f);
    AfterHandContents(s, abort);
    HandOver(Contents(t), Contents(t'), f.id, Contents(s), Contents(s'));
    TwoStages(stages, i);
    TwoStages(after, i);
    assert after[..i] == stages[..i] && after[i + 2..] == stages[i + 2..];
    SubsequenceWrap(Line(stages[i + 2..]), Contents(t') + Contents(s'), Contents(t) + Contents(s), Line(stages[..i]));
  }

  lemma TwoStages(stages: seq<Stage>, i: nat)
    requires i + 1 < |stages|
    ensures Line(stages) ==
            Line(stages[i + 2..]) + (Contents(stages[i + 1]) + Contents(stages[i])) + Line(stages[..i])
  {
    hide *;
    var rest := stages[i + 1..];
    LineAt(stages, i);
    LineAt(rest, 0);
    assert rest[1..] == stages[i + 2..] && rest[..0] == [];
    LineNil();
    var a, b, c, d := Line(stages[i + 2..]), Contents(stages[i + 1]), Contents(stages[i]), Line(stages[..i]);
    assert a + b + [] == a + b;
    assert (a + b) + c == a + (b + c);
  }

  lemma LineNil()
    ensures Line([]) == []
  {
  }

  /** The last stage letting a frame out. */
  lemma LeaveLine(out: seq<nat>, stages: seq<Stage>, abort: bool)
    requires stages != [] && stages[|stages| - 1].hand != []
    ensures
      var last := |stages| - 1;
      Subsequence(out + [stages[last].hand[0].id] + Line(stages[last := AfterHand(stages[last], abort)]),
                  out + Line(stages))
  {
    hide Contents, Line, Subsequence, AfterHand;
    var last := |stages| - 1;
    var s := stages[last];
    var s', id := AfterHand(s, abort), s.hand[0].id;
    var after := stages[last := s'];
    LineAt(stages, last);
    LineAt(after, last);
    AfterHandContents(s, abort);
    LineNil();
    assert after[..last] == stages[..last] && stages[last + 1..] == [] == after[last + 1..];
    var tail := Line(stages[..last]);
    SubsequenceWrap(out, [id] + Contents(s'), Contents(s), tail);
    assert Line(after) == Contents(s') + tail && Line(stages) == Contents(s) + tail;
    assert out + [id] + (Contents(s') + tail) == out + ([id] + Contents(s')) + tail;
    assert out + (Contents(s) + tail) == out + Contents(s) + tail;
  }

  lemma UpdateTotal(p: Pipeline, i: nat, s: Stage)
    requires i < |p.stages| && Subsequence(Contents(s), Contents(p.stages[i]))
    ensures Subsequence(p.out + Line(p.stages[i := s]), Total(p))
  {
    LineUpdate(p.stages, i, s);
    SubsequenceRefl(p.out);
    hide Subsequence, Line, Contents;
    SubsequenceConcat(p.out, p.out, Line(p.stages[i := s]), Line(p.stages));
  }

  lemma SourceTotal(p: Pipeline, f: Frame)
    requires p.stages != []
    ensures
      var s := p.stages[0];
      Subsequence(p.out + Line(p.stages[0 := s.(queue := Pushed(s.queue, f).0)]), Total(p) + [f.id])
  {
    hide Contents, Line, Subsequence, Pushed;
    var s := p.stages[0];
    var s' := s.(queue := Pushed(s.queue, f).0);
    var after := p.stages[0 := s'];
    LineAt(p.stages, 0);
    LineAt(after, 0);
    LineNil();
    assert after[1..] == p.stages[1..] && after[..0] == [] == p.stages[..0];
    PushedContents(s, f);
    var rest := Line(p.stages[1..]);
    SubsequenceWrap(p.out + rest, Contents(s'), Contents(s) + [f.id], []);
    assert Line(after) == rest + Contents(s') && Line(p.stages) == rest + Contents(s);
    assert p.out + (rest + Contents(s')) == p.out + rest + Contents(s') + [];
    assert p.out + (rest + Contents(s)) + [f.id] == p.out + rest + (Contents(s) + [f.id]) + [];
  }

  lemma {:induction false} RestartLine(stages: seq<Stage>, after: seq<Stage>)
    requires |after| == |stages|
    requires forall i :: 0 <= i < |stages| ==> Contents(after[i]) == Contents(stages[i])
    ensures Line(after) == Line(stages)
  {
    if stages != [] {
      assert forall i :: 0 <= i < |stages| - 1 ==> after[1..][i] == after[i + 1] && stages[1..][i] == stages[i + 1];
      RestartLine(stages[1..], after[1..]);
    }
  }

  /** No step reorders, repeats or invents a frame; only the source adds one, at the end of the line. */
  lemma StepTotal(p: Pipeline, a: Action)
    requires Enabled(p, a)
    ensures Subsequence(Total(Step(p, a)), Total(p) + (if a.Source? then [p.sourced] else []))
  {
    assert Total(p) + [] == Total(p);
    match a {
      case Source(channel, key) => SourceTotal(p, Frame(p.sourced, channel, key));
      case Pop(i, n) =>
        TakenContents(p.stages[i], n);
        SubsequenceRefl(Contents(p.stages[i]));
        UpdateTotal(p, i, p.stages[i].(queue := Taken(p.stages[i].queue, n).0, hand := Taken(p.stages[i].queue, n).1));
      case Process(i, verdict, abort) => ProcessTotal(p, i, verdict, abort);
      case Exit(i) => SameContents(p, i, p.stages[i].(exited := true));
      case SetCapacity(i, limit) =>
        SameContents(p, i, p.stages[i].(queue := p.stages[i].queue.(capacity := limit)));
      case ShutdownQueue(i) => SameContents(p, i, p.stages[i].(queue := p.stages[i].queue.(shutdown := true)));
      case StopRunning => SubsequenceRefl(Total(p));
      case Restart =>
        RestartLine(p.stages, Step(p, a).stages);
        SubsequenceRefl(Total(p));
    }
  }

  lemma SameContents(p: Pipeline, i: nat, s: Stage)
    requires i < |p.stages| && s.hand == p.stages[i].hand && s.queue.items == p.stages[i].queue.items
    ensures Subsequence(p.out + Line(p.stages[i := s]), Total(p))
  {
    SubsequenceRefl(Contents(s));
    UpdateTotal(p, i, s);
  }

  lemma ProcessTotal(p: Pipeline, i: nat, verdict: Verdict, abort: bool)
    requires Enabled(p, Process(i, verdict, abort))
    ensures Subsequence(Total(Step(p, Process(i, verdict, abort))), Total(p))
  {
    var s := p.stages[i];
    if verdict.Swallow? {
      AfterHandContents(s, abort);
      DropFirst(s.hand[0].id, Contents(AfterHand(s, abort)), Contents(s));
      UpdateTotal(p, i, AfterHand(s, abort));
    } else if i == |p.stages| - 1 {
      LeaveLine(p.out, p.stages, abort);
    } else {
      ForwardLine(p.stages, i, Frame(s.hand[0].id, verdict.channel, verdict.key), abort);
      SubsequenceRefl(p.out);
      SubsequenceConcat(p.out, p.out, Line(Step(p, Process(i, verdict, abort)).stages), Line(p.stages));
    }
  }

  /**
    * Every interleaving: the frames that have left, followed by those inside from end to beginning, are a
    * subsequence of the source order.
    */
  lemma {:induction false} RunKeepsOrder(p: Pipeline, actions: seq<Action>, q: Pipeline)
    requires Reaches(p, actions, q) && Subsequence(Total(p), SourceOrder(p.sourced))
    ensures Subsequence(Total(q), SourceOrder(q.sourced))
    decreases |actions|
  {
    hide Total, Subsequence;
    if actions != [] {
      var a := actions[0];
      StepTotal(p, a);
      var grown := if a.Source? then [p.sourced] else [];
      SubsequenceRefl(grown);
      SubsequenceConcat(Total(p), SourceOrder(p.sourced), grown, grown);
      SubsequenceTrans(Total(Step(p, a)), Total(p) + grown, SourceOrder(p.sourced) + grown);
      assert SourceOrder(p.sourced) + grown == SourceOrder(Step(p, a).sourced);
      RunKeepsOrder(Step(p, a), actions[1..], q);
    }
  }

  /** From a fresh pipeline: frames leave in source order, each at most once. */
  lemma FramesLeaveInOrder(p: Pipeline, actions: seq<Action>, q: Pipeline)
    requires Initial(p) && Reaches(p, actions, q)
    ensures Subsequence(q.out, SourceOrder(q.sourced))
    ensures forall i, j :: 0 <= i < j < |q.out| ==> q.out[i] < q.out[j] < q.sourced
  {
    EmptyLine(p.stages);
    SubsequenceRefl(Total(p));
    assert Total(p) == SourceOrder(0);
    RunKeepsOrder(p, actions, q);
    SubsequenceEmpty(Line(q.stages));
    SubsequenceRefl(q.out);
    SubsequenceConcat(q.out, q.out, [], Line(q.stages));
    assert q.out + [] == q.out;
    SubsequenceTrans(q.out, Total(q), SourceOrder(q.sourced));
    var idx :| Embeds(q.out, SourceOrder(q.sourced), idx);
  }

  lemma {:induction false} EmptyLine(stages: seq<Stage>)
    requires forall i :: 0 <= i < |stages| ==> stages[i].queue.items == [] && stages[i].hand == []
    ensures Line(stages) == []
  {
    if stages != [] {
      EmptyLine(stages[1..]);
      assert Contents(stages[0]) == [];
    }
  }

  // ---------- conservation ----------

  /** The frames a stage accounts for: in hand, queued, or dropped and counted by its queue. */
  function Held(s: Stage): nat {
    |s.hand| + |s.queue.items| + s.queue.dropped
  }

  function HeldByAll(stages: seq<Stage>): nat {
    if stages == [] then 0 else Held(stages[0]) + HeldByAll(stages[1..])
  }

  function DroppedByAll(stages: seq<Stage>): nat {
    if stages == [] then 0 else stages[0].queue.dropped + DroppedByAll(stages[1..])
  }

  /** Frames that vanish uncounted: kept by a stage, left over from an aborted batch, or pushed to a queue shut down. */
  function Lost(p: Pipeline, a: Action): nat
    requires Enabled(p, a)
  {
    match a
    case Source(_, _) => if p.stages[0].queue.shutdown then 1 else 0
    case Process(i, verdict, abort) =>
      (if verdict.Swallow? || (i < |p.stages| - 1 && p.stages[i + 1].queue.shutdown) then 1 else 0)
      + (if abort then |p.stages[i].hand| - 1 else 0)
    case _ => 0
  }

  function LostOnRun(p: Pipeline, actions: seq<Action>): nat
    decreases |actions|
  {
    if actions == [] || !Enabled(p, actions[0]) then 0
    else Lost(p, actions[0]) + LostOnRun(Step(p, actions[0]), actions[1..])
  }

  lemma {:induction false} HeldUpdate(stages: seq<Stage>, i: nat, s: Stage)
    requires i < |stages|
    ensures HeldByAll(stages[i := s]) == HeldByAll(stages) - Held(stages[i]) + Held(s)
  {
    hide Held;
    if i == 0 {
      assert stages[0 := s][1..] == stages[1..];
    } else {
      assert stages[i := s][1..] == stages[1..][i - 1 := s];
      HeldUpdate(stages[1..], i - 1, s);
    }
  }

  lemma {:induction false} HeldSame(stages: seq<Stage>, after: seq<Stage>)
    requires |after| == |stages| && forall i :: 0 <= i < |stages| ==> Held(after[i]) == Held(stages[i])
    ensures HeldByAll(after) == HeldByAll(stages)
  {
    hide Held;
    if stages != [] {
      assert forall i :: 0 <= i < |stages| - 1 ==> after[1..][i] == after[i + 1] && stages[1..][i] == stages[i + 1];
      HeldSame(stages[1..], after[1..]);
    }
  }

  /** A push leaves one more frame to account for, unless the queue is shut. */
  lemma PushedHeld(s: Stage, f: Frame)
    ensures Held(s.(queue := Pushed(s.queue, f).0)) == Held(s) + (if s.queue.shutdown then 0 else 1)
  {
    hide Victim;
  }

  predicate Balanced(p: Pipeline, a: Action)
    requires Enabled(p, a)
  {
    var q := Step(p, a);
    |q.out| + HeldByAll(q.stages) + Lost(p, a) == |p.out| + HeldByAll(p.stages) + (if a.Source? then 1 else 0)
    && q.sourced == p.sourced + (if a.Source? then 1 else 0)
  }

  lemma ProcessBalances(p: Pipeline, i: nat, verdict: Verdict, abort: bool)
    requires Enabled(p, Process(i, verdict, abort))
    ensures Balanced(p, Process(i, verdict, abort))
  {
    hide Pushed, HeldByAll;
    var s := p.stages[i];
    var stages := p.stages[i := AfterHand(s, abort)];
    HeldUpdate(p.stages, i, AfterHand(s, abort));
    if verdict.Forward? && i < |p.stages| - 1 {
      var next, f := stages[i + 1], Frame(s.hand[0].id, verdict.channel, verdict.key);
      HeldUpdate(stages, i + 1, next.(queue := Pushed(next.queue, f).0));
      PushedHeld(next, f);
    }
  }

  /** Every step accounts for every frame. */
  lemma StepConserves(p: Pipeline, a: Action)
    requires Enabled(p, a)
    ensures Balanced(p, a)
  {
    hide Pushed, HeldByAll;
    match a {
      case Source(channel, key) =>
        var s, f := p.stages[0], Frame(p.sourced, channel, key);
        HeldUpdate(p.stages, 0, s.(queue := Pushed(s.queue, f).0));
        PushedHeld(s, f);
      case Process(i, verdict, abort) => ProcessBalances(p, i, verdict, abort);
      case Pop(i, n) =>
        var s := p.stages[i];
        HeldUpdate(p.stages, i, s.(queue := Taken(s.queue, n).0, hand := Taken(s.queue, n).1));
      case Exit(i) => HeldUpdate(p.stages, i, p.stages[i].(exited := true));
      case SetCapacity(i, limit) =>
        HeldUpdate(p.stages, i, p.stages[i].(queue := p.stages[i].queue.(capacity := limit)));
      case ShutdownQueue(i) =>
        HeldUpdate(p.stages, i, p.stages[i].(queue := p.stages[i].queue.(shutdown := true)));
      case StopRunning =>
      case Restart => HeldSame(p.stages, Step(p, a).stages);
    }
  }

  lemma {:induction false} RunConserves(p: Pipeline, actions: seq<Action>, q: Pipeline)
    requires Reaches(p, actions, q)
    ensures |q.out| + HeldByAll(q.stages) + LostOnRun(p, actions) + p.sourced ==
            |p.out| + HeldByAll(p.stages) + q.sourced
    decreases |actions|
  {
    if actions != [] {
      StepConserves(p, actions[0]);
      RunConserves(Step(p, actions[0]), actions[1..], q);
      hide Step, HeldByAll, Lost;
    }
  }

  lemma {:induction false} HeldIsLine(stages: seq<Stage>)
    ensures HeldByAll(stages) == |Line(stages)| + DroppedByAll(stages)
  {
    if stages != [] {
      HeldIsLine(stages[1..]);
    }
  }

  lemma {:induction false} NothingHeld(stages: seq<Stage>)
    requires forall i :: 0 <= i < |stages| ==> stages[i].queue.items == [] && stages[i].hand == []
    requires forall i :: 0 <= i < |stages| ==> stages[i].queue.dropped == 0
    ensures HeldByAll(stages) == 0
  {
    if stages != [] {
      NothingHeld(stages[1..]);
    }
  }

  /**
    * From a fresh pipeline, on every interleaving: each frame of the source has left, is inside, was dropped and
    * counted by a queue, or was lost in one of the three uncounted ways. If none was dropped or lost, the frames that
    * have left and those inside are the source's frames, all of them and in order.
    */
  lemma FramesConserved(p: Pipeline, actions: seq<Action>, q: Pipeline)
    requires Initial(p) && Reaches(p, actions, q)
    requires forall i :: 0 <= i < |p.stages| ==> p.stages[i].queue.dropped == 0
    ensures q.sourced == |q.out| + |Line(q.stages)| + DroppedByAll(q.stages) + LostOnRun(p, actions)
    ensures DroppedByAll(q.stages) == 0 && LostOnRun(p, actions) == 0 ==> Total(q) == SourceOrder(q.sourced)
  {
    RunConserves(p, actions, q);
    NothingHeld(p.stages);
    HeldIsLine(q.stages);
    EmptyLine(p.stages);
    SubsequenceRefl(Total(p));
    assert Total(p) == SourceOrder(0);
    RunKeepsOrder(p, actions, q);
    hide Reaches, Line, HeldByAll, DroppedByAll, LostOnRun, Subsequence;
    if |Total(q)| == q.sourced {
      SubsequenceFull(Total(q), SourceOrder(q.sourced));
    }
  }

  // ---------- stopping ----------

  ghost predicate AllShut(p: Pipeline) {
    forall i :: 0 <= i < |p.stages| ==> p.stages[i].queue.shutdown
  }

  predicate IsWorkerAction(a: Action) {
    a.Pop? || a.Process? || a.Exit?
  }

  /** Work left at a stage: queued frames, frames in hand, and leaving the loop. */
  function Weight(s: Stage): nat {
    2 * |s.queue.items| + |s.hand| + (if s.exited then 0 else 1)
  }

  function Measure(stages: seq<Stage>): nat {
    if stages == [] then 0 else Weight(stages[0]) + Measure(stages[1..])
  }

  lemma {:induction false} MeasureUpdate(stages: seq<Stage>, i: nat, s: Stage)
    requires i < |stages|
    ensures Measure(stages[i := s]) == Measure(stages) - Weight(stages[i]) + Weight(s)
  {
    if i == 0 {
      assert stages[0 := s][1..] == stages[1..];
    } else {
      assert stages[i := s][1..] == stages[1..][i - 1 := s];
      MeasureUpdate(stages[1..], i - 1, s);
    }
  }

  /** After shutdown a forwarded frame is refused, so a worker step touches its own stage only. */
  lemma ShutStep(p: Pipeline, a: Action)
    requires AllShut(p) && !p.running && IsWorkerAction(a) && Enabled(p, a)
    ensures
      var s, q := p.stages[a.i], Step(p, a);
      && !q.running && q.sourced == p.sourced && |q.stages| == |p.stages|
      && q.stages == p.stages[a.i := q.stages[a.i]]
      && q.stages[a.i].queue.shutdown
      && Weight(q.stages[a.i]) < Weight(s)
      && (q.stages[a.i].exited <==> a.Exit?)
      && (exists k :: 0 <= k <= |s.queue.items| && q.stages[a.i].queue.items == s.queue.items[k..])
  {
    var i := a.i;
    var s, q := p.stages[i], Step(p, a);
    match a {
      case Pop(_, n) =>
        var k := if n < |s.queue.items| then n else |s.queue.items|;
        assert q.stages[i].queue.items == s.queue.items[k..];
      case Process(_, verdict, abort) =>
        assert s.queue.items == s.queue.items[0..];
        if verdict.Forward? && i < |p.stages| - 1 {
          assert p.stages[i := AfterHand(s, abort)][i + 1] == p.stages[i + 1];
        }
      case Exit(_) =>
        assert s.queue.items == s.queue.items[0..];
    }
  }

  /** Once the queues are shut down they only shrink, and every worker step uses up some of the work left. */
  lemma ShutdownDrains(p: Pipeline, a: Action)
    requires AllShut(p) && !p.running && IsWorkerAction(a) && Enabled(p, a)
    ensures AllShut(Step(p, a)) && !Step(p, a).running
    ensures Measure(Step(p, a).stages) < Measure(p.stages)
    ensures forall i :: 0 <= i < |p.stages| ==> |Step(p, a).stages[i].queue.items| <= |p.stages[i].queue.items|
  {
    ShutStep(p, a);
    MeasureUpdate(p.stages, a.i, Step(p, a).stages[a.i]);
  }

  /** Every worker loop ends: no run of worker steps is longer than the work left. */
  lemma {:induction false} WorkersTerminate(p: Pipeline, actions: seq<Action>, q: Pipeline)
    requires AllShut(p) && !p.running && Reaches(p, actions, q)
    requires forall k :: 0 <= k < |actions| ==> IsWorkerAction(actions[k])
    ensures AllShut(q) && !q.running && |actions| + Measure(q.stages) <= Measure(p.stages)
    decreases |actions|
  {
    if actions != [] {
      assert forall k :: 0 <= k < |actions| - 1 ==> actions[1..][k] == actions[k + 1];
      ShutdownDrains(p, actions[0]);
      WorkersTerminate(Step(p, actions[0]), actions[1..], q);
    }
  }

  /** And none gets stuck: a worker that has not left its loop can always take a step. */
  lemma WorkersProgress(p: Pipeline, i: nat) returns (a: Action)
    requires !p.running && i < |p.stages| && !p.stages[i].exited
    ensures IsWorkerAction(a) && a.i == i && Enabled(p, a)
  {
    if p.stages[i].hand != [] {
      a := Process(i, Swallow, false);
    } else if p.stages[i].queue.items != [] {
      a := Pop(i, 1);
    } else {
      a := Exit(i);
    }
  }

  /** No worker has left behind a queue that still holds frames. */
  ghost predicate NoneStranded(p: Pipeline) {
    forall i :: 0 <= i < |p.stages| && p.stages[i].exited ==> p.stages[i].queue.items == []
  }

  /** Whether anything is stranded is settled at shutdown and never changes after. */
  lemma {:induction false} StrandedIsSettled(p: Pipeline, actions: seq<Action>, q: Pipeline)
    requires AllShut(p) && !p.running && Reaches(p, actions, q)
    requires forall k :: 0 <= k < |actions| ==> IsWorkerAction(actions[k])
    ensures NoneStranded(p) <==> NoneStranded(q)
    decreases |actions|
  {
    if actions != [] {
      var a := actions[0];
      var r := Step(p, a);
      ShutStep(p, a);
      ShutdownDrains(p, a);
      assert NoneStranded(p) ==> NoneStranded(r);
      if !NoneStranded(p) {
        var j :| 0 <= j < |p.stages| && p.stages[j].exited && p.stages[j].queue.items != [];
        assert r.stages[j] == p.stages[j];
      }
      assert forall k :: 0 <= k < |actions| - 1 ==> actions[1..][k] == actions[k + 1];
      StrandedIsSettled(r, actions[1..], q);
    }
  }

  // ---------- which stops drain ----------

  /**
    * A stop after the running flag is cleared: worker steps in any order, the queues shut from `k` on in turn and, if
    * the source is live, frames pushed from outside at any time.
    */
  ghost predicate Stopping(live: bool, p: Pipeline, k: nat, actions: seq<Action>, q: Pipeline, l: nat)
    decreases |actions|
  {
    if actions == [] then p == q && k == l
    else
      var a := actions[0];
      && Enabled(p, a)
      && ((Meanwhile(live, a) && Stopping(live, Step(p, a), k, actions[1..], q, l))
          || (a == ShutdownQueue(k) && Stopping(live, Step(p, a), k + 1, actions[1..], q, l)))
  }

  /** The steps of other threads during a stop. */
  predicate Meanwhile(live: bool, a: Action) {
    IsWorkerAction(a) || (live && a.Source?)
  }

  ghost predicate AllExited(p: Pipeline) {
    forall i :: 0 <= i < |p.stages| ==> p.stages[i].exited
  }

  predicate AllEmpty(p: Pipeline) {
    forall i :: 0 <= i < |p.stages| ==> p.stages[i].queue.items == []
  }

  /** A completed stop: flag cleared, every queue shut, every worker joined. */
  ghost predicate Stops(live: bool, p: Pipeline, actions: seq<Action>, q: Pipeline) {
    Stopping(live, p.(running := false), 0, actions, q, |p.stages|) && AllExited(q)
  }

  predicate Busy(s: Stage) {
    s.hand != [] || s.queue.items != []
  }

  predicate Open(q: Queue) {
    !q.shutdown && q.capacity >= 1
  }

  /**
    * Some queue still takes frames and some may yet come to it: from the stage before it, which holds a frame, queued
    * or in hand, or, for the first queue, from a live source.
    */
  predicate CanStrand(live: bool, p: Pipeline) {
    || (live && p.stages != [] && Open(p.stages[0].queue))
    || exists i :: 0 <= i < |p.stages| - 1 && Busy(p.stages[i]) && Open(p.stages[i + 1].queue)
  }

  /** What every stop keeps when nothing can be stranded. */
  ghost predicate Harmless(live: bool, p: Pipeline) {
    && (live && p.stages != [] ==> !Open(p.stages[0].queue))
    && (forall i :: 0 <= i < |p.stages| - 1 && Busy(p.stages[i]) ==> !Open(p.stages[i + 1].queue))
    && NoneStranded(p)
  }

  lemma HarmlessStep(live: bool, p: Pipeline, a: Action)
    requires !p.running && Harmless(live, p) && Enabled(p, a) && (Meanwhile(live, a) || a.ShutdownQueue?)
    ensures !Step(p, a).running && |Step(p, a).stages| == |p.stages| && Harmless(live, Step(p, a))
  {
  }

  lemma {:induction false} HarmlessStop(live: bool, p: Pipeline, k: nat, actions: seq<Action>, q: Pipeline, l: nat)
    requires !p.running && Harmless(live, p) && Stopping(live, p, k, actions, q, l)
    ensures |q.stages| == |p.stages| && Harmless(live, q)
    decreases |actions|
  {
    if actions != [] {
      var a := actions[0];
      HarmlessStep(live, p, a);
      hide Harmless, Step, Enabled;
      if Meanwhile(live, a) && Stopping(live, Step(p, a), k, actions[1..], q, l) {
        HarmlessStop(live, Step(p, a), k, actions[1..], q, l);
      } else {
        HarmlessStop(live, Step(p, a), k + 1, actions[1..], q, l);
      }
    }
  }

  lemma {:induction false} StoppingAppend(live: bool, p: Pipeline, k: nat, a: seq<Action>, m: Pipeline, l: nat,
                                          b: seq<Action>, q: Pipeline, n: nat)
    requires Stopping(live, p, k, a, m, l) && Stopping(live, m, l, b, q, n)
    ensures Stopping(live, p, k, a + b, q, n)
    decreases |a|
  {
    hide Enabled, Step;
    if a == [] {
      assert a + b == b;
    } else {
      assert (a + b)[1..] == a[1..] + b;
      if Meanwhile(live, a[0]) && Stopping(live, Step(p, a[0]), k, a[1..], m, l) {
        StoppingAppend(live, Step(p, a[0]), k, a[1..], m, l, b, q, n);
      } else {
        StoppingAppend(live, Step(p, a[0]), k + 1, a[1..], m, l, b, q, n);
      }
    }
  }

  lemma StoppingOne(live: bool, p: Pipeline, k: nat, a: Action)
    requires Enabled(p, a) && (Meanwhile(live, a) || a == ShutdownQueue(k))
    ensures Stopping(live, p, k, [a], Step(p, a), if Meanwhile(live, a) then k else k + 1)
  {
    hide Enabled, Step;
    assert [a][1..] == [];
  }

  /** A worker can empty its own stage, forwarding nothing, and leave. */
  lemma DrainStage(live: bool, p: Pipeline, j: nat, k: nat) returns (actions: seq<Action>, q: Pipeline)
    requires !p.running && j < |p.stages| && !p.stages[j].exited
    ensures Stopping(live, p, k, actions, q, k)
    ensures |q.stages| == |p.stages| && q == p.(stages := p.stages[j := q.stages[j]])
    ensures q.stages[j].exited && q.stages[j].queue == p.stages[j].queue.(items := [])
    decreases Weight(p.stages[j])
  {
    var s := p.stages[j];
    var a := if s.hand != [] then Process(j, Swallow, false) else if s.queue.items != [] then Pop(j, 1) else Exit(j);
    var r := Step(p, a);
    StoppingOne(live, p, k, a);
    assert r == p.(stages := p.stages[j := r.stages[j]]);
    if a.Exit? {
      actions, q := [a], r;
    } else {
      hide Stopping;
      var rest;
      rest, q := DrainStage(live, r, j, k);
      StoppingAppend(live, p, k, [a], r, k, rest, q, k);
      actions := [a] + rest;
    }
  }

  /** The stop's own thread shuts the queues that are left. */
  lemma ShutRest(live: bool, p: Pipeline, k: nat) returns (actions: seq<Action>, q: Pipeline)
    requires k <= |p.stages| && forall i :: 0 <= i < k ==> p.stages[i].queue.shutdown
    ensures Stopping(live, p, k, actions, q, |p.stages|) && AllShut(q) && q.running == p.running
    ensures |q.stages| == |p.stages|
    ensures forall i :: 0 <= i < |p.stages| ==>
              q.stages[i].exited == p.stages[i].exited && q.stages[i].queue.items == p.stages[i].queue.items
    decreases |p.stages| - k
  {
    if k == |p.stages| {
      actions, q := [], p;
    } else {
      var a := ShutdownQueue(k);
      var r := Step(p, a);
      StoppingOne(live, p, k, a);
      hide Stopping;
      var rest;
      rest, q := ShutRest(live, r, k + 1);
      StoppingAppend(live, p, k, [a], r, k + 1, rest, q, |p.stages|);
      actions := [a] + rest;
    }
  }

  /** After shutdown all workers can leave, and what is stranded stays. */
  lemma FinishWorkers(live: bool, p: Pipeline, l: nat) returns (actions: seq<Action>, q: Pipeline)
    requires !p.running && AllShut(p)
    ensures Stopping(live, p, l, actions, q, l) && AllExited(q) && |q.stages| == |p.stages|
    ensures !NoneStranded(p) ==> !NoneStranded(q)
    decreases Measure(p.stages)
  {
    if AllExited(p) {
      actions, q := [], p;
    } else {
      var i :| 0 <= i < |p.stages| && !p.stages[i].exited;
      var a := WorkersProgress(p, i);
      ShutStep(p, a);
      ShutdownDrains(p, a);
      var r := Step(p, a);
      if !NoneStranded(p) {
        var j :| 0 <= j < |p.stages| && p.stages[j].exited && p.stages[j].queue.items != [];
        assert r.stages[j] == p.stages[j];
      }
      StoppingOne(live, p, l, a);
      hide Stopping, Step, Enabled, AllShut;
      var rest;
      rest, q := FinishWorkers(live, r, l);
      StoppingAppend(live, p, l, [a], r, l, rest, q, l);
      actions := [a] + rest;
    }
  }

  /** With a frame in hand and an open, deserted queue behind it, forwarding strands the frame. */
  lemma ForwardStrands(p: Pipeline, i: nat)
    requires !p.running && i < |p.stages| - 1 && p.stages[i].hand != [] && !p.stages[i].exited
    requires p.stages[i + 1].exited && p.stages[i + 1].queue.items == [] && Open(p.stages[i + 1].queue)
    ensures var a := Process(i, Forward(0, false), false);
            Enabled(p, a) && !Step(p, a).running && |Step(p, a).stages| == |p.stages| && !NoneStranded(Step(p, a))
  {
    var a := Process(i, Forward(0, false), false);
    assert Step(p, a).stages[i + 1].queue.items != [] && Step(p, a).stages[i + 1].exited;
  }

  /** A run to the moment before the frame is stranded: the next worker leaves, this one takes a frame in hand. */
  lemma PrepareStranding(live: bool, p: Pipeline, i: nat) returns (actions: seq<Action>, q: Pipeline)
    requires !p.running && i < |p.stages| - 1 && Busy(p.stages[i]) && Open(p.stages[i + 1].queue)
    requires !p.stages[i].exited && !p.stages[i + 1].exited
    ensures Stopping(live, p, 0, actions, q, 0) && !q.running && |q.stages| == |p.stages|
    ensures q.stages[i].hand != [] && !q.stages[i].exited
    ensures q.stages[i + 1].exited && q.stages[i + 1].queue.items == [] && Open(q.stages[i + 1].queue)
  {
    actions, q := DrainStage(live, p, i + 1, 0);
    if q.stages[i].hand == [] {
      var a := Pop(i, 1);
      assert Enabled(q, a);
      var r := Step(q, a);
      assert r.stages[i].hand != [] && r.stages[i + 1] == q.stages[i + 1];
      StoppingOne(live, q, 0, a);
      hide Stopping;
      StoppingAppend(live, p, 0, actions, q, 0, [a], r, 0);
      actions, q := actions + [a], r;
    }
  }

  /** With a frame stranded the stop can still be completed, and the frame stays. */
  lemma CompleteStop(live: bool, p: Pipeline) returns (actions: seq<Action>, q: Pipeline)
    requires !p.running && !NoneStranded(p)
    ensures Stopping(live, p, 0, actions, q, |p.stages|) && AllExited(q) && !AllEmpty(q)
  {
    hide Stopping, Step, Enabled;
    var shutting, shut := ShutRest(live, p, 0);
    var leaving;
    leaving, q := FinishWorkers(live, shut, |p.stages|);
    actions := shutting + leaving;
    StoppingAppend(live, p, 0, shutting, shut, |p.stages|, leaving, q, |p.stages|);
  }

  /** A frame on its way between two stages is stranded. */
  lemma StrandForwarded(live: bool, p: Pipeline, i: nat) returns (actions: seq<Action>, q: Pipeline)
    requires i < |p.stages| - 1 && Busy(p.stages[i]) && Open(p.stages[i + 1].queue)
    requires forall j :: 0 <= j < |p.stages| ==> !p.stages[j].exited
    ensures Stops(live, p, actions, q) && !AllEmpty(q)
  {
    var stopped := p.(running := false);
    var first, before := PrepareStranding(live, stopped, i);
    ForwardStrands(before, i);
    var a := Process(i, Forward(0, false), false);
    var after := Step(before, a);
    StoppingOne(live, before, 0, a);
    hide Stopping, Step, Enabled;
    StoppingAppend(live, stopped, 0, first, before, 0, [a], after, 0);
    var rest;
    rest, q := CompleteStop(live, after);
    actions := first + [a] + rest;
    StoppingAppend(live, stopped, 0, first + [a], after, 0, rest, q, |p.stages|);
  }

  /** A frame pushed by a live source after the first worker has left is stranded. */
  lemma StrandPushed(p: Pipeline) returns (actions: seq<Action>, q: Pipeline)
    requires p.stages != [] && Open(p.stages[0].queue) && !p.stages[0].exited
    ensures Stops(true, p, actions, q) && !AllEmpty(q)
  {
    var stopped := p.(running := false);
    var first, before := DrainStage(true, stopped, 0, 0);
    var a := Source(0, false);
    var after := Step(before, a);
    assert after.stages[0].exited && after.stages[0].queue.items != [];
    StoppingOne(true, before, 0, a);
    hide Stopping, Step, Enabled;
    StoppingAppend(true, stopped, 0, first, before, 0, [a], after, 0);
    var rest;
    rest, q := CompleteStop(true, after);
    actions := first + [a] + rest;
    StoppingAppend(true, stopped, 0, first + [a], after, 0, rest, q, |p.stages|);
  }

  lemma StrandingStop(live: bool, p: Pipeline) returns (actions: seq<Action>, q: Pipeline)
    requires CanStrand(live, p) && forall j :: 0 <= j < |p.stages| ==> !p.stages[j].exited
    ensures Stops(live, p, actions, q) && !AllEmpty(q)
  {
    if live && p.stages != [] && Open(p.stages[0].queue) {
      actions, q := StrandPushed(p);
    } else {
      var i :| 0 <= i < |p.stages| - 1 && Busy(p.stages[i]) && Open(p.stages[i + 1].queue);
      actions, q := StrandForwarded(live, p, i);
    }
  }

  /** While the flag is set no worker has left its loop, so a stop always begins with all of them there. */
  lemma {:induction false} WorkersStayWhileRunning(p: Pipeline, actions: seq<Action>, q: Pipeline)
    requires Reaches(p, actions, q) && (p.running ==> forall i :: 0 <= i < |p.stages| ==> !p.stages[i].exited)
    ensures q.running ==> forall i :: 0 <= i < |q.stages| ==> !q.stages[i].exited
    decreases |actions|
  {
    if actions != [] {
      WorkersStayWhileRunning(Step(p, actions[0]), actions[1..], q);
    }
  }

  /** A worker leaves with nothing in hand. */
  ghost predicate LeftIdle(p: Pipeline) {
    forall i :: 0 <= i < |p.stages| && p.stages[i].exited ==> p.stages[i].hand == []
  }

  lemma {:induction false} LeaversAreIdle(p: Pipeline, actions: seq<Action>, q: Pipeline)
    requires LeftIdle(p) && Reaches(p, actions, q)
    ensures LeftIdle(q) && |q.stages| == |p.stages|
    decreases |actions|
  {
    if actions != [] {
      LeaversAreIdle(Step(p, actions[0]), actions[1..], q);
    }
  }

  /**
    * Whenever a pipeline is restarted, no frame is gone and every worker is back in its loop with nothing in hand,
    * waiting at its queue even if that is empty.
    */
  lemma RestartedWorkersWait(p: Pipeline, actions: seq<Action>, q: Pipeline, i: nat)
    requires Initial(p) && Reaches(p, actions, q) && Enabled(q, Restart) && i < |q.stages|
    ensures var r := Step(q, Restart); Enabled(r, Pop(i, 1)) && !Enabled(r, Exit(i)) && Total(r) == Total(q)
  {
    LeaversAreIdle(p, actions, q);
    RestartLine(q.stages, Step(q, Restart).stages);
  }

  lemma {:induction false} StoppingIsRun(live: bool, p: Pipeline, k: nat, actions: seq<Action>, q: Pipeline, l: nat)
    requires Stopping(live, p, k, actions, q, l) && !p.running
    ensures Reaches(p, actions, q) && !q.running && |q.stages| == |p.stages|
    decreases |actions|
  {
    if actions != [] {
      var r := Step(p, actions[0]);
      if Stopping(live, r, k, actions[1..], q, l) {
        StoppingIsRun(live, r, k, actions[1..], q, l);
      } else {
        StoppingIsRun(live, r, k + 1, actions[1..], q, l);
      }
    }
  }

  lemma {:induction false} ReachesSnoc(p: Pipeline, actions: seq<Action>, q: Pipeline, a: Action)
    requires Reaches(p, actions, q) && Enabled(q, a)
    ensures Reaches(p, actions + [a], Step(q, a))
    decreases |actions|
  {
    hide Enabled, Step;
    if actions == [] {
      assert [a][1..] == [];
      assert actions + [a] == [a];
    } else {
      assert (actions + [a])[1..] == actions[1..] + [a];
      ReachesSnoc(Step(p, actions[0]), actions[1..], q, a);
    }
  }

  /** Every completed stop is part of a run that goes on with a restart. */
  lemma StopThenRestart(live: bool, p: Pipeline, actions: seq<Action>, q: Pipeline) returns (r: Pipeline)
    requires Stops(live, p, actions, q)
    ensures Reaches(p, [StopRunning] + actions + [Restart], r)
    ensures r.running && Total(r) == Total(q) && |r.stages| == |p.stages|
    ensures forall i :: 0 <= i < |r.stages| ==> !r.stages[i].exited
  {
    var stopped := p.(running := false);
    StoppingIsRun(live, stopped, 0, actions, q, |p.stages|);
    assert Enabled(p, StopRunning) && Step(p, StopRunning) == stopped;
    assert Enabled(q, Restart);
    r := Step(q, Restart);
    RestartLine(q.stages, r.stages);
    hide Enabled, Step, Stopping;
    Prepend(p, StopRunning, stopped, actions, q);
    ReachesSnoc(p, [StopRunning] + actions, q, Restart);
  }

  /** And every pipeline can be stopped. */
  lemma CanStop(live: bool, p: Pipeline) returns (actions: seq<Action>, q: Pipeline)
    ensures Stops(live, p, actions, q)
  {
    var stopped := p.(running := false);
    hide Stopping, Step, Enabled;
    var shutting, shut := ShutRest(live, stopped, 0);
    var leaving;
    leaving, q := FinishWorkers(live, shut, |p.stages|);
    actions := shutting + leaving;
    StoppingAppend(live, stopped, 0, shutting, shut, |p.stages|, leaving, q, |p.stages|);
  }

  /**
    * Every completed stop empties all queues exactly when, as the running flag is cleared, no queue that still takes
    * frames can be sent one: the stage before it holds none and, if the source is live, the queue is not the first.
    */
  lemma StopDrainsIff(live: bool, p: Pipeline)
    requires forall i :: 0 <= i < |p.stages| ==> !p.stages[i].exited
    ensures (forall actions, q :: Stops(live, p, actions, q) ==> AllEmpty(q)) <==> !CanStrand(live, p)
  {
    if CanStrand(live, p) {
      var actions, q := StrandingStop(live, p);
      assert Stops(live, p, actions, q) && !AllEmpty(q);
    } else {
      forall actions, q | Stops(live, p, actions, q) ensures AllEmpty(q) {
        HarmlessStop(live, p.(running := false), 0, actions, q, |p.stages|);
      }
    }
  }

  /**
    * Waiting until all queues are empty, as DrainAndStop does, is not enough even with a silent source: a frame in a
    * worker's hand can still be stranded. This run has one frame; its queues are empty when the stop begins.
    */
  lemma EmptyQueuesCanStrand() returns (p: Pipeline, atStop: Pipeline, actions: seq<Action>, q: Pipeline)
    ensures Initial(p) && p.running && Reaches(p, [Source(0, false), Pop(0, 1)], atStop)
    ensures AllEmpty(atStop) && Stops(false, atStop, actions, q) && !AllEmpty(q)
  {
    var p1;
    p, p1, atStop := StrandingStart();
    assert Reaches(atStop, [], atStop);
    actions, q := StrandForwarded(false, atStop, 0);
    hide Reaches, Step, Enabled, Stopping;
    Prepend(p1, Pop(0, 1), atStop, [], atStop);
    Prepend(p, Source(0, false), p1, [Pop(0, 1)] + [], atStop);
    assert [Source(0, false)] + ([Pop(0, 1)] + []) == [Source(0, false), Pop(0, 1)];
  }

  /** One frame pushed and taken in hand by the first worker. */
  lemma StrandingStart() returns (p: Pipeline, p1: Pipeline, p2: Pipeline)
    ensures Initial(p) && p.running && |p.stages| == 2
    ensures Enabled(p, Source(0, false)) && Step(p, Source(0, false)) == p1
    ensures Enabled(p1, Pop(0, 1)) && Step(p1, Pop(0, 1)) == p2
    ensures p2 == Pipeline([Stage(Queue([], 4, false, 0), [Frame(0, 0, false)], false),
                            Stage(Queue([], 4, false, 0), [], false)], true, 1, [])
  {
    var f := Frame(0, 0, false);
    var none := Queue([], 4, false, 0);
    var one := Queue([f], 4, false, 0);
    var idle := Stage(none, [], false);
    p := Pipeline([idle, idle], true, 0, []);
    p1 := Pipeline([Stage(one, [], false), idle], true, 1, []);
    p2 := Pipeline([Stage(none, [f], false), idle], true, 1, []);
    assert [f][1..] == [] && [f][..1] == [f] && [] + [f] == [f];
    assert Taken(one, 1) == (none, [f]) && p1.stages[0 := Stage(none, [f], false)] == p2.stages;
    assert Pushed(none, f) == (one, true) && p.stages[0 := Stage(one, [], false)] == p1.stages;
  }

  lemma Prepend(p: Pipeline, a: Action, r: Pipeline, rest: seq<Action>, q: Pipeline)
    requires Enabled(p, a) && Step(p, a) == r && Reaches(r, rest, q)
    ensures Reaches(p, [a] + rest, q)
  {
    hide Enabled, Step;
    assert ([a] + rest)[1..] == rest;
  }

  /** The shutdown flag is never cleared: whatever is pushed later, even after a restart, never gets through. */
  lemma {:induction false} NothingAfterShutdown(p: Pipeline, actions: seq<Action>, q: Pipeline)
    requires AllShut(p) && Reaches(p, actions, q)
    ensures AllShut(q) && Subsequence(Total(q), Total(p))
    decreases |actions|
  {
    if actions == [] {
      SubsequenceRefl(Total(p));
    } else {
      ShutKept(p, actions[0]);
      hide Total, Subsequence, Step, Enabled;
      NothingAfterShutdown(Step(p, actions[0]), actions[1..], q);
      SubsequenceTrans(Total(q), Total(Step(p, actions[0])), Total(p));
    }
  }

  lemma ShutKept(p: Pipeline, a: Action)
    requires AllShut(p) && Enabled(p, a)
    ensures AllShut(Step(p, a)) && Subsequence(Total(Step(p, a)), Total(p))
  {
    if a.Source? {
      assert Step(p, a).stages == p.stages;
      SubsequenceRefl(Total(p));
    } else {
      StepTotal(p, a);
      assert Total(p) + [] == Total(p);
    }
  }
}
