/** The bounded queue between pipeline stages (src/core/pipeline/stage_queue.cc). */
module StageQueue {
  import opened Options
  import opened Sequences

  /** `id` is the frame's identity; the rest is what backpressure looks at. */
  datatype Frame = Frame(id: nat, channel: int, key: bool)

  datatype Queue = Queue(items: seq<Frame>, capacity: nat, shutdown: bool, dropped: nat)

  // ---------- specification ----------

  predicate Droppable(f: Frame, channel: Option<int>) {
    !f.key && (channel.Some? ==> f.channel == channel.value)
  }

  /** The oldest frame that may be dropped, or the length if there is none. */
  function Oldest(items: seq<Frame>, channel: Option<int>): (k: nat)
    ensures k <= |items|
    ensures k < |items| ==> Droppable(items[k], channel)
    ensures forall i :: 0 <= i < k ==> !Droppable(items[i], channel)
  {
    if items == [] then 0 else if Droppable(items[0], channel) then 0 else 1 + Oldest(items[1..], channel)
  }

  /** Oldest non-keyframe of the same channel, else oldest non-keyframe, else none. */
  function Victim(items: seq<Frame>, channel: int): (k: nat)
    ensures k <= |items| && (k < |items| ==> !items[k].key)
    ensures k == |items| <==> forall i :: 0 <= i < |items| ==> items[i].key
    ensures (exists i :: 0 <= i < |items| && Droppable(items[i], Some(channel))) ==>
              && k < |items| && items[k].channel == channel
              && forall i :: 0 <= i < k ==> !Droppable(items[i], Some(channel))
    ensures (forall i :: 0 <= i < |items| ==> !Droppable(items[i], Some(channel))) ==>
            forall i :: 0 <= i < k ==> items[i].key
  {
    var same := Oldest(items, Some(channel));
    if same < |items| then same else Oldest(items, None)
  }

  function Pushed(q: Queue, f: Frame): (Queue, bool) {
    if q.shutdown then (q, false)
    else if |q.items| < q.capacity then (q.(items := q.items + [f]), true)
    else
      var v := Victim(q.items, f.channel);
      if v == |q.items| then (q.(dropped := q.dropped + 1), false)
      else (q.(items := Without(q.items, v) + [f], dropped := q.dropped + 1), true)
  }

  /** The front `n` frames, or all if there are fewer. */
  function Taken(q: Queue, n: nat): (Queue, seq<Frame>) {
    var count := if n < |q.items| then n else |q.items|;
    (q.(items := q.items[count..]), q.items[..count])
  }

  // ---------- the queue object ----------

  class StageQueue {
    var items: seq<Frame>
    var capacity: nat
    var shutdown: bool
    var dropped: nat

    ghost function View(): Queue
      reads this
    {
      Queue(items, capacity, shutdown, dropped)
    }

    constructor (limit: nat)
      ensures View() == Queue([], limit, false, 0)
    {
      items, capacity, shutdown, dropped := [], limit, false, 0;
    }

    /** Scans from the front; erases the first frame that may be dropped. */
    method EraseOldest(channel: Option<int>) returns (found: bool)
      modifies this
      ensures found <==> Oldest(old(items), channel) < |old(items)|
      ensures View() == if found then old(View()).(items := Without(old(items), Oldest(old(items), channel)),
                                                   dropped := old(dropped) + 1)
                        else old(View())
    {
      var i := 0;
      while i < |items|
        invariant 0 <= i <= |items|
        invariant forall j :: 0 <= j < i ==> !Droppable(items[j], channel)
        invariant View() == old(View())
      {
        if Droppable(items[i], channel) {
          OldestIs(items, channel, i);
          items := items[..i] + items[i + 1..];
          dropped := dropped + 1;
          return true;
        }
        i := i + 1;
      }
      return false;
    }

    method Push(f: Frame) returns (accepted: bool)
      modifies this
      ensures (View(), accepted) == Pushed(old(View()), f)
    {
      if shutdown {
        return false;
      }
      if |items| >= capacity {
        var found := EraseOldest(Some(f.channel));
        if !found && |items| > 0 {
          found := EraseOldest(None);
        }
        if !found {
          dropped := dropped + 1;
          return false;
        }
      }
      items := items + [f];
      return true;
    }

    /** What a wake-up of the waiting consumer returns; None on time-out or an empty shut-down queue. */
    method Pop() returns (frame: Option<Frame>)
      modifies this
      ensures View() == Taken(old(View()), 1).0
      ensures match frame case None => old(items) == [] == items case Some(f) => old(items) == [f] + items
    {
      if items == [] {
        return None;
      }
      frame := Some(items[0]);
      items := items[1..];
    }

    method PopBatch(max: nat) returns (batch: seq<Frame>)
      modifies this
      ensures (View(), batch) == Taken(old(View()), max)
      ensures batch + items == old(items) && |batch| == if max < |old(items)| then max else |old(items)|
    {
      batch := [];
      var count := if max < |items| then max else |items|;
      for i := 0 to count
        invariant |old(items)| == |items| + i && items == old(items)[i..] && batch == old(items)[..i]
        invariant View() == old(View()).(items := items)
      {
        batch := batch + [items[0]];
        items := items[1..];
      }
    }

    method SetCapacity(limit: nat)
      modifies this
      ensures View() == old(View()).(capacity := limit)
    {
      capacity := limit;
    }

    method Shutdown()
      modifies this
      ensures View() == old(View()).(shutdown := true)
    {
      shutdown := true;
    }
  }

  lemma {:induction false} OldestIs(items: seq<Frame>, channel: Option<int>, k: nat)
    requires k < |items| && Droppable(items[k], channel)
    requires forall i :: 0 <= i < k ==> !Droppable(items[i], channel)
    ensures Oldest(items, channel) == k
  {
  }

  // ---------- what a push does to the old frames ----------

  /** Room for one more. */
  predicate HasRoom(q: Queue) {
    |q.items| < q.capacity
  }

  /** The oldest frame of the channel that is not a keyframe, or, if there is none, the oldest of any channel. */
  ghost predicate GivesWay(items: seq<Frame>, channel: int, k: nat) {
    && k < |items| && !items[k].key
    && (if exists i :: 0 <= i < |items| && items[i].channel == channel && !items[i].key
        then items[k].channel == channel && forall i :: 0 <= i < k && items[i].channel == channel ==> items[i].key
        else forall i :: 0 <= i < k ==> items[i].key)
  }

  /**
    * A frame is accepted exactly when the queue is not shut down and has room or holds a frame that is not a keyframe.
    * With room nothing goes and nothing is counted; without it exactly one queued frame goes and is counted, or the
    * new one is.
    */
  lemma PushOutcome(q: Queue, f: Frame)
    ensures
      var (r, accepted) := Pushed(q, f);
      && (accepted <==> !q.shutdown && (HasRoom(q) || exists i :: 0 <= i < |q.items| && !q.items[i].key))
      && r.capacity == q.capacity && r.shutdown == q.shutdown
      && (q.shutdown ==> r == q)
      && (!q.shutdown ==> r.dropped == q.dropped + (if HasRoom(q) then 0 else 1))
      && (!accepted ==> r.items == q.items)
      && (accepted && HasRoom(q) ==> r.items == q.items + [f])
      && (accepted && !HasRoom(q) ==>
            exists k: nat :: GivesWay(q.items, f.channel, k) && r.items == q.items[..k] + q.items[k + 1..] + [f])
  {
    hide Victim;
    var k := Victim(q.items, f.channel);
    if !q.shutdown && !HasRoom(q) && k < |q.items| {
      VictimGivesWay(q.items, f.channel);
      assert Pushed(q, f).0.items == q.items[..k] + q.items[k + 1..] + [f];
    }
  }

  lemma VictimGivesWay(items: seq<Frame>, channel: int)
    requires Victim(items, channel) < |items|
    ensures GivesWay(items, channel, Victim(items, channel))
  {
    hide Victim;
    if i :| 0 <= i < |items| && items[i].channel == channel && !items[i].key {
      assert Droppable(items[i], Some(channel));
    }
  }

  // ---------- runs ----------

  datatype Op = PushOp(frame: Frame) | TakeOp(count: nat) | CapacityOp(limit: nat) | ShutdownOp

  /**
    * A queue with its history: accepted and delivered frames, pushes made, pushes refused by shutdown, largest limit.
    */
  datatype Log = Log(q: Queue, accepted: seq<Frame>, popped: seq<Frame>, pushes: nat, refused: nat, largest: nat)

  function Step(l: Log, op: Op): Log {
    match op
    case PushOp(f) =>
      var (q, ok) := Pushed(l.q, f);
      l.(q := q, pushes := l.pushes + 1, accepted := if ok then l.accepted + [f] else l.accepted,
         refused := l.refused + (if l.q.shutdown then 1 else 0))
    case TakeOp(n) => var (q, fs) := Taken(l.q, n); l.(q := q, popped := l.popped + fs)
    case CapacityOp(n) => l.(q := l.q.(capacity := n), largest := if n > l.largest then n else l.largest)
    case ShutdownOp => l.(q := l.q.(shutdown := true))
  }

  function Execute(limit: nat, ops: seq<Op>): Log {
    if ops == [] then Log(Queue([], limit, false, 0), [], [], 0, 0, limit)
    else Step(Execute(limit, ops[..|ops| - 1]), ops[|ops| - 1])
  }

  predicate IsKey(f: Frame) {
    f.key
  }

  ghost predicate Invariant(l: Log) {
    && l.pushes == |l.popped| + |l.q.items| + l.q.dropped + l.refused
    && (!l.q.shutdown ==> l.refused == 0)
    && |l.q.items| <= l.largest && l.q.capacity <= l.largest
    && Kept(l.popped + l.q.items, l.accepted)
  }

  /** Delivered and queued frames are the accepted ones in order, with every keyframe still there. */
  ghost predicate Kept(line: seq<Frame>, accepted: seq<Frame>) {
    Subsequence(line, accepted) && Filter(line, IsKey) == Filter(accepted, IsKey)
  }

  lemma KeptSnoc(line: seq<Frame>, accepted: seq<Frame>, f: Frame)
    requires Kept(line, accepted)
    ensures Kept(line + [f], accepted + [f])
  {
    hide Subsequence, Filter;
    SubsequenceRefl([f]);
    SubsequenceConcat(line, accepted, [f], [f]);
    FilterSnoc(line, f, IsKey);
    FilterSnoc(accepted, f, IsKey);
  }

  lemma KeptWithout(line: seq<Frame>, accepted: seq<Frame>, k: nat)
    requires Kept(line, accepted) && k < |line| && !line[k].key
    ensures Kept(Without(line, k), accepted)
  {
    hide Subsequence, Filter, Without;
    SubsequenceRemove(line, k);
    SubsequenceTrans(Without(line, k), line, accepted);
    FilterWithout(line, k, IsKey);
  }

  lemma PushKeepsInvariant(l: Log, f: Frame)
    requires Invariant(l)
    ensures Invariant(Step(l, PushOp(f)))
  {
    hide Kept, Victim;
    var after := Step(l, PushOp(f));
    var line := l.popped + l.q.items;
    if Pushed(l.q, f).1 {
      if |l.q.items| < l.q.capacity {
        assert after.popped + after.q.items == line + [f];
      } else {
        var k := |l.popped| + Victim(l.q.items, f.channel);
        KeptWithout(line, l.accepted, k);
        line := Without(line, k);
        assert after.popped + after.q.items == line + [f];
      }
      KeptSnoc(line, l.accepted, f);
    }
  }

  /**
    * Every run: pushes are conserved, an accepted keyframe is never evicted, delivered frames followed by the
    * queue keep the order of acceptance, and the queue never outgrows the largest limit set.
    */
  lemma {:induction false} RunInvariant(limit: nat, ops: seq<Op>)
    ensures Invariant(Execute(limit, ops))
  {
    if ops == [] {
      SubsequenceRefl<Frame>([]);
      assert Execute(limit, ops).popped + Execute(limit, ops).q.items == [];
    } else {
      RunInvariant(limit, ops[..|ops| - 1]);
      StepKeepsInvariant(Execute(limit, ops[..|ops| - 1]), ops[|ops| - 1]);
    }
  }

  /** A queue refuses frames on shutdown only after someone has shut it. */
  lemma {:induction false} ShutIff(limit: nat, ops: seq<Op>)
    ensures Execute(limit, ops).q.shutdown <==> ShutdownOp in ops
  {
    if ops != [] {
      var n := |ops| - 1;
      ShutIff(limit, ops[..n]);
      assert ops == ops[..n] + [ops[n]];
    }
  }

  lemma StepKeepsInvariant(l: Log, op: Op)
    requires Invariant(l)
    ensures Invariant(Step(l, op))
  {
    if op.PushOp? {
      PushKeepsInvariant(l, op.frame);
    } else {
      hide Kept, Pushed;
      assert Step(l, op).popped + Step(l, op).q.items == l.popped + l.q.items;
    }
  }
}
