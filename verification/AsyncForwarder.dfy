/**
 The bounded, non-blocking hand-off between emitters and the worker thread of an
 `AsyncForwarder`, as a state machine over the atomic steps of both sides.
 */
module AsyncForwarder {
  import opened Options

  /** `queue`: the channel buffer; `waiting`: the worker is blocked in a receive on an
      empty channel; `inHand`: the event whose callback is running; `rejecting`:
      forwards whose send failed but whose drop is not counted yet; `closed`: every
      forwarder handle is gone; `exited`: the worker loop has ended. The histories
      `forwarded`, `accepted` and `handled` record events in order. */
  datatype State<E> = State(
    capacity: nat, queue: seq<E>, waiting: bool, inHand: Option<E>,
    rejecting: nat, dropped: nat, closed: bool, exited: bool,
    forwarded: seq<E>, accepted: seq<E>, handled: seq<E>)

  datatype Step<E> =
    | TrySend(event: E)
    | CountDrop
    | Close
    | Receive
    | Finish

  function Spawn<E>(capacity: nat): State<E> {
    State(capacity, [], false, None, 0, 0, false, false, [], [], [])
  }

  /** A forward is rejected when the buffer is full, or, on a channel without a
      buffer, when no worker is waiting for a hand-over. */
  predicate Room<E>(s: State<E>) {
    if s.capacity == 0 then s.waiting else |s.queue| < s.capacity
  }

  /** One atomic step; a step that is not possible now leaves the state as it is.
      Handles are dropped only after the forwards on them returned. The worker's
      receive takes the oldest event, waits on an empty channel, and ends the loop on
      a closed empty one. A callback that panics finishes like one that does not. */
  function Next<E>(s: State<E>, a: Step<E>): State<E> {
    match a
    case TrySend(e) =>
      if s.closed then s
      else
        var f := s.(forwarded := s.forwarded + [e]);
        if !Room(s) then f.(rejecting := s.rejecting + 1)
        else if s.capacity == 0 then
          f.(accepted := s.accepted + [e], waiting := false, inHand := Some(e))
        else
          f.(accepted := s.accepted + [e], queue := s.queue + [e])
    case CountDrop =>
      if s.rejecting == 0 then s else s.(rejecting := s.rejecting - 1, dropped := s.dropped + 1)
    case Close => if s.rejecting == 0 then s.(closed := true) else s
    case Receive =>
      if s.exited || s.inHand.Some? then s
      else if s.queue != [] then s.(waiting := false, inHand := Some(s.queue[0]), queue := s.queue[1..])
      else if s.closed then s.(waiting := false, exited := true)
      else s.(waiting := true)
    case Finish =>
      if s.inHand.None? then s else s.(inHand := None, handled := s.handled + [s.inHand.value])
  }

  function Run<E>(s: State<E>, steps: seq<Step<E>>): State<E> {
    if steps == [] then s else Next(Run(s, steps[..|steps| - 1]), steps[|steps| - 1])
  }

  function InHand<E>(s: State<E>): seq<E> {
    if s.inHand.Some? then [s.inHand.value] else []
  }

  /** `sub` is `all` with some elements left out, order kept. */
  ghost predicate Subsequence<E>(sub: seq<E>, all: seq<E>) {
    if sub == [] then true
    else if all == [] then false
    else
      var n, m := |sub| - 1, |all| - 1;
      (sub[n] == all[m] && Subsequence(sub[..n], all[..m])) || Subsequence(sub, all[..m])
  }

  ghost predicate Inv<E>(s: State<E>) {
    && s.handled + InHand(s) + s.queue == s.accepted
    && |s.queue| <= s.capacity
    && |s.accepted| + s.rejecting + s.dropped == |s.forwarded|
    && Subsequence(s.accepted, s.forwarded)
    && (s.waiting ==> s.inHand.None?)
    && (s.closed ==> s.rejecting == 0)
    && (s.exited ==> s.closed && s.inHand.None? && s.queue == [] && !s.waiting)
  }

  lemma SubsequenceSnoc<E>(sub: seq<E>, all: seq<E>, e: E)
    requires Subsequence(sub, all)
    ensures Subsequence(sub, all + [e]) && Subsequence(sub + [e], all + [e])
  {
    assert (all + [e])[..|all|] == all && (sub + [e])[..|sub|] == sub;
  }

  lemma NextInv<E>(s: State<E>, a: Step<E>)
    requires Inv(s)
    ensures Inv(Next(s, a))
  {
    match a
    case TrySend(e) => TrySendInv(s, e);
    case CountDrop =>
    case Close =>
    case Receive => ReceiveInv(s);
    case Finish => FinishInv(s);
  }

  lemma TrySendInv<E>(s: State<E>, e: E)
    requires Inv(s)
    ensures Inv(Next(s, TrySend(e)))
  {
    hide Subsequence;
    SubsequenceSnoc(s.accepted, s.forwarded, e);
    SendKeepsOrder(s.handled + InHand(s), s.queue, e);
  }

  lemma ReceiveInv<E>(s: State<E>)
    requires Inv(s)
    ensures Inv(Next(s, Receive))
  {
    hide Subsequence;
    if s.queue != [] {
      ReceiveKeepsOrder(s.handled, s.queue);
    }
  }

  lemma FinishInv<E>(s: State<E>)
    requires Inv(s)
    ensures Inv(Next(s, Finish))
  {
    hide Subsequence;
    if s.inHand.Some? {
      assert s.handled + [s.inHand.value] + [] == s.handled + [s.inHand.value];
    }
  }

  lemma SendKeepsOrder<E>(before: seq<E>, queue: seq<E>, e: E)
    ensures before + queue + [e] == before + (queue + [e])
    ensures before + [] == before
  {
  }

  lemma ReceiveKeepsOrder<E>(handled: seq<E>, queue: seq<E>)
    requires queue != []
    ensures handled + [queue[0]] + queue[1..] == handled + [] + queue
  {
  }

  lemma {:induction false} RunInv<E>(s: State<E>, steps: seq<Step<E>>)
    requires Inv(s)
    ensures Inv(Run(s, steps))
    decreases |steps|
  {
    if steps != [] {
      RunInv(s, steps[..|steps| - 1]);
      NextInv(Run(s, steps[..|steps| - 1]), steps[|steps| - 1]);
    }
  }

  /** In every interleaving of emitters and worker: the events handled are, in order,
      a prefix of those accepted, and those a subsequence of those forwarded; the
      buffer never exceeds its capacity; every forwarded event is handled, in hand,
      queued, dropped or about to be counted as dropped; and as many are dropped as found
      no place, so that without those all forwarded events are accepted. */
  lemma EveryRun<E>(capacity: nat, steps: seq<Step<E>>)
    ensures var s := Run(Spawn(capacity), steps);
            && s.handled <= s.accepted
            && Subsequence(s.accepted, s.forwarded)
            && |s.queue| <= capacity
            && |s.handled| + |InHand(s)| + |s.queue| + s.dropped + s.rejecting == |s.forwarded|
            && (s.exited ==> s.handled == s.accepted && |s.handled| + s.dropped == |s.forwarded|)
            && s.dropped + s.rejecting == |Misses(Spawn(capacity), steps)|
            && (Misses(Spawn(capacity), steps) == {} ==> s.dropped + s.rejecting == 0 && s.accepted == s.forwarded)
  {
    hide Subsequence, Run, Misses;
    var s := Run(Spawn(capacity), steps);
    SpawnInv<E>(capacity);
    RunInv(Spawn(capacity), steps);
    CapacityFixed(Spawn(capacity), steps);
    DropsExact(Spawn(capacity), steps);
    assert s.handled + (InHand(s) + s.queue) == s.handled + InHand(s) + s.queue;
  }

  // ------------------------------------------------------------- what is dropped

  /** The place an event has to find: fewer accepted events that the worker has not
      received yet than the buffer holds; without a buffer, a worker that waits. */
  predicate Fits<E>(s: State<E>) {
    if s.capacity == 0 then s.waiting else |s.accepted| - |s.handled| - |InHand(s)| < s.capacity
  }

  /** A forward on an open channel is rejected exactly when the buffer is full or, without
      one, when the worker does not wait; otherwise the event is the last one accepted. */
  lemma ForwardExact<E>(s: State<E>, e: E)
    requires Inv(s) && !s.closed
    ensures var t := Next(s, TrySend(e));
            var rejected := if s.capacity == 0 then !s.waiting else |s.queue| == s.capacity;
            && (rejected <==> !Fits(s))
            && t.forwarded == s.forwarded + [e] && t.dropped == s.dropped && t.handled == s.handled
            && t.rejecting == (if rejected then s.rejecting + 1 else s.rejecting)
            && t.accepted == (if rejected then s.accepted else s.accepted + [e])
            && (rejected ==> t.queue == s.queue && t.inHand == s.inHand && t.waiting == s.waiting)
            && (!rejected ==> InHand(t) + t.queue == InHand(s) + s.queue + [e])
            && (!rejected && s.capacity > 0 ==> t.inHand == s.inHand)
  {
    hide Subsequence;
    assert InHand(s) + s.queue + [e] == InHand(s) + (s.queue + [e]);
  }

  /** The forwards of an interleaving that find no place. */
  ghost function Misses<E>(s: State<E>, steps: seq<Step<E>>): set<nat> {
    set i: nat | i < |steps| && Missed(s, steps, i)
  }

  ghost predicate Missed<E>(s: State<E>, steps: seq<Step<E>>, i: nat)
    requires i < |steps|
  {
    var t := Run(s, steps[..i]);
    steps[i].TrySend? && !t.closed && !Fits(t)
  }

  lemma MissesSnoc<E>(s: State<E>, steps: seq<Step<E>>)
    requires steps != []
    ensures var n := |steps| - 1;
            |Misses(s, steps)| == |Misses(s, steps[..n])| + if Missed(s, steps, n) then 1 else 0
  {
    var n := |steps| - 1;
    var a, b := Misses(s, steps[..n]), Misses(s, steps);
    assert forall i: nat :: i < n ==> steps[..n][..i] == steps[..i];
    hide Run, Fits;
    assert b == if Missed(s, steps, n) then a + {n} else a;
  }

  /** One step rejects one event or none. */
  lemma StepRejects<E>(s: State<E>, a: Step<E>)
    requires Inv(s)
    ensures var t := Next(s, a);
            t.dropped + t.rejecting == s.dropped + s.rejecting + if a.TrySend? && !s.closed && !Fits(s) then 1 else 0
  {
    hide Subsequence;
    if a.TrySend? && !s.closed {
      ForwardExact(s, a.event);
    }
  }

  /** In every interleaving, as many events are dropped, or about to be counted as
      dropped, as forwards found no place; if none did, every event is accepted. */
  lemma {:induction false} DropsExact<E>(s: State<E>, steps: seq<Step<E>>)
    requires Inv(s)
    ensures var t := Run(s, steps);
            && t.dropped + t.rejecting == s.dropped + s.rejecting + |Misses(s, steps)|
            && (s.dropped + s.rejecting == 0 && Misses(s, steps) == {} ==> t.accepted == t.forwarded)
    decreases |steps|
  {
    hide Inv, Next, Missed;
    if steps != [] {
      var n := |steps| - 1;
      DropsExact(s, steps[..n]);
      RunInv(s, steps[..n]);
      StepRejects(Run(s, steps[..n]), steps[n]);
      MissesSnoc(s, steps);
      MissIs(s, steps, n);
    }
    RunInv(s, steps);
    AllAccepted(Run(s, steps));
  }

  lemma MissIs<E>(s: State<E>, steps: seq<Step<E>>, i: nat)
    requires i < |steps|
    ensures var t := Run(s, steps[..i]); Missed(s, steps, i) <==> steps[i].TrySend? && !t.closed && !Fits(t)
  {
  }

  lemma AllAccepted<E>(s: State<E>)
    requires Inv(s)
    ensures s.dropped + s.rejecting == 0 ==> s.accepted == s.forwarded
  {
    if s.dropped + s.rejecting == 0 {
      SubsequenceFull(s.accepted, s.forwarded);
    }
  }

  lemma {:induction false} SubsequenceShorter<E>(sub: seq<E>, all: seq<E>)
    requires Subsequence(sub, all)
    ensures |sub| <= |all|
    decreases |all|
  {
    if sub != [] {
      var n, m := |sub| - 1, |all| - 1;
      if sub[n] == all[m] && Subsequence(sub[..n], all[..m]) {
        SubsequenceShorter(sub[..n], all[..m]);
      } else {
        SubsequenceShorter(sub, all[..m]);
      }
    }
  }

  lemma {:induction false} SubsequenceFull<E>(sub: seq<E>, all: seq<E>)
    requires Subsequence(sub, all) && |sub| == |all|
    ensures sub == all
    decreases |all|
  {
    if sub != [] {
      var n := |sub| - 1;
      if Subsequence(sub, all[..n]) {
        SubsequenceShorter(sub, all[..n]);
      }
      SubsequenceFull(sub[..n], all[..n]);
      assert sub == sub[..n] + [sub[n]] && all == all[..n] + [all[n]];
    }
  }

  function Sends<E>(events: seq<E>): (r: seq<Step<E>>)
    ensures |r| == |events| && forall i :: 0 <= i < |r| ==> r[i] == TrySend(events[i])
  {
    seq(|events|, i requires 0 <= i < |events| => TrySend(events[i]))
  }

  /** As many events as fit the buffer are accepted, the others rejected. */
  ghost predicate Filled<E>(s: State<E>, capacity: nat, events: seq<E>) {
    var n := if |events| <= capacity then |events| else capacity;
    && s.accepted == events[..n] && s.queue == events[..n] && s.forwarded == events
    && s.rejecting == |events| - n && s.dropped == 0 && s.handled == []
    && s.inHand == None && !s.waiting && !s.closed && !s.exited && s.capacity == capacity
  }

  lemma FilledNext<E>(s: State<E>, capacity: nat, events: seq<E>, e: E)
    requires Filled(s, capacity, events)
    ensures Filled(Next(s, TrySend(e)), capacity, events + [e])
  {
    var all := events + [e];
    if |events| < capacity {
      assert events[..|events|] == events && all[..|all|] == all;
    } else {
      assert all[..capacity] == events[..capacity];
    }
  }

  /** What a new forwarder makes of a burst of events before its worker runs. */
  lemma {:induction false} Burst<E>(capacity: nat, events: seq<E>)
    ensures Filled(Run(Spawn(capacity), Sends(events)), capacity, events)
    decreases |events|
  {
    if events != [] {
      var k := |events| - 1;
      Burst(capacity, events[..k]);
      assert Sends(events)[..k] == Sends(events[..k]);
      assert events == events[..k] + [events[k]];
      hide Next, Filled;
      FilledNext(Run(Spawn(capacity), Sends(events[..k])), capacity, events[..k], events[k]);
    }
  }

  // ---------------------------------------------------------------- the worker

  lemma SpawnInv<E>(capacity: nat)
    ensures Inv(Spawn<E>(capacity))
  {
  }

  lemma {:induction false} CapacityFixed<E>(s: State<E>, steps: seq<Step<E>>)
    ensures Run(s, steps).capacity == s.capacity
    decreases |steps|
  {
    if steps != [] {
      CapacityFixed(s, steps[..|steps| - 1]);
    }
  }

  /** Worker steps still needed to drain the channel and leave the loop. */
  function Remaining<E>(s: State<E>): nat {
    2 * |s.queue| + |InHand(s)| + if s.exited then 0 else 1
  }

  /** What the worker does next: finish what is in hand, else receive. */
  function WorkerStep<E>(s: State<E>): Step<E> {
    if s.inHand.Some? then Finish else Receive
  }

  /** How often it is the worker's turn in an interleaving. */
  ghost function Turns<E>(s: State<E>, steps: seq<Step<E>>): nat {
    if steps == [] then 0
    else
      var n := |steps| - 1;
      Turns(s, steps[..n]) + if steps[n] == WorkerStep(Run(s, steps[..n])) then 1 else 0
  }

  /** On a closed channel, whoever moves: nothing more is accepted, forwarded or
      dropped, and a turn of the worker brings it one step nearer to its end. */
  lemma ClosedStep<E>(s: State<E>, a: Step<E>)
    requires Inv(s) && s.closed
    ensures var t := Next(s, a);
            && t.closed && t.accepted == s.accepted && t.forwarded == s.forwarded && t.dropped == s.dropped
            && Remaining(t) == if a == WorkerStep(s) && Remaining(s) > 0 then Remaining(s) - 1 else Remaining(s)
  {
  }

  lemma {:induction false} ClosedRun<E>(s: State<E>, steps: seq<Step<E>>)
    requires Inv(s) && s.closed
    ensures var t := Run(s, steps);
            && Inv(t) && t.closed
            && t.accepted == s.accepted && t.forwarded == s.forwarded && t.dropped == s.dropped
            && Remaining(t) == if Turns(s, steps) < Remaining(s) then Remaining(s) - Turns(s, steps) else 0
    decreases |steps|
  {
    hide Inv, Next, Remaining, WorkerStep;
    if steps != [] {
      var n := |steps| - 1;
      ClosedRun(s, steps[..n]);
      var t := Run(s, steps[..n]);
      ClosedStep(t, steps[n]);
      NextInv(t, steps[n]);
    }
  }

  /** Once the channel is closed, in every interleaving: the worker has left its loop
      exactly when it had enough turns to drain the channel, and then it has handled
      every accepted event, in order, and every forwarded one is handled or dropped. */
  lemma ClosedDrains<E>(s: State<E>, steps: seq<Step<E>>)
    requires Inv(s) && s.closed
    ensures var t := Run(s, steps);
            && (t.exited <==> Turns(s, steps) >= Remaining(s))
            && (t.exited ==> t.handled == s.accepted && |t.handled| + t.dropped == |s.forwarded|)
  {
    hide Run, Turns, Subsequence;
    ClosedRun(s, steps);
    var t := Run(s, steps);
    assert t.exited ==> t.handled + [] + [] == t.handled;
  }

  lemma {:induction false} RunCons<E>(s: State<E>, a: Step<E>, steps: seq<Step<E>>)
    ensures Run(s, [a] + steps) == Run(Next(s, a), steps)
    decreases |steps|
  {
    var all := [a] + steps;
    if steps == [] {
      assert all[..0] == [];
    } else {
      var n := |steps| - 1;
      assert all[..|all| - 1] == [a] + steps[..n];
      RunCons(s, a, steps[..n]);
    }
  }

  /** What the worker's next turn brings on an open channel: it waits only where nothing
      is left to do. */
  lemma WorkerTurn<E>(s: State<E>)
    requires Inv(s) && !s.closed
    ensures var t := Next(s, WorkerStep(s));
            if s.queue == [] && s.inHand.None? then t == s.(waiting := true)
            else Remaining(t) == Remaining(s) - 1 && t.accepted == s.accepted && !t.waiting
  {
    hide Subsequence;
  }

  /** From every state the forwards under way can finish, the handles can be dropped and
      the worker can end; it then has handled every accepted event, and every rejected one
      is counted as dropped. */
  lemma {:induction false} CanAlwaysEnd<E>(s: State<E>) returns (steps: seq<Step<E>>)
    requires Inv(s)
    ensures var t := Run(s, steps);
            && t.exited && t.rejecting == 0
            && t.accepted == s.accepted && t.forwarded == s.forwarded && t.handled == s.accepted
            && t.dropped == s.dropped + s.rejecting
    decreases s.rejecting, !s.closed, Remaining(s)
  {
    if s.exited {
      steps := [];
      assert s.handled + [] + [] == s.handled;
    } else {
      var a := if s.rejecting > 0 then CountDrop else if !s.closed then Close else WorkerStep(s);
      NextInv(s, a);
      if s.closed {
        ClosedStep(s, a);
      }
      hide Subsequence, Run, Inv;
      var rest := CanAlwaysEnd(Next(s, a));
      RunCons(s, a, rest);
      steps := [a] + rest;
    }
  }
}
