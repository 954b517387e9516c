/** The event simulator: one queue of messages ordered by arrival and then by scheduling (des/simulator.go). */
module Simulators {
  import opened Lists

  type ModuleId = nat

  datatype Option<T> = None | Some(value: T)

  /** A message to send; without a receiver it goes back to the sender. */
  datatype OutgoingMessage<P> = OutgoingMessage(payload: P, dest: Option<ModuleId>, delay: int)

  datatype QueuedMessage<P> = QueuedMessage(arrival: int, seqNum: nat, source: ModuleId, dest: ModuleId, payload: P)

  predicate Less<P>(a: QueuedMessage<P>, b: QueuedMessage<P>) {
    if a.arrival < b.arrival then true
    else if a.arrival == b.arrival then a.seqNum < b.seqNum
    else false
  }

  /** The message numbered i is the i-th one scheduled; it is either queued or was delivered, once. */
  ghost predicate Accounted<P>(sent: seq<QueuedMessage<P>>, mq: set<QueuedMessage<P>>, log: seq<QueuedMessage<P>>) {
    && (forall i | 0 <= i < |sent| :: sent[i].seqNum == i)
    && NoDuplicates(log) && Elements(log) !! mq && Elements(log) + mq == Elements(sent)
  }

  /** The messages on a list are in the order of the queue. */
  ghost predicate Sorted<P>(log: seq<QueuedMessage<P>>) {
    forall i, j | 0 <= i < j < |log| :: Less(log[i], log[j])
  }

  /** What was delivered came in order and is before everything queued, and the clock stands between the two. */
  ghost predicate Between<P>(log: seq<QueuedMessage<P>>, mq: set<QueuedMessage<P>>, time: int) {
    && Sorted(log) && (forall m, k | m in mq && 0 <= k < |log| :: Less(log[k], m))
    && (forall k | 0 <= k < |log| :: log[k].arrival <= time) && (forall m | m in mq :: time <= m.arrival)
  }

  /** A module asked for msg to be sent. */
  datatype Request<P> = Request(msg: OutgoingMessage<P>, from: ModuleId)

  /** The queued message is the one that was asked for. */
  ghost predicate Carries<P>(m: QueuedMessage<P>, r: Request<P>) {
    && m.source == r.from && m.payload == r.msg.payload
    && (r.msg.dest == None ==> m.dest == r.from) && (r.msg.dest != None ==> r.msg.dest == Some(m.dest))
  }

  /** Every message is the one that was asked for, and arrives its delay after it was scheduled. */
  ghost predicate Stamped<P>(sent: seq<QueuedMessage<P>>, at: seq<int>, requests: seq<Request<P>>) {
    && |at| == |sent| && |requests| == |sent|
    && forall i | 0 <= i < |sent| ::
         sent[i].arrival == at[i] + requests[i].msg.delay && Carries(sent[i], requests[i])
  }

  /** The clock never went back between two messages. */
  ghost predicate Clocked(at: seq<int>, time: int) {
    && (forall i, j | 0 <= i < j < |at| :: at[i] <= at[j]) && (forall i | 0 <= i < |at| :: at[i] <= time)
  }

  lemma ScheduleKeeps<P>(sent: seq<QueuedMessage<P>>, mq: set<QueuedMessage<P>>, log: seq<QueuedMessage<P>>,
                         m: QueuedMessage<P>)
    requires Accounted(sent, mq, log) && m.seqNum == |sent|
    ensures Accounted(sent + [m], mq + {m}, log) && m !in mq
    ensures forall time | Between(log, mq, time) && time <= m.arrival :: Between(log, mq + {m}, time)
  {
    assert forall o | o in Elements(sent) :: o.seqNum < |sent|;
    assert forall k | 0 <= k < |log| :: log[k] in Elements(log);
    assert Elements(sent + [m]) == Elements(sent) + {m};
  }

  lemma DeliverKeeps<P>(sent: seq<QueuedMessage<P>>, mq: set<QueuedMessage<P>>, log: seq<QueuedMessage<P>>,
                        m: QueuedMessage<P>)
    requires Accounted(sent, mq, log) && m in mq && forall o | o in mq && o != m :: Less(m, o)
    ensures Accounted(sent, mq - {m}, log + [m])
    ensures forall time | Between(log, mq, time) :: time <= m.arrival && Between(log + [m], mq - {m}, m.arrival)
  {
    assert Elements(log + [m]) == Elements(log) + {m};
    assert forall k | 0 <= k < |log| :: log[k] in Elements(log);
  }

  /** Different messages have different numbers, so one of any two comes first. */
  lemma NumbersDiffer<P>(sent: seq<QueuedMessage<P>>, a: QueuedMessage<P>, b: QueuedMessage<P>)
    requires (forall i | 0 <= i < |sent| :: sent[i].seqNum == i) && a in sent && b in sent && a != b
    ensures Less(a, b) <==> !Less(b, a)
  {
  }

  lemma {:induction false} LeastExists<P>(sent: seq<QueuedMessage<P>>, mq: set<QueuedMessage<P>>)
    requires (forall i | 0 <= i < |sent| :: sent[i].seqNum == i) && mq <= Elements(sent) && mq != {}
    ensures exists m :: m in mq && forall o | o in mq && o != m :: Less(m, o)
  {
    var x :| x in mq;
    var rest := mq - {x};
    assert forall o | o in mq :: o == x || o in rest;
    if rest == {} {
      assert x in mq && forall o | o in mq && o != x :: Less(x, o);
    } else {
      LeastExists(sent, rest);
      var l :| l in rest && forall o | o in rest && o != l :: Less(l, o);
      NumbersDiffer(sent, x, l);
      var m := if Less(x, l) then x else l;
      assert m == x ==> forall o | o in rest :: Less(x, o);
      assert m in mq && forall o | o in mq && o != m :: Less(m, o);
    }
  }

  class Simulator<W, P(==)> {
    var time: int
    var mq: set<QueuedMessage<P>>
    var seqNum: nat

    /** The modules' own state, and what a module does with a message: payload, sender, receiver, time. */
    var world: W
    const handle: (W, P, ModuleId, ModuleId, int) -> (W, seq<OutgoingMessage<P>>)

    /** All messages scheduled so far with their sending times, as they were asked for and as they were queued, and
        those delivered, in order. */
    ghost var requests: seq<Request<P>>
    ghost var at: seq<int>
    ghost var sent: seq<QueuedMessage<P>>
    ghost var log: seq<QueuedMessage<P>>

    /** Whether no message so far had a negative delay. */
    ghost predicate Causal()
      reads this`requests
    {
      forall i | 0 <= i < |requests| :: requests[i].msg.delay >= 0
    }

    ghost predicate Valid()
      reads this
    {
      && seqNum == |sent| && Accounted(sent, mq, log) && Stamped(sent, at, requests)
      && (Causal() ==> Between(log, mq, time) && Clocked(at, time))
    }

    constructor (world: W, handle: (W, P, ModuleId, ModuleId, int) -> (W, seq<OutgoingMessage<P>>))
      ensures Valid() && time == 0 && mq == {} && seqNum == 0 && sent == [] && log == []
      ensures this.world == world && this.handle == handle
    {
      this.world, this.handle := world, handle;
      time, mq, seqNum := 0, {}, 0;
      sent, at, requests, log := [], [], [], [];
    }

    function EventsQueued(): nat
      reads this
    {
      |mq|
    }

    function EventsDelivered(): int
      reads this
    {
      seqNum - EventsQueued()
    }

    predicate Drained()
      reads this
    {
      EventsQueued() == 0
    }

    /** The counter of delivered events counts them. */
    lemma DeliveredIsCounted()
      requires Valid()
      ensures EventsDelivered() == |log|
    {
      assert forall i, j | 0 <= i < j < |sent| :: sent[i] != sent[j];
      SizeOfElements(sent);
      SizeOfElements(log);
      assert |Elements(log) + mq| == |Elements(log)| + |mq|;
    }

    method ScheduleMessage(msg: OutgoingMessage<P>, source: ModuleId)
      requires Valid()
      modifies this`mq, this`seqNum, this`sent, this`at, this`requests
      ensures Valid() && seqNum == old(seqNum) + 1
      ensures at == old(at) + [time] && requests == old(requests) + [Request(msg, source)]
      ensures |sent| == |old(sent)| + 1 && sent == old(sent) + [sent[|old(sent)|]]
      ensures mq == old(mq) + {sent[|old(sent)|]} && sent[|old(sent)|] !in old(mq)
      ensures var m := sent[|old(sent)|];
        && m.arrival == time + msg.delay && m.seqNum == old(seqNum) && m.source == source && m.payload == msg.payload
        && match msg.dest case Some(d) => m.dest == d case None => m.dest == source
    {
      var m;
      if msg.dest == None {
        m := QueuedMessage(time + msg.delay, seqNum, source, source, msg.payload);
      } else {
        m := QueuedMessage(time + msg.delay, seqNum, source, msg.dest.value, msg.payload);
      }
      ScheduleKeeps(sent, mq, log, m);
      assert forall i | 0 <= i < |requests| :: (requests + [Request(msg, source)])[i] == requests[i];
      mq := mq + {m};
      sent, at, requests := sent + [m], at + [time], requests + [Request(msg, source)];
      seqNum := seqNum + 1;
    }

    /** The message m is queued and before all others. */
    ghost predicate IsNext(m: QueuedMessage<P>)
      reads this`mq
    {
      m in mq && forall o | o in mq && o != m :: Less(m, o)
    }

    /** Some queued message should have arrived before now. */
    ghost predicate Overdue()
      reads this`mq, this`time
    {
      exists m :: m in mq && m.arrival < time
    }

    method Least() returns (m: QueuedMessage<P>)
      requires Valid() && !Drained()
      ensures IsNext(m) && (m.arrival < time <==> Overdue()) && !(Causal() && Overdue())
    {
      LeastExists(sent, mq);
      m :| m in mq && forall o | o in mq && o != m :: Less(m, o);
    }

    /** Take the next message from the queue and move the clock to it. */
    method Advance(m: QueuedMessage<P>)
      requires Valid() && IsNext(m) && time <= m.arrival
      modifies this`mq, this`time, this`log
      ensures Valid() && time == m.arrival && log == old(log) + [m] && mq == old(mq) - {m}
    {
      DeliverKeeps(sent, mq, log, m);
      mq := mq - {m};
      time := m.arrival;
      log := log + [m];
    }

    /** Schedule what the receiver of m answers. */
    method SendAll(nm: seq<OutgoingMessage<P>>, m: QueuedMessage<P>)
      requires Valid() && time == m.arrival
      modifies this`mq, this`seqNum, this`sent, this`at, this`requests
      ensures Valid() && Extends(old(sent), sent, old(requests), requests)
      ensures Asks(requests[|old(requests)|..], nm, m.dest) && AllAt(at, |old(requests)|, time)
    {
      hide Accounted, Between, Clocked, Carries;
      for i := 0 to |nm|
        invariant Valid() && Extends(old(sent), sent, old(requests), requests)
        invariant Asks(requests[|old(requests)|..], nm[..i], m.dest) && AllAt(at, |old(requests)|, time)
      {
        ghost var before := requests;
        ScheduleMessage(nm[i], m.dest);
        assert requests[|old(requests)|..] == before[|old(requests)|..] + [Request(nm[i], m.dest)];
      }
      assert nm[..|nm|] == nm;
    }

    /** Deliver the next message, unless time would go back: then the simulator gives up. That cannot happen as long as
        no delay is negative. */
    method DeliverNextMessage() returns (reversed: bool)
      requires Valid() && !Drained()
      modifies this
      ensures reversed <==> old(Overdue())
      ensures old(Causal()) ==> !reversed
      ensures !reversed ==> Valid() && old(time) <= time && Delivered(old(mq), old(log), log, time)
      ensures !reversed ==> Extends(old(sent), sent, old(requests), requests)
      ensures !reversed ==> Answered(old(world), old(|requests|))
      ensures !reversed ==> HandedAsAsked(old(world), old(requests))
      ensures !reversed ==> |log| == |old(log)| + 1 && old(log) <= log
      ensures reversed ==> requests == old(requests) && sent == old(sent) && log == old(log) && time == old(time)
      ensures reversed ==> exists m | m in old(mq) :: old(IsNext(m)) && mq == old(mq) - {m}
    {
      hide Valid, Causal, Overdue, IsNext, Delivered, Extends, Answered, HandedAsAsked;
      var m := Least();
      reversed := m.arrival < time;
      if reversed {
        mq := mq - {m};
      } else {
        Deliver(m);
      }
    }

    method Deliver(m: QueuedMessage<P>)
      requires Valid() && IsNext(m) && time <= m.arrival
      modifies this
      ensures Valid() && old(time) <= time && Delivered(old(mq), old(log), log, time)
      ensures Extends(old(sent), sent, old(requests), requests) && Answered(old(world), old(|requests|))
      ensures HandedAsAsked(old(world), old(requests)) && |log| == |old(log)| + 1 && old(log) <= log
    {
      hide Valid, Less, Extends;
      QueuedAsAsked(m);
      Advance(m);
      Handle(m);
    }

    /** Let the receiver of m handle it, and send what it answers. */
    method Handle(m: QueuedMessage<P>)
      requires Valid() && time == m.arrival && log != [] && log[|log| - 1] == m
      modifies this`world, this`mq, this`seqNum, this`sent, this`at, this`requests
      ensures Valid() && Extends(old(sent), sent, old(requests), requests) && Answered(old(world), old(|requests|))
    {
      hide Accounted, Stamped, Between, Clocked, Causal, Asks, AllAt;
      var (w, nm) := handle(world, m.payload, m.source, m.dest, time);
      world := w;
      SendAll(nm, m);
    }

    /** Run until the clock passes t or nothing is queued, for at most the given number of steps. The clock is read
        before the delivery, so that the last message delivered may be after t, exactly when the clock ends after t;
        but no message up to t is left behind. */
    method RunUntil(t: int, steps: nat) returns (ending: Ending)
      requires Valid()
      modifies this
      ensures ending == Reversed ==> !Causal()
      ensures ending != Reversed ==> Valid() && old(time) <= time && Extends(old(sent), sent, old(requests), requests)
      ensures ending != Reversed ==> AllHandled(old(world), old(requests), |old(log)|)
      ensures ending != Reversed ==> old(log) <= log && NoneLate(log[|old(log)|..], t)
      ensures ending == OutOfSteps ==> !Drained() && time <= t && |log| == |old(log)| + steps
      ensures ending == Finished ==> Drained() || time > t
      ensures ending == Finished && old(time) <= t ==>
        (time > t <==> log != old(log) && log[|log| - 1].arrival > t)
      ensures ending == Finished && Causal() ==> forall m | m in mq :: t < m.arrival
    {
      hide Accounted, Stamped, Clocked, Causal, Overdue, Answered, Sorted, HandedAsAsked;
      var left := steps;
      while !Drained() && time <= t
        invariant Valid() && old(time) <= time && Extends(old(sent), sent, old(requests), requests)
        invariant AllHandled(old(world), old(requests), |old(log)|)
        invariant old(log) <= log && NoneLate(log[|old(log)|..], t)
        invariant time <= t ==> AllBy(log[|old(log)|..], t)
        invariant if log == old(log) then time == old(time) else time == log[|log| - 1].arrival
        invariant 0 <= left <= steps && |log| == |old(log)| + (steps - left)
        decreases left
      {
        if left == 0 {
          return OutOfSteps;
        }
        left := left - 1;
        ghost var w, r, l := world, requests, log;
        var reversed := StepOn(t, |old(log)|);
        if reversed {
          return Reversed;
        }
        OneMoreHandled(old(world), old(requests), |old(log)|, w, r, l);
      }
      return Finished;
    }

    /** One step of RunUntil, which started when start messages had been delivered. */
    method StepOn(t: int, ghost start: nat) returns (reversed: bool)
      requires Valid() && !Drained() && start <= |log| && AllBy(log[start..], t)
      modifies this
      ensures reversed ==> !Causal()
      ensures !reversed ==> Valid() && old(time) <= time && Extends(old(sent), sent, old(requests), requests)
      ensures !reversed ==> old(log) <= log && NoneLate(log[start..], t) && (time <= t ==> AllBy(log[start..], t))
      ensures !reversed ==> |log| == |old(log)| + 1 && time == log[|log| - 1].arrival
      ensures !reversed ==> Answered(old(world), old(|requests|))
    {
      hide Valid, Overdue, Answered, Extends, HandedAsAsked;
      reversed := DeliverNextMessage();
      assert !reversed ==> log[start..] == old(log)[start..] + [log[|old(log)|]];
    }

    /** Run until nothing is queued. */
    method Run(steps: nat) returns (ending: Ending)
      requires Valid()
      modifies this
      ensures ending == Reversed ==> !Causal()
      ensures ending != Reversed ==> Valid() && old(time) <= time && Extends(old(sent), sent, old(requests), requests)
      ensures ending != Reversed ==> AllHandled(old(world), old(requests), |old(log)|)
      ensures ending != Reversed ==> old(log) <= log
      ensures ending == OutOfSteps ==> !Drained() && |log| == |old(log)| + steps
      ensures ending == Finished ==> Drained() && Elements(log) == Elements(sent)
    {
      hide Stamped, Clocked, Causal, Overdue, Answered, Sorted, Between, HandedAsAsked, Delivered;
      var left := steps;
      while !Drained()
        invariant Valid() && old(time) <= time && Extends(old(sent), sent, old(requests), requests) && old(log) <= log
        invariant AllHandled(old(world), old(requests), |old(log)|)
        invariant 0 <= left <= steps && |log| == |old(log)| + (steps - left)
        decreases left
      {
        if left == 0 {
          return OutOfSteps;
        }
        left := left - 1;
        ghost var w, r, l := world, requests, log;
        var reversed := DeliverNextMessage();
        if reversed {
          return Reversed;
        }
        OneMoreHandled(old(world), old(requests), |old(log)|, w, r, l);
      }
      return Finished;
    }

    /** Of two messages, the one sent first arrives first unless its delay is longer: every link with a constant delay
        is first-in-first-out. */
    lemma FirstInFirstOut(i: nat, j: nat)
      requires Valid() && Causal() && i < j < |sent| && requests[i].msg.delay <= requests[j].msg.delay
      requires sent[j] in log
      ensures exists p, q :: 0 <= p < q < |log| && log[p] == sent[i] && log[q] == sent[j]
    {
      var a, b := sent[i], sent[j];
      assert at[i] <= at[j] && Less(a, b);
      var q :| 0 <= q < |log| && log[q] == b;
      assert a in Elements(sent) && a !in mq;
      assert a in Elements(log);
      var p :| 0 <= p < |log| && log[p] == a;
      assert p < q;
    }

    /** The last delivered message was handled: the modules changed, and their answers were sent. */
    ghost predicate Answered(before: W, asked: nat)
      reads this
    {
      && log != [] && asked <= |requests|
      && var m := log[|log| - 1];
         var (w, nm) := handle(before, m.payload, m.source, m.dest, m.arrival);
         world == w && Asks(requests[asked..], nm, m.dest) && AllAt(at, asked, m.arrival)
    }

    /** Since the modules were in state w, when r had been asked for and start messages delivered, every delivered
        message was handled in turn, and exactly what the modules answered was asked for. */
    ghost predicate AllHandled(w: W, r: seq<Request<P>>, start: nat)
      reads this
    {
      && start <= |log| && world == WorldAfter(handle, w, log[start..])
      && requests == r + AnswersTo(handle, w, log[start..])
    }

    lemma OneMoreHandled(w: W, r: seq<Request<P>>, start: nat, world0: W, requests0: seq<Request<P>>,
                         log0: seq<QueuedMessage<P>>)
      requires start <= |log0| && |log| == |log0| + 1 && log0 <= log && requests0 <= requests
      requires world0 == WorldAfter(handle, w, log0[start..]) && requests0 == r + AnswersTo(handle, w, log0[start..])
      requires Answered(world0, |requests0|)
      ensures AllHandled(w, r, start)
    {
      var m, all := log[|log0|], log[start..];
      assert all[|all| - 1] == m && all[..|all| - 1] == log0[start..];
      var nm := handle(world0, m.payload, m.source, m.dest, m.arrival).1;
      assert requests[|requests0|..] == seq(|nm|, i requires 0 <= i < |nm| => Request(nm[i], m.dest));
      assert requests == requests0 + requests[|requests0|..];
    }

    /** The message delivered last was handled by the module that its sender named, or by the sender if it named none,
        with the sender's payload. */
    ghost predicate HandedAsAsked(before: W, requests: seq<Request<P>>)
      reads this
    {
      && log != [] && log[|log| - 1].seqNum < |requests|
      && var r := requests[log[|log| - 1].seqNum];
         world ==
         handle(before, r.msg.payload, r.from, match r.msg.dest case Some(d) => d case None => r.from, time).0
    }

    lemma QueuedAsAsked(m: QueuedMessage<P>)
      requires Valid() && m in mq
      ensures m.seqNum < |requests| && Carries(m, requests[m.seqNum])
    {
      assert m in Elements(sent);
    }

    /** Every delivered message is the one that was asked for, at the time it was asked for plus its delay. */
    lemma DeliveredAsAsked(m: QueuedMessage<P>)
      requires Valid() && m in log
      ensures m.seqNum < |requests| && Carries(m, requests[m.seqNum])
      ensures m.arrival == at[m.seqNum] + requests[m.seqNum].msg.delay
    {
      assert m in Elements(log);
      assert m in Elements(sent);
    }
  }

  datatype Ending = Finished | Reversed | OutOfSteps

  ghost predicate AllBy<P>(log: seq<QueuedMessage<P>>, t: int) {
    forall k | 0 <= k < |log| :: log[k].arrival <= t
  }

  /** At most the last message is after t. */
  ghost predicate NoneLate<P>(log: seq<QueuedMessage<P>>, t: int) {
    forall k | 0 <= k < |log| - 1 :: log[k].arrival <= t
  }

  /** One more message was delivered, the least of those that were queued, and the clock shows its arrival. */
  ghost predicate Delivered<P>(mq: set<QueuedMessage<P>>, log: seq<QueuedMessage<P>>, log': seq<QueuedMessage<P>>,
                               time: int) {
    && |log'| == |log| + 1 && log <= log'
    && var m := log'[|log|]; m in mq && time == m.arrival && forall o | o in mq && o != m :: Less(m, o)
  }

  /** Module from has asked for its answers to be sent, in their order. */
  ghost predicate Asks<P>(asked: seq<Request<P>>, answers: seq<OutgoingMessage<P>>, from: ModuleId) {
    |asked| == |answers| && forall i | 0 <= i < |asked| :: asked[i].msg == answers[i] && asked[i].from == from
  }

  /** The modules' state after the messages on the list were handled, in order. */
  ghost function WorldAfter<W, P>(handle: (W, P, ModuleId, ModuleId, int) -> (W, seq<OutgoingMessage<P>>), world: W,
                                  log: seq<QueuedMessage<P>>): W {
    if log == [] then world
    else
      var m := log[|log| - 1];
      handle(WorldAfter(handle, world, log[..|log| - 1]), m.payload, m.source, m.dest, m.arrival).0
  }

  /** What the modules have asked for when they handled the messages on the list, in order. */
  ghost function AnswersTo<W, P>(handle: (W, P, ModuleId, ModuleId, int) -> (W, seq<OutgoingMessage<P>>), world: W,
                                 log: seq<QueuedMessage<P>>): seq<Request<P>> {
    if log == [] then []
    else
      var m, front := log[|log| - 1], log[..|log| - 1];
      var nm := handle(WorldAfter(handle, world, front), m.payload, m.source, m.dest, m.arrival).1;
      AnswersTo(handle, world, front) + seq(|nm|, i requires 0 <= i < |nm| => Request(nm[i], m.dest))
  }

  /** From number first on, everything was scheduled at the given time. */
  ghost predicate AllAt(at: seq<int>, first: nat, time: int) {
    forall i | first <= i < |at| :: at[i] == time
  }

  ghost predicate Extends<P>(sent: seq<QueuedMessage<P>>, sent': seq<QueuedMessage<P>>, requests: seq<Request<P>>,
                             requests': seq<Request<P>>) {
    sent <= sent' && requests <= requests'
  }

  lemma {:induction false} SizeOfElements<T>(s: seq<T>)
    requires NoDuplicates(s)
    ensures |Elements(s)| == |s|
  {
    if s != [] {
      SizeOfElements(s[1..]);
      assert s == [s[0]] + s[1..];
      assert Elements(s) == {s[0]} + Elements(s[1..]);
      assert s[0] !in Elements(s[1..]);
    }
  }
}
