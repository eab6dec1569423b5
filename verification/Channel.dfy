/**
 The blocking channel of the runtime. `Channel` is the linked queue that the critical sections
 update in place; the rest is the protocol around it: any number of threads that send, receive
 and try to receive, a condition variable whose signal wakes at least one sleeper, and wakeups
 that may be spurious. Each step is one critical section, since the mutex excludes all others.
 */
module Channel {

  class Node {
    const value: int
    var next: Node?

    constructor (value: int)
      ensures this.value == value && next == null
    {
      this.value := value;
      next := null;
    }
  }

  class Channel {
    var head: Node?
    var tail: Node?
    ghost var nodes: seq<Node>

    ghost predicate Valid()
      reads this, nodes
    {
      && (nodes == [] ==> head == null && tail == null)
      && (nodes != [] ==> head == nodes[0] && tail == nodes[|nodes| - 1] && tail.next == null)
      && (forall i :: 0 <= i < |nodes| - 1 ==> nodes[i].next == nodes[i + 1])
      && (forall i, j :: 0 <= i < j < |nodes| ==> nodes[i] != nodes[j])
    }

    ghost function Queue(): seq<int>
      reads this
    {
      seq(|nodes|, i requires 0 <= i < |nodes| reads this => nodes[i].value)
    }

    constructor ()
      ensures Valid() && Queue() == []
    {
      head, tail, nodes := null, null, [];
    }

    /** The critical section of `tinox_channel_send`. */
    method Send(v: int)
      requires Valid()
      modifies this, nodes
      ensures Valid() && Queue() == old(Queue()) + [v]
      ensures fresh(set n | n in nodes && n !in old(nodes))
      ensures forall s: State, wakes | s.queue == old(Queue()) && Enabled(s, Event.Send(v, wakes)) ::
                Next(s, Event.Send(v, wakes)).queue == Queue()
    {
      var node := new Node(v);
      if tail != null {
        tail.next := node;
      } else {
        head := node;
      }
      tail := node;
      nodes := nodes + [node];
    }

    /**
     The critical section of `tinox_channel_try_recv`, which is also how `recv` takes a value:
     each receiving step of the protocol, begun with this queue, leaves this queue, and delivers
     the value returned if there is one.
     */
    method TryRecv() returns (ready: bool, v: int)
      requires Valid()
      modifies this
      ensures Valid()
      ensures ready == (old(Queue()) != [])
      ensures ready ==> old(Queue()) == [v] + Queue()
      ensures !ready ==> Queue() == old(Queue())
      ensures forall s: State, e | s.queue == old(Queue()) && Enabled(s, e) && (e.Recv? || e.Resume? || e.TryRecv?) ::
                Next(s, e).queue == Queue() && Next(s, e).taken == s.taken + if ready then [(e.t, v)] else []
    {
      if head == null {
        ready, v := false, 0;
        forall s: State, e | s.queue == Queue() && Enabled(s, e) && (e.Recv? || e.Resume? || e.TryRecv?)
          ensures Next(s, e).queue == Queue() && Next(s, e).taken == s.taken + []
        {
          NoneTaken(s, e);
        }
        return;
      }
      ghost var was := Queue();
      var node := head;
      head := node.next;
      if head == null {
        tail := null;
      }
      nodes := nodes[1..];
      ready, v := true, node.value;
      assert was == [v] + Queue();
      forall s: State, e | s.queue == was && Enabled(s, e) && (e.Recv? || e.Resume? || e.TryRecv?)
        ensures Next(s, e).queue == Queue() && Next(s, e).taken == s.taken + [(e.t, v)]
      {
        FirstTaken(s, e);
      }
    }
  }

  // ---- The protocol ----

  type Tid = int

  /**
   `sleeping` threads are blocked in the wait; `woken` ones have left it and are about to take
   the mutex and test the queue again. `taken` records every delivery in order.
   */
  datatype State = State(
    queue: seq<int>, sent: seq<int>, taken: seq<(Tid, int)>, sleeping: set<Tid>, woken: set<Tid>)

  datatype Event =
    | Send(v: int, wakes: set<Tid>)
    | Recv(t: Tid)
    | Resume(t: Tid)
    | TryRecv(t: Tid)
    | SpuriousWakeup(t: Tid)

  predicate Enabled(s: State, e: Event) {
    match e
    case Send(_, wakes) => wakes <= s.sleeping && (s.sleeping != {} ==> wakes != {})
    case Recv(t) => t !in s.sleeping && t !in s.woken
    case Resume(t) => t in s.woken
    case TryRecv(t) => t !in s.sleeping && t !in s.woken
    case SpuriousWakeup(t) => t in s.sleeping
  }

  /** Takes the head of the queue. */
  function Take(s: State, t: Tid): State
    requires s.queue != []
  {
    s.(queue := s.queue[1..], taken := s.taken + [(t, s.queue[0])])
  }

  function Next(s: State, e: Event): State
    requires Enabled(s, e)
  {
    match e
    case Send(v, wakes) =>
      s.(queue := s.queue + [v], sent := s.sent + [v], sleeping := s.sleeping - wakes, woken := s.woken + wakes)
    case Recv(t) =>
      if s.queue != [] then Take(s, t) else s.(sleeping := s.sleeping + {t})
    case Resume(t) =>
      var r := s.(woken := s.woken - {t});
      if s.queue != [] then Take(r, t) else r.(sleeping := r.sleeping + {t})
    case TryRecv(t) =>
      if s.queue != [] then Take(s, t) else s
    case SpuriousWakeup(t) =>
      s.(sleeping := s.sleeping - {t}, woken := s.woken + {t})
  }

  /** What is received: any way of receiving takes the first value and leaves its thread running. */
  lemma {:induction false} FirstTaken(s: State, e: Event)
    requires Enabled(s, e) && (e.Recv? || e.Resume? || e.TryRecv?) && s.queue != []
    ensures var r := Next(s, e);
            && s.queue == [s.queue[0]] + r.queue && r.taken == s.taken + [(e.t, s.queue[0])]
            && r.sent == s.sent && r.sleeping == s.sleeping && r.woken == s.woken - {e.t}
  {
  }

  /** With nothing to take, `try_recv` changes nothing; otherwise the thread goes, or goes back, to sleep. */
  lemma {:induction false} NoneTaken(s: State, e: Event)
    requires Enabled(s, e) && (e.Recv? || e.Resume? || e.TryRecv?) && s.queue == []
    ensures var r := Next(s, e);
            && r.queue == [] && r.taken == s.taken && r.sent == s.sent
            && (if e.TryRecv? then r == s else e.t in r.sleeping)
            && r.sleeping - {e.t} == s.sleeping - {e.t} && r.woken == s.woken - {e.t}
  {
  }

  /** A wakeup, by a signal or for no reason, leaves its thread ready to test the queue again. */
  lemma {:induction false} WokenCanResume(s: State, e: Event, t: Tid)
    requires Enabled(s, e) && t in s.sleeping
    ensures (e.Send? && t in e.wakes) || e == SpuriousWakeup(t) <==> t !in Next(s, e).sleeping
    ensures t !in Next(s, e).sleeping ==> Enabled(Next(s, e), Resume(t)) && Next(s, e).taken == s.taken
  {
  }

  const Start: State := State([], [], [], {}, {})

  /** The events can happen one after the other, from the start, ending in `s`. */
  ghost predicate Reaches(events: seq<Event>, s: State)
    decreases |events|
  {
    if events == [] then s == Start
    else
      var n := |events| - 1;
      exists r :: Reaches(events[..n], r) && Enabled(r, events[n]) && s == Next(r, events[n])
  }

  function Values(taken: seq<(Tid, int)>): (r: seq<int>)
    ensures |r| == |taken|
  {
    seq(|taken|, i requires 0 <= i < |taken| => taken[i].1)
  }

  /** Deliveries so far followed by the queue are what was sent, and no wakeup is owed. */
  ghost predicate Inv(s: State) {
    && Values(s.taken) + s.queue == s.sent
    && s.sleeping !! s.woken
    && (s.sleeping != {} ==> |s.woken| >= |s.queue|)
  }

  lemma {:induction false} TakeKeepsOrder(s: State, t: Tid)
    requires s.queue != [] && Values(s.taken) + s.queue == s.sent
    ensures Values(Take(s, t).taken) + Take(s, t).queue == s.sent
  {
    var r := Take(s, t);
    assert Values(r.taken) == Values(s.taken) + [s.queue[0]];
    assert s.queue == [s.queue[0]] + s.queue[1..];
  }

  /** Every critical section keeps the invariant. */
  lemma {:induction false} StepKeepsInv(s: State, e: Event)
    requires Inv(s) && Enabled(s, e)
    ensures Inv(Next(s, e))
  {
    var r := Next(s, e);
    match e
    case Send(v, wakes) =>
      assert Values(s.taken) + (s.queue + [v]) == s.sent + [v];
      if r.sleeping != {} {
        assert s.sleeping != {};
        assert |s.woken + wakes| == |s.woken| + |wakes|;
        assert |wakes| > 0;
      }
    case Recv(t) =>
      if s.queue != [] { TakeKeepsOrder(s, t); }
    case Resume(t) =>
      assert |s.woken - {t}| == |s.woken| - 1;
      if s.queue != [] { TakeKeepsOrder(s.(woken := s.woken - {t}), t); }
    case TryRecv(t) =>
      if s.queue != [] { TakeKeepsOrder(s, t); }
    case SpuriousWakeup(t) =>
      assert |s.woken + {t}| == |s.woken| + 1;
  }

  /** Safety over every interleaving: delivery is in order and complete, and no wakeup is lost. */
  lemma {:induction false} ReachableInv(events: seq<Event>, s: State)
    requires Reaches(events, s)
    ensures Inv(s)
    decreases |events|
  {
    if events != [] {
      var n := |events| - 1;
      var r :| Reaches(events[..n], r) && Enabled(r, events[n]) && s == Next(r, events[n]);
      ReachableInv(events[..n], r);
      StepKeepsInv(r, events[n]);
    }
  }

  // ---- What a receive gives ----

  /** The deliveries to one thread. */
  function Deliveries(taken: seq<(Tid, int)>, t: Tid): nat {
    if taken == [] then 0
    else Deliveries(taken[..|taken| - 1], t) + if taken[|taken| - 1].0 == t then 1 else 0
  }

  /** How often a thread calls `recv`. */
  function Receives(events: seq<Event>, t: Tid): nat {
    if events == [] then 0
    else Receives(events[..|events| - 1], t) + if events[|events| - 1] == Recv(t) then 1 else 0
  }

  /** How often it calls `try_recv`. */
  function Tries(events: seq<Event>, t: Tid): nat {
    if events == [] then 0
    else Tries(events[..|events| - 1], t) + if events[|events| - 1] == TryRecv(t) then 1 else 0
  }

  predicate Blocked(s: State, t: Tid) { t in s.sleeping || t in s.woken }

  /** The deliveries to a thread, and the one that it waits for. */
  function Had(s: State, t: Tid): nat { Deliveries(s.taken, t) + if Blocked(s, t) then 1 else 0 }

  lemma {:induction false} TakeDelivers(s: State, e: Event, t: Tid)
    requires Inv(s) && Enabled(s, e) && (e.Recv? || e.Resume? || e.TryRecv?) && s.queue != []
    ensures Had(Next(s, e), t) == Had(s, t) + if e == Recv(t) || e == TryRecv(t) then 1 else 0
  {
    FirstTaken(s, e);
    assert Next(s, e).taken[..|s.taken|] == s.taken;
  }

  lemma {:induction false} WaitDelivers(s: State, e: Event, t: Tid)
    requires Enabled(s, e) && (e.Recv? || e.Resume? || e.TryRecv?) && s.queue == []
    ensures Had(Next(s, e), t) == Had(s, t) + if e == Recv(t) then 1 else 0
  {
    NoneTaken(s, e);
  }

  lemma {:induction false} StepDeliveries(s: State, e: Event, t: Tid)
    requires Inv(s) && Enabled(s, e)
    ensures Had(Next(s, e), t) ==
            Had(s, t) + if e == Recv(t) || (e == TryRecv(t) && s.queue != []) then 1 else 0
  {
    if e.Recv? || e.Resume? || e.TryRecv? {
      if s.queue != [] {
        TakeDelivers(s, e, t);
      } else {
        WaitDelivers(s, e, t);
      }
    }
  }

  /**
   In every run, each call of `recv` by a thread has taken exactly one value or is still blocked,
   and each call of `try_recv` has taken at most one.
   */
  lemma {:induction false} EachReceiveTakesOne(events: seq<Event>, s: State, t: Tid)
    requires Reaches(events, s)
    ensures Receives(events, t) <= Had(s, t) <= Receives(events, t) + Tries(events, t)
    decreases |events|
  {
    if events != [] {
      var n := |events| - 1;
      var r :| Reaches(events[..n], r) && Enabled(r, events[n]) && s == Next(r, events[n]);
      ReachableInv(events[..n], r);
      EachReceiveTakesOne(events[..n], r, t);
      StepDeliveries(r, events[n], t);
    }
  }

  // ---- Nobody is left behind ----

  lemma {:induction false} Member(ts: set<Tid>) returns (t: Tid)
    requires |ts| > 0
    ensures t in ts
  {
    NoneIsEmpty(ts);
    t :| t in ts;
  }

  lemma {:induction false} NoneIsEmpty(ts: set<Tid>)
    ensures (forall x :: x !in ts) ==> ts == {}
  {
    if forall x :: x !in ts {
      assert ts == {};
    }
  }

  /** With messages waiting while someone sleeps, some woken thread will take the oldest of them. */
  lemma {:induction false} SomeoneWillTake(events: seq<Event>, s: State) returns (t: Tid)
    requires Reaches(events, s) && s.queue != [] && s.sleeping != {}
    ensures t in s.woken && Enabled(s, Resume(t))
    ensures Next(s, Resume(t)).taken == s.taken + [(t, s.queue[0])]
  {
    ReachableInv(events, s);
    t := Member(s.woken);
  }

  /** The woken threads in some order, resuming one after the other. */
  ghost predicate Resumes(s: State, order: seq<Tid>, r: State)
    decreases |order|
  {
    if order == [] then r == s
    else Enabled(s, Resume(order[0])) && Resumes(Next(s, Resume(order[0])), order[1..], r)
  }

  /**
   Nobody is left behind: once all woken threads have run, in any order and with no further
   event, either every message has been delivered or no thread sleeps.
   */
  lemma {:induction false} WokenDrainQueue(s: State, order: seq<Tid>, r: State)
    requires Inv(s) && Resumes(s, order, r) && r.woken == {}
    ensures r.queue == [] || r.sleeping == {}
    decreases |order|
  {
    if order != [] {
      StepKeepsInv(s, Resume(order[0]));
      WokenDrainQueue(Next(s, Resume(order[0])), order[1..], r);
    }
  }
}
