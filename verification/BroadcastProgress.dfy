/** A broadcast that was started arrives: from every reachable state deliveries alone finish it. */
module BroadcastProgress {
  import opened Basics
  import opened PubSub

  /** The steps of the workers' own loops. */
  predicate Delivering(e: Event) { e.SendLocal? || e.Publish? || e.Dispatch? || e.SendRemote? }

  predicate OnlyDelivering(es: seq<Event>) { forall e :: e in es ==> Delivering(e) }

  lemma {:induction false} RunAppend(sys: System, a: seq<Event>, b: seq<Event>)
    ensures Run(sys, a + b) == Run(Run(sys, a), b)
    decreases a
  {
    if a == [] {
      assert a + b == b;
    } else {
      assert (a + b)[1..] == a[1..] + b && (a + b)[0] == a[0];
      RunAppend(Next(sys, a[0]), a[1..], b);
    }
  }

  lemma RunFirst(sys: System, e: Event, rest: seq<Event>)
    ensures Run(sys, [e] + rest) == Run(Next(sys, e), rest)
  {
    assert ([e] + rest)[1..] == rest;
  }

  /** What deliveries leave alone: which workers there are, and what was started. */
  ghost predicate SameStarts(a: System, b: System) { a.workers.Keys == b.workers.Keys && a.started == b.started }

  // ---------------------------------------------------------------- the publisher's own task

  /** One socket of a task less. */
  lemma LocalStep(sys: System, x: int, id: int, s: Socket)
    requires Good(sys) && x in sys.workers && id in sys.workers[x].tasks && s in sys.workers[x].tasks[id].pending
    ensures var t := Next(sys, SendLocal(id, s));
      && SameStarts(sys, t) && x in t.workers && id in t.workers[x].tasks
      && t.workers[x].tasks[id].pending == sys.workers[x].tasks[id].pending - {s}
  {
    hide AtMostOnce;
    hide OnlyMembers;
    hide WorkerOk;
    hide Left;
    assert TaskOk(sys, x, id);
    assert s.worker == x;
  }

  lemma {:induction false} TaskSends(sys: System, x: int, id: int) returns (es: seq<Event>)
    requires Good(sys) && x in sys.workers && id in sys.workers[x].tasks
    ensures OnlyDelivering(es)
    ensures var r := Run(sys, es);
      && Good(r) && SameStarts(sys, r) && x in r.workers && id in r.workers[x].tasks
      && r.workers[x].tasks[id].pending == {}
    decreases |sys.workers[x].tasks[id].pending|
  {
    hide Good;
    hide Next;
    if sys.workers[x].tasks[id].pending == {} {
      es := [];
    } else {
      var s :| s in sys.workers[x].tasks[id].pending;
      var e := SendLocal(id, s);
      LocalStep(sys, x, id, s);
      NextKeepsGood(sys, e);
      var rest := TaskSends(Next(sys, e), x, id);
      es := [e] + rest;
      RunFirst(sys, e, rest);
    }
  }

  lemma PublishStep(sys: System, x: int, id: int)
    requires Good(sys) && x in sys.workers && id in sys.workers[x].tasks && sys.workers[x].tasks[id].pending == {}
    ensures var t := Next(sys, Publish(x, id)); SameStarts(sys, t) && id in t.published
  {
  }

  /** A started message gets published. */
  lemma GetsPublished(sys: System, id: int) returns (es: seq<Event>)
    requires Good(sys) && id in sys.started
    ensures OnlyDelivering(es)
    ensures var r := Run(sys, es); Good(r) && SameStarts(sys, r) && id in r.published
  {
    if id in sys.published {
      es := [];
    } else {
      assert UnderWay(sys, id);
      var x := sys.started[id].origin;
      var first := TaskSends(sys, x, id);
      var mid, e := Run(sys, first), Publish(x, id);
      PublishStep(mid, x, id);
      NextKeepsGood(mid, e);
      es := first + [e];
      RunAppend(sys, first, [e]);
      RunFirst(mid, e, []);
      assert [e] + [] == [e];
    }
  }

  // ---------------------------------------------------------------- the other workers

  /** Nothing waits on worker `x`. */
  ghost predicate Idle(sys: System, x: int) {
    && x in sys.workers && sys.workers[x].inbox == []
    && (sys.workers[x].remote.Some? ==> sys.workers[x].remote.value.pending == {})
  }

  /** Steps of one worker's loop leave the queues of the others alone. */
  ghost predicate OthersSame(a: System, b: System, x: int) {
    && SameStarts(a, b) && a.published == b.published
    && forall v :: v in a.workers && v in b.workers && v != x ==>
         b.workers[v].inbox == a.workers[v].inbox && b.workers[v].remote == a.workers[v].remote
  }

  lemma RemoteStep(sys: System, x: int, s: Socket)
    requires Good(sys) && x in sys.workers && sys.workers[x].remote.Some? && s in sys.workers[x].remote.value.pending
    ensures var t := Next(sys, SendRemote(s));
      && OthersSame(sys, t, x) && x in t.workers && t.workers[x].inbox == sys.workers[x].inbox
      && t.workers[x].remote.Some?
      && t.workers[x].remote.value.pending == sys.workers[x].remote.value.pending - {s}
  {
    hide AtMostOnce;
    hide OnlyMembers;
    hide TaskOk;
    hide Left;
    assert WorkerOk(sys, x);
    assert s.worker == x;
  }

  lemma {:induction false} RemoteSends(sys: System, x: int) returns (es: seq<Event>)
    requires Good(sys) && x in sys.workers && sys.workers[x].remote.Some?
    ensures OnlyDelivering(es)
    ensures var r := Run(sys, es);
      && Good(r) && OthersSame(sys, r, x) && x in r.workers && r.workers[x].inbox == sys.workers[x].inbox
      && r.workers[x].remote.Some? && r.workers[x].remote.value.pending == {}
    decreases |sys.workers[x].remote.value.pending|
  {
    hide Good;
    hide Next;
    if sys.workers[x].remote.value.pending == {} {
      es := [];
    } else {
      var s :| s in sys.workers[x].remote.value.pending;
      var e := SendRemote(s);
      RemoteStep(sys, x, s);
      NextKeepsGood(sys, e);
      var rest := RemoteSends(Next(sys, e), x);
      es := [e] + rest;
      RunFirst(sys, e, rest);
    }
  }

  lemma DispatchStep(sys: System, x: int)
    requires x in sys.workers && sys.workers[x].inbox != []
    requires sys.workers[x].remote.Some? ==> sys.workers[x].remote.value.pending == {}
    ensures var t := Next(sys, Dispatch(x));
      OthersSame(sys, t, x) && x in t.workers && t.workers[x].inbox == sys.workers[x].inbox[1..]
  {
  }

  /** The rest of the delivery under way on a worker, if there is one. */
  lemma RemoteEnds(sys: System, x: int) returns (es: seq<Event>)
    requires Good(sys) && x in sys.workers
    ensures OnlyDelivering(es)
    ensures var r := Run(sys, es);
      && Good(r) && OthersSame(sys, r, x) && x in r.workers && r.workers[x].inbox == sys.workers[x].inbox
      && (r.workers[x].remote.Some? ==> r.workers[x].remote.value.pending == {})
  {
    if sys.workers[x].remote.Some? { es := RemoteSends(sys, x); } else { es := []; }
  }

  /** A worker works off its inbox. */
  lemma {:induction false} Drains(sys: System, x: int) returns (es: seq<Event>)
    requires Good(sys) && x in sys.workers
    ensures OnlyDelivering(es)
    ensures var r := Run(sys, es); Good(r) && OthersSame(sys, r, x) && Idle(r, x)
    decreases |sys.workers[x].inbox|
  {
    hide Good;
    hide Next;
    var first := RemoteEnds(sys, x);
    var mid := Run(sys, first);
    if mid.workers[x].inbox == [] {
      es := first;
    } else {
      var e := Dispatch(x);
      DispatchStep(mid, x);
      NextKeepsGood(mid, e);
      var rest := Drains(Next(mid, e), x);
      es := first + ([e] + rest);
      RunAppend(sys, first, [e] + rest);
      RunFirst(mid, e, rest);
    }
  }

  lemma {:induction false} AllDrain(sys: System, xs: set<int>) returns (es: seq<Event>)
    requires Good(sys) && xs <= sys.workers.Keys
    ensures OnlyDelivering(es)
    ensures var r := Run(sys, es);
      && Good(r) && SameStarts(sys, r) && r.published == sys.published && (forall x :: x in xs ==> Idle(r, x))
      && (forall v :: v in sys.workers && v !in xs && Idle(sys, v) ==> Idle(r, v))
    decreases |xs|
  {
    hide Good;
    hide Next;
    if x :| x in xs {
      var first := Drains(sys, x);
      var mid := Run(sys, first);
      assert xs - {x} <= mid.workers.Keys;
      var rest := AllDrain(mid, xs - {x});
      es := first + rest;
      RunAppend(sys, first, rest);
      forall v | v in sys.workers && v !in xs && Idle(sys, v) ensures Idle(mid, v) { assert v in mid.workers.Keys; }
    } else {
      es := [];
    }
  }

  // ---------------------------------------------------------------- the whole broadcast

  lemma PublishedHasNoTask(sys: System, id: int, x: int)
    requires Good(sys) && id in sys.published && x in sys.workers
    ensures id !in sys.workers[x].tasks
  {
    assert id in sys.workers[x].tasks ==> TaskOk(sys, x, id);
  }

  /** Main result: from every reachable state, for every started message, the workers' own steps finish it
      on every worker. */
  lemma EveryBroadcastFinishes(sys: System, id: int) returns (es: seq<Event>)
    requires Good(sys) && id in sys.started
    ensures OnlyDelivering(es)
    ensures var r := Run(sys, es); Good(r) && forall w :: w in sys.workers ==> Finished(r, sys.started[id], w)
  {
    var first := GetsPublished(sys, id);
    var mid := Run(sys, first);
    var rest := AllDrain(mid, mid.workers.Keys);
    var r := Run(mid, rest);
    es := first + rest;
    RunAppend(sys, first, rest);
    forall w | w in sys.workers ensures Finished(r, sys.started[id], w) {
      assert w in mid.workers.Keys && w in r.workers.Keys && Idle(r, w);
      PublishedHasNoTask(r, id, w);
    }
  }

  lemma {:induction false} StartedForGood(sys: System, es: seq<Event>, m: Message)
    requires Known(sys, m)
    ensures Known(Run(sys, es), m)
    decreases es
  {
    hide Known;
    if es != [] {
      StartedStays(sys, es[0], m);
      StartedForGood(Next(sys, es[0]), es[1..], m);
    }
  }

  lemma {:induction false} WorkersStay(sys: System, es: seq<Event>, s: Socket, room: string)
    requires s.worker in sys.workers
    ensures s.worker in Run(sys, es).workers
    decreases es
  {
    if es != [] {
      InRoomNext(sys, es[0], s, room);
      WorkersStay(Next(sys, es[0]), es[1..], s, room);
    }
  }

  lemma DeliveringQuitsNothing(es: seq<Event>, m: Message, s: Socket)
    requires OnlyDelivering(es)
    ensures forall e :: e in es ==> !Quits(e, m, s)
  {
  }

  /** Main result: after a broadcast and any run in which a healthy member stays, deliveries alone bring the
      message to it, exactly once. */
  lemma EveryBroadcastArrives(sys: System, x: int, id: int, room: string, exclude: Option<Socket>, es: seq<Event>,
                              s: Socket)
    returns (more: seq<Event>)
    requires Good(sys) && x in sys.workers && id !in sys.started
    requires var m := Message(id, x, room, exclude); Staying(sys, m, s) && forall e :: e in es ==> !Quits(e, m, s)
    ensures OnlyDelivering(more)
    ensures Count(Run(Run(Next(sys, Broadcast(x, id, room, exclude)), es), more).log, s, id) == 1
  {
    var m, sent := Message(id, x, room, exclude), Next(sys, Broadcast(x, id, room, exclude));
    var later := Run(sent, es);
    BroadcastTotal(sys, x, id, room, exclude, s);
    assert Known(sent, m);
    hide Good;
    hide Next;
    hide Staying;
    hide Finished;
    NextKeepsGood(sys, Broadcast(x, id, room, exclude));
    RunKeepsGood(sent, es);
    StartedForGood(sent, es, m);
    WorkersStay(sent, es, s, room);
    more := EveryBroadcastFinishes(later, id);
    DeliveringQuitsNothing(more, m, s);
    RunAppend(sent, es, more);
    assert forall e :: e in es + more ==> e in es || e in more;
    ExactlyOnce(sys, x, id, room, exclude, es + more, s);
  }

  // ---------------------------------------------------------------- workers that do not listen

  lemma {:induction false} TotalNeverGrows(sys: System, es: seq<Event>, m: Message, s: Socket)
    requires Good(sys) && Known(sys, m) && s.worker in sys.workers
    ensures s.worker in Run(sys, es).workers && Total(Run(sys, es), m, s) <= Total(sys, m, s)
    decreases es
  {
    hide Good;
    hide Known;
    hide Total;
    if es != [] {
      NextKeepsGood(sys, es[0]);
      GoodIsFiled(sys);
      StartedStays(sys, es[0], m);
      InRoomNext(sys, es[0], s, m.room);
      NextTotal(sys, es[0], m, s);
      TotalNeverGrows(Next(sys, es[0]), es[1..], m, s);
    }
  }

  /** What is published while a worker is not subscribed is on its way to nobody there. */
  lemma MissedOnPublishing(sys: System, x: int, id: int, s: Socket)
    requires Good(sys) && x in sys.workers && id in sys.workers[x].tasks && sys.workers[x].tasks[id].pending == {}
    requires s.worker in sys.workers && s.worker != x && !sys.workers[s.worker].subscribed
    ensures id in sys.started && Known(sys, sys.started[id])
    ensures var t := Next(sys, Publish(x, id)); s.worker in t.workers && Total(t, sys.started[id], s) == 0
  {
    hide OnlyMembers;
    hide WorkerOk;
    hide AllUnderWay;
    assert TaskOk(sys, x, id);
    var m := sys.started[id];
    assert Total(sys, m, s) <= 1;
    assert Owed(sys, m, s) >= 1;
  }

  /** And nobody there ever gets it, whatever happens later. */
  lemma UnsubscribedMisses(sys: System, x: int, id: int, es: seq<Event>, s: Socket)
    requires Good(sys) && x in sys.workers && id in sys.workers[x].tasks && sys.workers[x].tasks[id].pending == {}
    requires s.worker in sys.workers && s.worker != x && !sys.workers[s.worker].subscribed
    ensures Count(Run(Next(sys, Publish(x, id)), es).log, s, id) == 0
  {
    hide Good;
    hide Next;
    hide Known;
    hide Count;
    MissedOnPublishing(sys, x, id, s);
    NextKeepsGood(sys, Publish(x, id));
    var m, t := sys.started[id], Next(sys, Publish(x, id));
    StartedStays(sys, Publish(x, id), m);
    assert m.id == id by { GoodIsFiled(sys); }
    TotalNeverGrows(t, es, m, s);
  }

  /** For one, from the start: a worker subscribes, a socket joins a room there, another worker broadcasts to
      the room, and the message arrives. */
  lemma FirstBroadcast(workers: set<int>, x: int, s: Socket, id: int, room: string) returns (more: seq<Event>)
    requires x in workers && s.worker in workers
    ensures OnlyDelivering(more)
    ensures var t := Run(Start(workers), [Subscribe(s.worker), Join(s, room)]);
      Count(Run(Next(t, Broadcast(x, id, room, None)), more).log, s, id) == 1
  {
    var start, a, b := Start(workers), Subscribe(s.worker), Join(s, room);
    var t := Next(Next(start, a), b);
    StartIsGood(workers);
    NextKeepsGood(start, a);
    NextKeepsGood(Next(start, a), b);
    RunFirst(start, a, [b]);
    RunFirst(Next(start, a), b, []);
    assert [a] + [b] == [a, b] && [b] + [] == [b];
    assert Staying(t, Message(id, x, room, None), s);
    more := EveryBroadcastArrives(t, x, id, room, None, [], s);
  }
}
