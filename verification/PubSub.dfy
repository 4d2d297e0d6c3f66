/** Rooms of websockets on several workers: local delivery first, then fan-out through one broker. */
module PubSub {
  import opened Basics

  /** A socket lives on one worker. */
  datatype Socket = Socket(worker: int, id: int)

  type Rooms = map<string, set<Socket>>

  function Members(rooms: Rooms, room: string): set<Socket> { if room in rooms then rooms[room] else {} }

  function Joined(rooms: Rooms, s: Socket, room: string): Rooms { rooms[room := Members(rooms, room) + {s}] }

  /** `disconnect`: out of one room, or of every room; rooms left empty are deleted. */
  function Left(rooms: Rooms, s: Socket, room: Option<string>): Rooms {
    map r | r in rooms && (!(room.None? || room.value == r) || rooms[r] - {s} != {}) ::
      if room.None? || room.value == r then rooms[r] - {s} else rooms[r]
  }

  ghost predicate NoEmptyRooms(rooms: Rooms) { forall r :: r in rooms ==> rooms[r] != {} }

  // ---------------------------------------------------------------- the workers

  /** The origin of a message is the worker that broadcasts it. */
  datatype Message = Message(id: int, origin: int, room: string, exclude: Option<Socket>)

  /** Sockets a delivery has still to reach. */
  datatype Delivery = Delivery(message: Message, pending: set<Socket>)

  /** `inbox` stands for the broker's stream to this worker and the queue behind it. */
  datatype Worker = Worker(rooms: Rooms, subscribed: bool, inbox: seq<Message>,
                           tasks: map<int, Delivery>, remote: Option<Delivery>)

  /** The log records every successful send, `failed` the sockets a send has failed to, and `snapshots`
      the members each delivery started from. */
  datatype System = System(workers: map<int, Worker>, log: seq<(Socket, int)>,
                           started: map<int, Message>, published: set<int>,
                           dead: set<Socket>, failed: set<Socket>, snapshots: map<(int, int), set<Socket>>)

  datatype Event =
    | Join(s: Socket, room: string)
    | Leave(s: Socket, from: Option<string>)
    | Die(s: Socket)
    | Subscribe(w: int)
    | Broadcast(w: int, id: int, room: string, exclude: Option<Socket>)
    | SendLocal(id: int, s: Socket)
    | Publish(w: int, id: int)
    | Dispatch(w: int)
    | SendRemote(s: Socket)

  function With(sys: System, w: int, worker: Worker): System { sys.(workers := sys.workers[w := worker]) }

  /** `_send`: skipped, delivered, or failed and disconnected from every room. */
  function Send(sys: System, s: Socket, m: Message, excluded: bool): System
    requires s.worker in sys.workers
  {
    var w := sys.workers[s.worker];
    if excluded then sys
    else if s in sys.dead then With(sys, s.worker, w.(rooms := Left(w.rooms, s, None))).(failed := sys.failed + {s})
    else sys.(log := sys.log + [(s, m.id)])
  }

  function Next(sys: System, e: Event): System {
    match e
    case Join(s, room) =>
      if s.worker !in sys.workers then sys else
      var w := sys.workers[s.worker];
      With(sys, s.worker, w.(rooms := Joined(w.rooms, s, room)))
    case Leave(s, from) =>
      if s.worker !in sys.workers then sys else
      var w := sys.workers[s.worker];
      With(sys, s.worker, w.(rooms := Left(w.rooms, s, from)))
    case Die(s) => sys.(dead := sys.dead + {s})
    case Subscribe(x) => if x !in sys.workers then sys else With(sys, x, sys.workers[x].(subscribed := true))
    case Broadcast(x, id, room, exclude) =>
      if x !in sys.workers || id in sys.started then sys else
      var w, m := sys.workers[x], Message(id, x, room, exclude);
      With(sys, x, w.(tasks := w.tasks[id := Delivery(m, Members(w.rooms, room))]))
        .(started := sys.started[id := m], snapshots := sys.snapshots[(x, id) := Members(w.rooms, room)])
    case SendLocal(id, s) =>
      if s.worker !in sys.workers || id !in sys.workers[s.worker].tasks ||
        s !in sys.workers[s.worker].tasks[id].pending then sys else
      var w := sys.workers[s.worker];
      var d := w.tasks[id];
      Send(With(sys, s.worker, w.(tasks := w.tasks[id := d.(pending := d.pending - {s})])), s, d.message,
        d.message.exclude == Some(s))
    case Publish(x, id) =>
      if x !in sys.workers || id !in sys.workers[x].tasks || sys.workers[x].tasks[id].pending != {} then sys else
      var m := sys.workers[x].tasks[id].message;
      sys.(published := sys.published + {id}, workers := map v | v in sys.workers ::
        Received(sys.workers[v], m, v == x))
    case Dispatch(x) =>
      if x !in sys.workers || sys.workers[x].inbox == [] ||
        (sys.workers[x].remote.Some? && sys.workers[x].remote.value.pending != {}) then sys else
      var w := sys.workers[x];
      var m := w.inbox[0];
      if m.origin == x then With(sys, x, w.(inbox := w.inbox[1..], remote := None)) else
      With(sys, x, w.(inbox := w.inbox[1..], remote := Some(Delivery(m, Members(w.rooms, m.room)))))
        .(snapshots := sys.snapshots[(x, m.id) := Members(w.rooms, m.room)])
    case SendRemote(s) =>
      if s.worker !in sys.workers || sys.workers[s.worker].remote.None? ||
        s !in sys.workers[s.worker].remote.value.pending then sys else
      var w := sys.workers[s.worker];
      var d := w.remote.value;
      Send(With(sys, s.worker, w.(remote := Some(d.(pending := d.pending - {s})))), s, d.message, false)
  }

  /** What publishing does to each worker; the publisher's own task ends. */
  function Received(w: Worker, m: Message, own: bool): Worker {
    w.(inbox := if w.subscribed then w.inbox + [m] else w.inbox, tasks := if own then w.tasks - {m.id} else w.tasks)
  }

  function Run(sys: System, es: seq<Event>): System
    decreases es
  {
    if es == [] then sys else Run(Next(sys, es[0]), es[1..])
  }

  function Start(workers: set<int>): System {
    System(map w | w in workers :: Worker(map[], false, [], map[], None), [], map[], {}, {}, {}, map[])
  }

  // ---------------------------------------------------------------- deliveries, made and to come

  function Count(log: seq<(Socket, int)>, s: Socket, id: int): nat {
    if log == [] then 0 else Count(log[..|log| - 1], s, id) + if log[|log| - 1] == (s, id) then 1 else 0
  }

  /** Deliveries of `m` to `s` that may still come: through the publisher's task, or through the
      broker, the inbox and the delivery behind it. */
  function Owed(sys: System, m: Message, s: Socket): nat
    requires s.worker in sys.workers
  {
    var w := sys.workers[s.worker];
    if s.worker == m.origin then
      if m.id in w.tasks && s in w.tasks[m.id].pending then 1 else 0
    else
      (if m.id in sys.published then 0 else 1) + multiset(w.inbox)[m] + Behind(w, m, s)
  }

  function Behind(w: Worker, m: Message, s: Socket): nat {
    if w.remote.Some? && w.remote.value.message == m && s in w.remote.value.pending then 1 else 0
  }

  /** Deliveries of `m` to `s`, made and to come. */
  function Total(sys: System, m: Message, s: Socket): nat
    requires s.worker in sys.workers
  {
    Count(sys.log, s, m.id) + Owed(sys, m, s)
  }

  /** No message reaches a socket twice, now or later. */
  ghost predicate AtMostOnce(sys: System) {
    forall id, s: Socket :: id in sys.started && s.worker in sys.workers ==> Total(sys, sys.started[id], s) <= 1
  }

  /** Messages in flight are started ones, in the place their ids say. */
  ghost predicate WellFiled(sys: System) {
    && (forall id :: id in sys.started ==> sys.started[id].id == id)
    && (forall w, id :: w in sys.workers && id in sys.workers[w].tasks ==> TaskOk(sys, w, id))
    && (forall w :: w in sys.workers ==> WorkerOk(sys, w))
    && (forall id :: id in sys.published ==> id in sys.started)
  }

  /** Every started message is published, or its task still runs. */
  ghost predicate AllUnderWay(sys: System) { forall id :: id in sys.started ==> UnderWay(sys, id) }

  ghost predicate UnderWay(sys: System, id: int)
    requires id in sys.started
  {
    var x := sys.started[id].origin;
    id in sys.published || (x in sys.workers && id in sys.workers[x].tasks)
  }

  ghost predicate TaskOk(sys: System, w: int, id: int)
    requires w in sys.workers && id in sys.workers[w].tasks
  {
    && id in sys.started && sys.started[id] == sys.workers[w].tasks[id].message && sys.started[id].origin == w
    && id !in sys.published && (w, id) in sys.snapshots && sys.workers[w].tasks[id].pending <= sys.snapshots[(w, id)]
    && Own(sys.workers[w].tasks[id].pending, w)
  }

  ghost predicate Own(sockets: set<Socket>, w: int) { forall s :: s in sockets ==> s.worker == w }

  ghost predicate WorkerOk(sys: System, x: int)
    requires x in sys.workers
  {
    var w := sys.workers[x];
    && (forall m :: m in w.inbox ==> Known(sys, m) && m.id in sys.published)
    && (w.remote.Some? ==> (var d := w.remote.value;
         Known(sys, d.message) && d.message.id in sys.published && d.message.origin != x
         && (x, d.message.id) in sys.snapshots && d.pending <= sys.snapshots[(x, d.message.id)]
         && Own(d.pending, x)))
    && RoomsOk(w.rooms, x)
  }

  /** No empty room, and only the worker's own sockets. */
  ghost predicate RoomsOk(rooms: Rooms, x: int) {
    NoEmptyRooms(rooms) && forall r, s :: r in rooms && s in rooms[r] ==> s.worker == x
  }

  ghost predicate Known(sys: System, m: Message) { m.id in sys.started && sys.started[m.id] == m }

  /** Only members of the room at the snapshot were reached, and not the excluded one. */
  ghost predicate OnlyMembers(sys: System) {
    forall i :: 0 <= i < |sys.log| ==> Reached(sys, sys.log[i].0, sys.log[i].1)
  }

  ghost predicate Reached(sys: System, s: Socket, id: int) {
    && id in sys.started && (s.worker, id) in sys.snapshots && s in sys.snapshots[(s.worker, id)]
    && (sys.started[id].origin == s.worker ==> sys.started[id].exclude != Some(s))
  }

  ghost predicate Good(sys: System) { WellFiled(sys) && AtMostOnce(sys) && OnlyMembers(sys) && AllUnderWay(sys) }

  lemma MembersOwn(rooms: Rooms, x: int, room: string)
    requires RoomsOk(rooms, x)
    ensures Own(Members(rooms, room), x)
  {
  }

  lemma CountAdd(log: seq<(Socket, int)>, x: (Socket, int), s: Socket, id: int)
    ensures Count(log + [x], s, id) == Count(log, s, id) + if x == (s, id) then 1 else 0
  {
    assert (log + [x])[..|log|] == log;
  }

  lemma {:induction false} CountMeans(log: seq<(Socket, int)>, s: Socket, id: int)
    ensures Count(log, s, id) > 0 <==> (s, id) in log
  {
    if log != [] {
      assert log == log[..|log| - 1] + [log[|log| - 1]];
      CountMeans(log[..|log| - 1], s, id);
    }
  }

  // ---------------------------------------------------------------- what every event keeps

  lemma NextKeepsFiled(sys: System, e: Event)
    requires WellFiled(sys)
    ensures WellFiled(Next(sys, e))
  {
    match e
    case Publish(x, id) => PublishKeepsFiled(sys, x, id);
    case SendLocal(id, s) => SendLocalKeepsFiled(sys, id, s);
    case SendRemote(_) =>
    case Dispatch(x) => DispatchKeepsFiled(sys, x);
    case _ => OthersKeepFiled(sys, e);
  }

  lemma OthersKeepFiled(sys: System, e: Event)
    requires WellFiled(sys) && !e.Publish? && !e.SendLocal? && !e.SendRemote? && !e.Dispatch?
    ensures WellFiled(Next(sys, e))
  {
    match e
    case Join(s, room) =>
      if s.worker in sys.workers {
        assert WorkerOk(sys, s.worker);
      }
    case Leave(s, from) =>
      if s.worker in sys.workers {
        assert WorkerOk(sys, s.worker);
      }
    case _ => StartsKeepFiled(sys, e);
  }

  lemma StartsKeepFiled(sys: System, e: Event)
    requires WellFiled(sys) && (e.Die? || e.Subscribe? || e.Broadcast?)
    ensures WellFiled(Next(sys, e))
  {
    hide RoomsOk;
    hide Members;
    hide Own;
    var t := Next(sys, e);
    if e.Broadcast? && e.w in sys.workers {
      assert WorkerOk(sys, e.w);
      MembersOwn(sys.workers[e.w].rooms, e.w, e.room);
    }
    forall w, id | w in t.workers && id in t.workers[w].tasks ensures TaskOk(t, w, id) {
      if w in sys.workers && id in sys.workers[w].tasks { assert TaskOk(sys, w, id); }
    }
    forall w | w in t.workers ensures WorkerOk(t, w) {
      assert WorkerOk(sys, w);
    }
  }

  lemma PublishKeepsFiled(sys: System, x: int, id: int)
    requires WellFiled(sys)
    ensures WellFiled(Next(sys, Publish(x, id)))
  {
    var t := Next(sys, Publish(x, id));
    if t != sys {
      assert TaskOk(sys, x, id);
      forall w, i | w in t.workers && i in t.workers[w].tasks ensures TaskOk(t, w, i) {
        assert TaskOk(sys, w, i);
      }
      forall w | w in t.workers ensures WorkerOk(t, w) {
        assert WorkerOk(sys, w);
      }
    }
  }

  /** A worker stays in order when neither it nor anything it names changes. */
  lemma WorkerCarried(a: System, b: System, w: int)
    requires w in a.workers && w in b.workers && a.workers[w] == b.workers[w] && WorkerOk(a, w)
    requires a.started == b.started && a.published == b.published
    requires forall id :: (w, id) in a.snapshots ==>
      (w, id) in b.snapshots && a.snapshots[(w, id)] == b.snapshots[(w, id)]
    ensures WorkerOk(b, w)
  {
    hide RoomsOk;
  }

  lemma DispatchKeepsOwn(sys: System, x: int)
    requires WellFiled(sys) && Next(sys, Dispatch(x)) != sys
    ensures x in Next(sys, Dispatch(x)).workers && WorkerOk(Next(sys, Dispatch(x)), x)
  {
    hide RoomsOk;
    hide TaskOk;
    hide Members;
    hide Own;
    var m := sys.workers[x].inbox[0];
    assert WorkerOk(sys, x) && m in sys.workers[x].inbox;
    MembersOwn(sys.workers[x].rooms, x, m.room);
  }

  lemma DispatchKeepsWorker(sys: System, x: int, w: int)
    requires WellFiled(sys) && Next(sys, Dispatch(x)) != sys && w in sys.workers
    ensures w in Next(sys, Dispatch(x)).workers && WorkerOk(Next(sys, Dispatch(x)), w)
  {
    hide WorkerOk;
    hide TaskOk;
    if w == x { DispatchKeepsOwn(sys, x); } else { WorkerCarried(sys, Next(sys, Dispatch(x)), w); }
  }

  lemma DispatchKeepsFiled(sys: System, x: int)
    requires WellFiled(sys)
    ensures WellFiled(Next(sys, Dispatch(x)))
  {
    var t := Next(sys, Dispatch(x));
    if t != sys {
      assert WorkerOk(sys, x) && sys.workers[x].inbox[0] in sys.workers[x].inbox;
      forall w, i | w in t.workers && i in t.workers[w].tasks ensures TaskOk(t, w, i) {
        assert TaskOk(sys, w, i);
      }
      forall w | w in t.workers ensures WorkerOk(t, w) {
        DispatchKeepsWorker(sys, x, w);
      }
    }
  }

  lemma SendKeepsFiled(sys: System, s: Socket, m: Message, excluded: bool)
    requires WellFiled(sys) && s.worker in sys.workers
    ensures WellFiled(Send(sys, s, m, excluded))
  {
    var t := Send(sys, s, m, excluded);
    forall w, i | w in t.workers && i in t.workers[w].tasks ensures TaskOk(t, w, i) {
      assert TaskOk(sys, w, i);
    }
    forall w | w in t.workers ensures WorkerOk(t, w) {
      assert WorkerOk(sys, w);
    }
  }

  lemma SendLocalKeepsFiled(sys: System, id: int, s: Socket)
    requires WellFiled(sys)
    ensures WellFiled(Next(sys, SendLocal(id, s)))
  {
    if s.worker in sys.workers && id in sys.workers[s.worker].tasks && s in sys.workers[s.worker].tasks[id].pending {
      var w := sys.workers[s.worker];
      var d := w.tasks[id];
      var mid := With(sys, s.worker, w.(tasks := w.tasks[id := d.(pending := d.pending - {s})]));
      forall v, i | v in mid.workers && i in mid.workers[v].tasks ensures TaskOk(mid, v, i) {
        assert TaskOk(sys, v, i);
      }
      forall v | v in mid.workers ensures WorkerOk(mid, v) {
        assert WorkerOk(sys, v);
      }
      SendKeepsFiled(mid, s, d.message, d.message.exclude == Some(s));
    }
  }

  // ---------------------------------------------------------------- deliveries are conserved

  /** A healthy member of `m`'s room on the publisher's worker or a subscribed one, not the one the
      sender excluded. */
  ghost predicate Staying(sys: System, m: Message, s: Socket) {
    && s.worker in sys.workers && s in Members(sys.workers[s.worker].rooms, m.room) && s !in sys.dead
    && if m.origin == s.worker then m.exclude != Some(s) else sys.workers[s.worker].subscribed
  }

  /** An event by which `s` leaves the room or dies. */
  predicate Quits(e: Event, m: Message, s: Socket) {
    || (e.Leave? && e.s == s && (e.from.None? || e.from.value == m.room))
    || (e.Die? && e.s == s)
  }

  /** What is owed depends only on the queues. */
  lemma OwedFrame(a: System, b: System, m: Message, s: Socket)
    requires s.worker in a.workers && s.worker in b.workers && a.published == b.published
    requires var v, w := a.workers[s.worker], b.workers[s.worker];
      v.inbox == w.inbox && v.tasks == w.tasks && v.remote == w.remote
    ensures Owed(a, m, s) == Owed(b, m, s)
  {
  }

  lemma SendTotal(sys: System, x: Socket, n: Message, excluded: bool, m: Message, s: Socket)
    requires x.worker in sys.workers && s.worker in sys.workers
    ensures Total(Send(sys, x, n, excluded), m, s) ==
      Total(sys, m, s) + if x == s && n.id == m.id && !excluded && x !in sys.dead then 1 else 0
  {
    hide Owed;
    hide Count;
    hide Left;
    OwedFrame(sys, Send(sys, x, n, excluded), m, s);
    CountAdd(sys.log, (x, n.id), s, m.id);
  }

  lemma SendLocalTotal(sys: System, id: int, x: Socket, m: Message, s: Socket)
    requires WellFiled(sys) && Known(sys, m) && s.worker in sys.workers
    ensures Total(Next(sys, SendLocal(id, x)), m, s) <= Total(sys, m, s)
    ensures Staying(sys, m, s) ==> Total(Next(sys, SendLocal(id, x)), m, s) == Total(sys, m, s)
  {
    hide Count;
    hide RoomsOk;
    hide Send;
    if x.worker in sys.workers && id in sys.workers[x.worker].tasks && x in sys.workers[x.worker].tasks[id].pending {
      var w := sys.workers[x.worker];
      var d := w.tasks[id];
      assert TaskOk(sys, x.worker, id);
      var mid := With(sys, x.worker, w.(tasks := w.tasks[id := d.(pending := d.pending - {x})]));
      SendTotal(mid, x, d.message, d.message.exclude == Some(x), m, s);
      assert Total(mid, m, s) == Total(sys, m, s) - if x == s && id == m.id then 1 else 0;
    }
  }

  lemma SendRemoteTotal(sys: System, x: Socket, m: Message, s: Socket)
    requires WellFiled(sys) && Known(sys, m) && s.worker in sys.workers
    ensures Total(Next(sys, SendRemote(x)), m, s) <= Total(sys, m, s)
    ensures Staying(sys, m, s) ==> Total(Next(sys, SendRemote(x)), m, s) == Total(sys, m, s)
  {
    hide Count;
    hide RoomsOk;
    hide Send;
    if x.worker in sys.workers && sys.workers[x.worker].remote.Some? &&
      x in sys.workers[x.worker].remote.value.pending {
      var w := sys.workers[x.worker];
      var d := w.remote.value;
      assert WorkerOk(sys, x.worker);
      var mid := With(sys, x.worker, w.(remote := Some(d.(pending := d.pending - {x}))));
      SendTotal(mid, x, d.message, false, m, s);
      assert Total(mid, m, s) == Total(sys, m, s) - if x == s && d.message == m then 1 else 0;
    }
  }

  lemma PublishOwedHere(sys: System, x: int, id: int, m: Message, s: Socket)
    requires WellFiled(sys) && s.worker in sys.workers && s.worker == m.origin
    ensures var t := Next(sys, Publish(x, id)); s.worker in t.workers && Owed(t, m, s) == Owed(sys, m, s)
  {
    hide WorkerOk;
    hide Members;
    if x in sys.workers && id in sys.workers[x].tasks { assert TaskOk(sys, x, id); }
  }

  lemma PublishOwedAway(sys: System, x: int, id: int, m: Message, s: Socket)
    requires WellFiled(sys) && Known(sys, m) && s.worker in sys.workers && s.worker != m.origin
    ensures var t := Next(sys, Publish(x, id));
      && s.worker in t.workers && Owed(t, m, s) <= Owed(sys, m, s)
      && (sys.workers[s.worker].subscribed ==> Owed(t, m, s) == Owed(sys, m, s))
  {
    hide WorkerOk;
    hide Members;
    if x in sys.workers && id in sys.workers[x].tasks {
      assert TaskOk(sys, x, id);
      var n := sys.workers[x].tasks[id].message;
      assert multiset(sys.workers[s.worker].inbox + [n])[m] ==
        multiset(sys.workers[s.worker].inbox)[m] + if n == m then 1 else 0;
    }
  }

  lemma PublishTotal(sys: System, x: int, id: int, m: Message, s: Socket)
    requires WellFiled(sys) && Known(sys, m) && s.worker in sys.workers
    ensures Total(Next(sys, Publish(x, id)), m, s) <= Total(sys, m, s)
    ensures Staying(sys, m, s) ==> Total(Next(sys, Publish(x, id)), m, s) == Total(sys, m, s)
  {
    hide Count;
    hide Owed;
    hide WellFiled;
    hide Received;
    hide Members;
    if s.worker == m.origin { PublishOwedHere(sys, x, id, m, s); } else { PublishOwedAway(sys, x, id, m, s); }
  }

  lemma HeadCounted(inbox: seq<Message>, m: Message)
    requires inbox != []
    ensures multiset(inbox)[m] == multiset(inbox[1..])[m] + if inbox[0] == m then 1 else 0
  {
    assert inbox == [inbox[0]] + inbox[1..];
  }

  lemma DispatchOwed(sys: System, x: int, m: Message, s: Socket)
    requires WellFiled(sys) && Known(sys, m) && s.worker == x && m.origin != x && Next(sys, Dispatch(x)) != sys
    ensures var t := Next(sys, Dispatch(x));
      && x in sys.workers && x in t.workers && Owed(t, m, s) <= Owed(sys, m, s)
      && (Staying(sys, m, s) ==> Owed(t, m, s) == Owed(sys, m, s))
  {
    hide RoomsOk;
    hide TaskOk;
    var inbox := sys.workers[x].inbox;
    assert WorkerOk(sys, x) && inbox[0] in inbox;
    HeadCounted(inbox, m);
  }

  lemma DispatchTotal(sys: System, x: int, m: Message, s: Socket)
    requires WellFiled(sys) && Known(sys, m) && s.worker in sys.workers
    ensures Total(Next(sys, Dispatch(x)), m, s) <= Total(sys, m, s)
    ensures Staying(sys, m, s) ==> Total(Next(sys, Dispatch(x)), m, s) == Total(sys, m, s)
  {
    hide Count;
    hide WellFiled;
    hide Staying;
    hide Members;
    var t := Next(sys, Dispatch(x));
    if t == sys {
    } else if s.worker != x {
      OwedFrame(sys, t, m, s);
    } else if m.origin != x {
      DispatchOwed(sys, x, m, s);
    }
  }

  lemma SendStays(sys: System, x: Socket, n: Message, excluded: bool, m: Message, s: Socket)
    requires x.worker in sys.workers && Staying(sys, m, s)
    ensures Staying(Send(sys, x, n, excluded), m, s)
  {
  }

  lemma SendingStays(sys: System, e: Event, m: Message, s: Socket)
    requires Staying(sys, m, s) && (e.SendLocal? || e.SendRemote?)
    ensures Staying(Next(sys, e), m, s)
  {
    hide Send;
    var x := e.s;
    if x.worker in sys.workers {
      var w := sys.workers[x.worker];
      if e.SendLocal? && e.id in w.tasks && x in w.tasks[e.id].pending {
        var d := w.tasks[e.id];
        SendStays(With(sys, x.worker, w.(tasks := w.tasks[e.id := d.(pending := d.pending - {x})])), x, d.message,
          d.message.exclude == Some(x), m, s);
      } else if e.SendRemote? && w.remote.Some? && x in w.remote.value.pending {
        var d := w.remote.value;
        SendStays(With(sys, x.worker, w.(remote := Some(d.(pending := d.pending - {x})))), x, d.message, false, m, s);
      }
    }
  }

  lemma PublishStays(sys: System, e: Event, m: Message, s: Socket)
    requires Staying(sys, m, s) && e.Publish?
    ensures Staying(Next(sys, e), m, s)
  {
  }

  lemma OthersStay(sys: System, e: Event, m: Message, s: Socket)
    requires Staying(sys, m, s) && !Quits(e, m, s) && !e.Publish? && !e.SendLocal? && !e.SendRemote?
    ensures Staying(Next(sys, e), m, s)
  {
  }

  lemma StayingStays(sys: System, e: Event, m: Message, s: Socket)
    requires Staying(sys, m, s) && !Quits(e, m, s)
    ensures Staying(Next(sys, e), m, s)
  {
    hide Next;
    hide Staying;
    if e.SendLocal? || e.SendRemote? {
      SendingStays(sys, e, m, s);
    } else if e.Publish? {
      PublishStays(sys, e, m, s);
    } else {
      OthersStay(sys, e, m, s);
    }
  }

  lemma OtherTotal(sys: System, e: Event, m: Message, s: Socket)
    requires WellFiled(sys) && Known(sys, m) && s.worker in sys.workers
    requires !e.Publish? && !e.SendLocal? && !e.SendRemote? && !e.Dispatch?
    ensures Total(Next(sys, e), m, s) == Total(sys, m, s)
  {
    hide Count;
    hide Left;
    hide Joined;
  }

  /** Deliveries of a message never become more; for a socket that stays they never become fewer. */
  lemma NextTotal(sys: System, e: Event, m: Message, s: Socket)
    requires WellFiled(sys) && Known(sys, m) && s.worker in sys.workers
    ensures Total(Next(sys, e), m, s) <= Total(sys, m, s)
    ensures Staying(sys, m, s) ==> Total(Next(sys, e), m, s) == Total(sys, m, s)
  {
    hide Total;
    hide WellFiled;
    match e
    case SendLocal(id, x) => SendLocalTotal(sys, id, x, m, s);
    case SendRemote(x) => SendRemoteTotal(sys, x, m, s);
    case Publish(x, id) => PublishTotal(sys, x, id, m, s);
    case Dispatch(x) => DispatchTotal(sys, x, m, s);
    case _ => OtherTotal(sys, e, m, s);
  }

  // ---------------------------------------------------------------- every run

  lemma NeverLogged(sys: System, s: Socket, id: int)
    requires OnlyMembers(sys) && id !in sys.started
    ensures Count(sys.log, s, id) == 0
  {
    forall i | 0 <= i < |sys.log| ensures sys.log[i] != (s, id) {
      assert Reached(sys, sys.log[i].0, sys.log[i].1);
    }
    CountMeans(sys.log, s, id);
  }

  /** A fresh broadcast owes one delivery to each member, and to each socket of another worker. */
  lemma BroadcastTotal(sys: System, x: int, id: int, room: string, exclude: Option<Socket>, s: Socket)
    requires Good(sys) && x in sys.workers && id !in sys.started && s.worker in sys.workers
    ensures var t := Next(sys, Broadcast(x, id, room, exclude));
      Known(t, t.started[id]) && Total(t, t.started[id], s) ==
        if s.worker != x || s in Members(sys.workers[x].rooms, room) then 1 else 0
  {
    var m := Message(id, x, room, exclude);
    NeverLogged(sys, s, id);
    assert WorkerOk(sys, s.worker);
    assert m !in sys.workers[s.worker].inbox;
    assert m.id !in sys.published;
  }

  lemma NextKeepsOnce(sys: System, e: Event)
    requires Good(sys)
    ensures AtMostOnce(Next(sys, e))
  {
    var t := Next(sys, e);
    forall id, s: Socket | id in t.started && s.worker in t.workers ensures Total(t, t.started[id], s) <= 1 {
      if id in sys.started {
        assert Known(sys, sys.started[id]) && Total(sys, sys.started[id], s) <= 1;
        assert t.started[id] == sys.started[id];
        NextTotal(sys, e, sys.started[id], s);
      } else {
        BroadcastTotal(sys, e.w, e.id, e.room, e.exclude, s);
      }
    }
  }

  /** A snapshot is taken before anything is logged under it. */
  lemma NewSnapshotReaches(sys: System, t: System, w: int, id: int)
    requires OnlyMembers(sys) && t.log == sys.log && forall s: Socket :: s.worker == w ==> Count(sys.log, s, id) == 0
    requires forall k :: k in sys.snapshots && k != (w, id) ==> k in t.snapshots && t.snapshots[k] == sys.snapshots[k]
    requires forall k :: k in sys.started ==> k in t.started && t.started[k] == sys.started[k]
    ensures OnlyMembers(t)
  {
    forall i | 0 <= i < |t.log| ensures Reached(t, t.log[i].0, t.log[i].1) {
      assert Reached(sys, sys.log[i].0, sys.log[i].1);
      CountMeans(sys.log, sys.log[i].0, sys.log[i].1);
      assert sys.log[i] in sys.log;
    }
  }

  /** A message at the head of the inbox has reached nobody on this worker yet. */
  lemma NotYetHere(sys: System, x: int, s: Socket)
    requires Good(sys) && x in sys.workers && sys.workers[x].inbox != [] && s.worker == x
    requires sys.workers[x].inbox[0].origin != x
    ensures Count(sys.log, s, sys.workers[x].inbox[0].id) == 0
  {
    var m := sys.workers[x].inbox[0];
    assert WorkerOk(sys, x) && m in sys.workers[x].inbox && Known(sys, m);
    HeadCounted(sys.workers[x].inbox, m);
    assert Total(sys, sys.started[m.id], s) <= 1;
  }

  lemma NextKeepsReach(sys: System, e: Event)
    requires Good(sys)
    ensures OnlyMembers(Next(sys, e))
  {
    var t := Next(sys, e);
    match e
    case Dispatch(x) =>
      if x in sys.workers && sys.workers[x].inbox != [] {
        var m := sys.workers[x].inbox[0];
        if m.origin != x {
          forall s: Socket | s.worker == x ensures Count(sys.log, s, m.id) == 0 { NotYetHere(sys, x, s); }
          NewSnapshotReaches(sys, t, x, m.id);
        }
      }
    case Broadcast(x, id, _, _) =>
      if id !in sys.started {
        forall s: Socket | s.worker == x ensures Count(sys.log, s, id) == 0 { NeverLogged(sys, s, id); }
        NewSnapshotReaches(sys, t, x, id);
      }
    case _ => OthersKeepReach(sys, e);
  }

  lemma OthersKeepReach(sys: System, e: Event)
    requires Good(sys) && !e.Dispatch? && !e.Broadcast?
    ensures OnlyMembers(Next(sys, e))
  {
    hide AtMostOnce;
    hide RoomsOk;
    hide Left;
    hide Joined;
    hide Received;
    var t := Next(sys, e);
    forall i | 0 <= i < |t.log| ensures Reached(t, t.log[i].0, t.log[i].1) {
      if i < |sys.log| { assert Reached(sys, sys.log[i].0, sys.log[i].1); }
    }
  }

  lemma NextKeepsGood(sys: System, e: Event)
    requires Good(sys)
    ensures Good(Next(sys, e))
  {
    NextKeepsFiled(sys, e);
    NextKeepsOnce(sys, e);
    NextKeepsReach(sys, e);
    NextKeepsUnderWay(sys, e);
  }

  lemma NextKeepsUnderWay(sys: System, e: Event)
    requires WellFiled(sys) && AllUnderWay(sys)
    ensures AllUnderWay(Next(sys, e))
  {
    hide WorkerOk;
    hide Left;
    hide Joined;
    hide Members;
    if e.Publish? && e.w in sys.workers && e.id in sys.workers[e.w].tasks { assert TaskOk(sys, e.w, e.id); }
    forall id | id in Next(sys, e).started ensures UnderWay(Next(sys, e), id) {
      if id in sys.started { assert UnderWay(sys, id); }
    }
  }

  /** Main result: in every run no socket gets a message twice, only members of its room at the
      snapshot get it, and no room is empty or holds another worker's socket. */
  lemma {:induction false} RunKeepsGood(sys: System, es: seq<Event>)
    requires Good(sys)
    ensures Good(Run(sys, es))
    decreases es
  {
    if es != [] {
      NextKeepsGood(sys, es[0]);
      RunKeepsGood(Next(sys, es[0]), es[1..]);
    }
  }

  lemma StartIsGood(workers: set<int>)
    ensures Good(Start(workers))
  {
  }

  /** Nothing of `m` is left to do on worker `w`. */
  ghost predicate Finished(sys: System, m: Message, w: int) {
    w in sys.workers &&
    if w == m.origin then m.id !in sys.workers[w].tasks
    else m.id in sys.published && m !in sys.workers[w].inbox
         && (sys.workers[w].remote.Some? && sys.workers[w].remote.value.message == m ==>
           sys.workers[w].remote.value.pending == {})
  }

  lemma GoodIsFiled(sys: System)
    requires Good(sys)
    ensures WellFiled(sys)
  {
  }

  lemma StartedStays(sys: System, e: Event, m: Message)
    requires Known(sys, m)
    ensures Known(Next(sys, e), m)
  {
  }

  lemma {:induction false} StayersAreServed(sys: System, es: seq<Event>, m: Message, s: Socket)
    requires Good(sys) && Known(sys, m) && Staying(sys, m, s) && Total(sys, m, s) == 1
    requires forall e :: e in es ==> !Quits(e, m, s)
    ensures var t := Run(sys, es); Staying(t, m, s) && Total(t, m, s) == 1
    decreases es
  {
    hide Good;
    hide Known;
    hide Total;
    hide Quits;
    hide Members;
    if es != [] {
      assert es[0] in es;
      NextKeepsGood(sys, es[0]);
      GoodIsFiled(sys);
      StartedStays(sys, es[0], m);
      NextTotal(sys, es[0], m, s);
      StayingStays(sys, es[0], m, s);
      StayersAreServed(Next(sys, es[0]), es[1..], m, s);
    }
  }

  /** Main result: a broadcast reaches every healthy socket that stays in the room, on a subscribed
      worker or the publisher's own, exactly once. */
  lemma ExactlyOnce(sys: System, x: int, id: int, room: string, exclude: Option<Socket>, es: seq<Event>, s: Socket)
    requires Good(sys) && x in sys.workers && id !in sys.started
    requires var m := Message(id, x, room, exclude); Staying(sys, m, s) && forall e :: e in es ==> !Quits(e, m, s)
    ensures var m := Message(id, x, room, exclude); var t := Run(Next(sys, Broadcast(x, id, room, exclude)), es);
      Finished(t, m, s.worker) ==> Count(t.log, s, id) == 1
  {
    var m, e := Message(id, x, room, exclude), Broadcast(x, id, room, exclude);
    BroadcastTotal(sys, x, id, room, exclude, s);
    NextKeepsGood(sys, e);
    StayingStays(sys, e, m, s);
    StayersAreServed(Next(sys, e), es, m, s);
  }

  // ---------------------------------------------------------------- sockets whose send has failed

  predicate Leaves(e: Event, s: Socket, room: string) {
    e.Leave? && e.s == s && (e.from.None? || e.from.value == room)
  }

  /** A send to `s` that fails. */
  predicate Fails(sys: System, e: Event, s: Socket) {
    && s.worker in sys.workers && s in sys.dead
    && var w := sys.workers[s.worker];
    match e
    case SendLocal(id, x) =>
      x == s && id in w.tasks && s in w.tasks[id].pending && w.tasks[id].message.exclude != Some(s)
    case SendRemote(x) => x == s && w.remote.Some? && s in w.remote.value.pending
    case _ => false
  }

  predicate InRoom(sys: System, s: Socket, room: string) {
    s.worker in sys.workers && s in Members(sys.workers[s.worker].rooms, room)
  }

  /** One event: a socket is in a room because it just joined, or was there and neither left nor failed. */
  lemma InRoomNext(sys: System, e: Event, s: Socket, room: string)
    requires s.worker in sys.workers
    ensures s.worker in Next(sys, e).workers
    ensures InRoom(Next(sys, e), s, room) <==>
      e == Join(s, room) || (InRoom(sys, s, room) && !Leaves(e, s, room) && !Fails(sys, e, s))
    ensures s in Next(sys, e).failed <==> s in sys.failed || Fails(sys, e, s)
  {
    hide Next;
    hide InRoom;
    hide Fails;
    match e
    case SendLocal(_, _) => SendLocalInRoom(sys, e, s, room);
    case SendRemote(_) => SendRemoteInRoom(sys, e, s, room);
    case Publish(_, _) => PublishInRoom(sys, e, s, room);
    case _ => OthersInRoom(sys, e, s, room);
  }

  lemma OthersInRoom(sys: System, e: Event, s: Socket, room: string)
    requires s.worker in sys.workers && !e.Publish? && !e.SendLocal? && !e.SendRemote?
    ensures var t := Next(sys, e);
      && s.worker in t.workers && t.failed == sys.failed && !Fails(sys, e, s)
      && (InRoom(t, s, room) <==> e == Join(s, room) || (InRoom(sys, s, room) && !Leaves(e, s, room)))
  {
  }

  lemma SendLocalInRoom(sys: System, e: Event, s: Socket, room: string)
    requires s.worker in sys.workers && e.SendLocal?
    ensures var t := Next(sys, e);
      && s.worker in t.workers && (InRoom(t, s, room) <==> InRoom(sys, s, room) && !Fails(sys, e, s))
      && (s in t.failed <==> s in sys.failed || Fails(sys, e, s))
  {
    hide Send;
    var x, id := e.s, e.id;
    if x.worker in sys.workers && id in sys.workers[x.worker].tasks && x in sys.workers[x.worker].tasks[id].pending {
      var w := sys.workers[x.worker];
      var d := w.tasks[id];
      SendInRoom(With(sys, x.worker, w.(tasks := w.tasks[id := d.(pending := d.pending - {x})])), x, d.message,
        d.message.exclude == Some(x), s, room);
    }
  }

  lemma SendRemoteInRoom(sys: System, e: Event, s: Socket, room: string)
    requires s.worker in sys.workers && e.SendRemote?
    ensures var t := Next(sys, e);
      && s.worker in t.workers && (InRoom(t, s, room) <==> InRoom(sys, s, room) && !Fails(sys, e, s))
      && (s in t.failed <==> s in sys.failed || Fails(sys, e, s))
  {
    hide Send;
    var x := e.s;
    if x.worker in sys.workers && sys.workers[x.worker].remote.Some? &&
      x in sys.workers[x.worker].remote.value.pending {
      var w := sys.workers[x.worker];
      var d := w.remote.value;
      SendInRoom(With(sys, x.worker, w.(remote := Some(d.(pending := d.pending - {x})))), x, d.message, false, s, room);
    }
  }

  lemma SendInRoom(sys: System, x: Socket, m: Message, excluded: bool, s: Socket, room: string)
    requires x.worker in sys.workers && s.worker in sys.workers
    ensures var t := Send(sys, x, m, excluded); var fails := x == s && !excluded && s in sys.dead;
      && s.worker in t.workers && (InRoom(t, s, room) <==> InRoom(sys, s, room) && !fails) &&
        (s in t.failed <==> s in sys.failed || fails)
  {
  }

  lemma PublishInRoom(sys: System, e: Event, s: Socket, room: string)
    requires s.worker in sys.workers && e.Publish?
    ensures var t := Next(sys, e);
      s.worker in t.workers && (InRoom(t, s, room) <==> InRoom(sys, s, room)) && t.failed == sys.failed &&
      !Fails(sys, e, s)
  {
  }

  lemma {:induction false} RunOneMore(sys: System, es: seq<Event>, e: Event)
    ensures Run(sys, es + [e]) == Next(Run(sys, es), e)
    decreases es
  {
    if es == [] {
      assert [] + [e] == [e];
    } else {
      assert (es + [e])[1..] == es[1..] + [e];
      RunOneMore(Next(sys, es[0]), es[1..], e);
    }
  }

  predicate FailsAt(sys: System, es: seq<Event>, k: nat, s: Socket)
    requires k < |es|
  {
    Fails(Run(sys, es[..k]), es[k], s)
  }

  /** `s` joined the room after event `k`, and has not left it since. */
  predicate JoinedAgain(es: seq<Event>, k: nat, s: Socket, room: string) {
    exists i :: k < i < |es| && es[i] == Join(s, room) && forall j :: i < j < |es| ==> !Leaves(es[j], s, room)
  }

  lemma FailsBefore(sys: System, es: seq<Event>, s: Socket)
    requires es != []
    ensures var before := es[..|es| - 1]; forall k :: 0 <= k < |before| ==>
      (FailsAt(sys, before, k, s) <==> FailsAt(sys, es, k, s))
  {
    var before := es[..|es| - 1];
    forall k | 0 <= k < |before| ensures FailsAt(sys, before, k, s) <==> FailsAt(sys, es, k, s) {
      assert before[..k] == es[..k] && before[k] == es[k];
    }
  }

  lemma {:induction false} FailedIsRecorded(sys: System, es: seq<Event>, s: Socket)
    requires s.worker in sys.workers
    ensures s.worker in Run(sys, es).workers
    ensures s in Run(sys, es).failed <==> s in sys.failed || exists k :: 0 <= k < |es| && FailsAt(sys, es, k, s)
    decreases |es|
  {
    if es != [] {
      var n := |es| - 1;
      var before := es[..n];
      assert es == before + [es[n]];
      FailedIsRecorded(sys, before, s);
      RunOneMore(sys, before, es[n]);
      InRoomNext(Run(sys, before), es[n], s, "");
      FailsBefore(sys, es, s);
      assert FailsAt(sys, es, n, s) <==> Fails(Run(sys, before), es[n], s);
    }
  }

  /** Main result: after its last failed send, a room holds a socket if and only if it joined that room
      again and has not left it since. */
  lemma {:induction false} FailedMemberExactlyWhen(sys: System, es: seq<Event>, k: nat, s: Socket, room: string)
    requires s.worker in sys.workers && k < |es| && FailsAt(sys, es, k, s)
    requires forall j :: k < j < |es| ==> !FailsAt(sys, es, j, s)
    ensures InRoom(Run(sys, es), s, room) <==> JoinedAgain(es, k, s, room)
    decreases |es|
  {
    var n := |es| - 1;
    var before := es[..n];
    assert es == before + [es[n]];
    FailedIsRecorded(sys, before, s);
    RunOneMore(sys, before, es[n]);
    InRoomNext(Run(sys, before), es[n], s, room);
    assert FailsAt(sys, es, n, s) <==> Fails(Run(sys, before), es[n], s);
    hide Next;
    hide Fails;
    hide InRoom;
    hide FailsAt;
    if k < n {
      FailsBefore(sys, es, s);
      FailedMemberExactlyWhen(sys, before, k, s, room);
      OneMoreJoined(es, k, s, room);
    }
  }

  lemma OneMoreJoined(es: seq<Event>, k: nat, s: Socket, room: string)
    requires k < |es| - 1
    ensures var n := |es| - 1;
      JoinedAgain(es, k, s, room) <==>
        es[n] == Join(s, room) || (JoinedAgain(es[..n], k, s, room) && !Leaves(es[n], s, room))
  {
    var n := |es| - 1;
    var before := es[..n];
    if JoinedAgain(before, k, s, room) && !Leaves(es[n], s, room) {
      var i :| k < i < n && before[i] == Join(s, room) && forall j :: i < j < n ==> !Leaves(before[j], s, room);
      forall j | i < j < |es| ensures !Leaves(es[j], s, room) {
        if j < n { assert es[j] == before[j]; }
      }
      assert es[i] == Join(s, room);
    }
    if JoinedAgain(es, k, s, room) {
      var i :| k < i < |es| && es[i] == Join(s, room) && forall j :: i < j < |es| ==> !Leaves(es[j], s, room);
      if i < n {
        assert before[i] == Join(s, room);
        assert forall j :: i < j < n ==> before[j] == es[j];
      }
    }
  }

  lemma FiveEvents(sys: System, es: seq<Event>)
    requires |es| == 5
    ensures Run(sys, es) == Next(Next(Next(Next(Next(sys, es[0]), es[1]), es[2]), es[3]), es[4])
  {
    hide Next;
    var a, b, c, d := es[1..], es[1..][1..], es[1..][1..][1..], es[1..][1..][1..][1..];
    assert a[0] == es[1] && b[0] == es[2] && c[0] == es[3];
    var s1 := Next(sys, es[0]);
    var s2 := Next(s1, es[1]);
    var s3 := Next(s2, es[2]);
    var s4 := Next(s3, es[3]);
    assert Run(sys, es) == Run(s1, a);
    assert Run(s1, a) == Run(s2, b);
    assert Run(s2, b) == Run(s3, c);
    assert Run(s3, c) == Run(s4, d);
    assert d == [es[4]] && d[1..] == [];
    assert Run(s4, d) == Run(Next(s4, es[4]), []);
  }

  /** For one, a handler that joins its socket to a room after a broadcast has failed on it leaves a dead
      socket there. */
  lemma DeadSocketJoinsAgain(s: Socket)
    requires s.worker == 1
    ensures var es := [Join(s, "r"), Die(s), Broadcast(1, 7, "r", None), SendLocal(7, s), Join(s, "q")];
      var t := Run(Start({1}), es); s in t.failed && InRoom(t, s, "q") && !InRoom(t, s, "r")
  {
    var a := Next(Start({1}), Join(s, "r"));
    var b := Next(Next(a, Die(s)), Broadcast(1, 7, "r", None));
    var c := Next(b, SendLocal(7, s));
    var es := [Join(s, "r"), Die(s), Broadcast(1, 7, "r", None), SendLocal(7, s), Join(s, "q")];
    FiveEvents(Start({1}), es);
    assert Fails(b, SendLocal(7, s), s);
    InRoomNext(b, SendLocal(7, s), s, "r");
    InRoomNext(c, Join(s, "q"), s, "q");
    InRoomNext(c, Join(s, "q"), s, "r");
  }
}
