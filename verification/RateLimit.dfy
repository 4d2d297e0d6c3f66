/** The in-memory fixed-window limiter: a table of windows, swept now and then. */
module RateLimit {
  import opened Basics

  datatype Window = Window(start: real, count: int)

  type Hits = map<string, Window>

  datatype Request = Request(ip: string, now: real)

  // ---------------------------------------------------------------- one request

  function Swept(hits: Hits, now: real, window: real): Hits {
    map ip | ip in hits && now - hits[ip].start < window :: hits[ip]
  }

  /** The window a request falls into, with the request counted. */
  function Hit(hits: Hits, q: Request, window: real): Window {
    var w := if q.ip in hits then hits[q.ip] else Window(q.now, 0);
    if q.now - w.start >= window then Window(q.now, 1) else Window(w.start, w.count + 1)
  }

  datatype State = State(hits: Hits, lastSweep: real)

  function Start(): State { State(map[], 0.0) }

  function Tidy(s: State, now: real, window: real): State {
    if now - s.lastSweep >= window then State(Swept(s.hits, now, window), now) else s
  }

  function Step(s: State, q: Request, window: real): State {
    var t := Tidy(s, q.now, window);
    t.(hits := t.hits[q.ip := Hit(t.hits, q, window)])
  }

  predicate Admits(s: State, q: Request, limit: int, window: real) {
    Hit(Tidy(s, q.now, window).hits, q, window).count <= limit
  }

  /** The answers to a trace of requests. */
  function Answers(s: State, trace: seq<Request>, limit: int, window: real): seq<bool>
    decreases trace
  {
    if trace == [] then []
    else [Admits(s, trace[0], limit, window)] + Answers(Step(s, trace[0], window), trace[1..], limit, window)
  }

  /** The same with a table that is never swept. */
  function AnswersUnswept(hits: Hits, trace: seq<Request>, limit: int, window: real): seq<bool>
    decreases trace
  {
    if trace == [] then [] else
    var w := Hit(hits, trace[0], window);
    [w.count <= limit] + AnswersUnswept(hits[trace[0].ip := w], trace[1..], limit, window)
  }

  ghost predicate Ordered(trace: seq<Request>, from: real) {
    trace == [] || (from <= trace[0].now && Ordered(trace[1..], trace[0].now))
  }

  // ---------------------------------------------------------------- sweeping changes no decision

  /** The tables agree on every window that is still open at `now`. */
  ghost predicate SameOpen(a: Hits, b: Hits, now: real, window: real) {
    forall ip :: Open(a, ip, now, window) == Open(b, ip, now, window)
  }

  function Open(hits: Hits, ip: string, now: real, window: real): Option<Window> {
    if ip in hits && now - hits[ip].start < window then Some(hits[ip]) else None
  }

  lemma SameOpenLater(a: Hits, b: Hits, now: real, later: real, window: real)
    requires SameOpen(a, b, now, window) && now <= later
    ensures SameOpen(a, b, later, window)
  {
    forall ip ensures Open(a, ip, later, window) == Open(b, ip, later, window) {
      assert Open(a, ip, now, window) == Open(b, ip, now, window);
    }
  }

  /** Main result: for every trace with a clock that never goes back, sweeping changes no answer. */
  lemma {:induction false} SweepingIsInvisible(s: State, hits: Hits, trace: seq<Request>, limit: int, window: real,
                                               now: real)
    requires window > 0.0 && Ordered(trace, now) && SameOpen(s.hits, hits, now, window)
    ensures Answers(s, trace, limit, window) == AnswersUnswept(hits, trace, limit, window)
    decreases trace
  {
    if trace != [] {
      var q := trace[0];
      SameOpenLater(s.hits, hits, now, q.now, window);
      var t, w := Tidy(s, q.now, window), Hit(hits, q, window);
      assert SameOpen(t.hits, hits, q.now, window) by {
        forall ip ensures Open(t.hits, ip, q.now, window) == Open(hits, ip, q.now, window) {
          assert Open(s.hits, ip, q.now, window) == Open(hits, ip, q.now, window);
        }
      }
      assert Open(t.hits, q.ip, q.now, window) == Open(hits, q.ip, q.now, window);
      assert Hit(t.hits, q, window) == w;
      var a, b := t.hits[q.ip := w], hits[q.ip := w];
      assert SameOpen(a, b, q.now, window) by {
        forall ip ensures Open(a, ip, q.now, window) == Open(b, ip, q.now, window) {
          assert Open(t.hits, ip, q.now, window) == Open(hits, ip, q.now, window);
        }
      }
      SweepingIsInvisible(Step(s, q, window), hits[q.ip := w], trace[1..], limit, window, q.now);
    }
  }

  // ---------------------------------------------------------------- what gets through

  /** One answered request: when it came, the window it was counted in, and the answer. */
  datatype Logged = Logged(ip: string, now: real, start: real, admitted: bool)

  function Log(s: State, q: Request, limit: int, window: real): Logged {
    Logged(q.ip, q.now, Hit(Tidy(s, q.now, window).hits, q, window).start, Admits(s, q, limit, window))
  }

  /** The state and the log after a trace. */
  function Run(s: State, log: seq<Logged>, trace: seq<Request>, limit: int, window: real): (State, seq<Logged>)
    decreases trace
  {
    if trace == [] then (s, log)
    else Run(Step(s, trace[0], window), log + [Log(s, trace[0], limit, window)], trace[1..], limit, window)
  }

  predicate InWindow(l: Logged, ip: string, start: real) { l.ip == ip && l.start == start }

  /** How many requests were counted in, and admitted to, one window. */
  function Counted(log: seq<Logged>, ip: string, start: real): nat {
    if log == [] then 0 else Counted(log[..|log| - 1], ip, start) + if InWindow(log[|log| - 1], ip, start) then 1 else 0
  }

  function Admitted(log: seq<Logged>, ip: string, start: real): nat {
    if log == [] then 0 else
    Admitted(log[..|log| - 1], ip, start) +
    if InWindow(log[|log| - 1], ip, start) && log[|log| - 1].admitted then 1 else 0
  }

  /** How many requests of a client were admitted at times in `[from, to)`. */
  function AdmittedBetween(log: seq<Logged>, ip: string, from: real, to: real): nat {
    if log == [] then 0 else
    var l := log[|log| - 1];
    AdmittedBetween(log[..|log| - 1], ip, from, to) + if l.ip == ip && from <= l.now < to && l.admitted then 1 else 0
  }

  function Cap(limit: int): nat { if limit < 0 then 0 else limit }

  function Min(a: int, b: int): int { if a < b then a else b }

  /** Windows of one client are at least `window` apart, and a request falls inside its own. */
  ghost predicate Spaced(log: seq<Logged>, window: real) {
    && (forall l :: l in log ==> l.start <= l.now < l.start + window)
    && (forall l, m :: l in log && m in log && l.ip == m.ip && l.start < m.start ==> l.start + window <= m.start)
  }

  /** The table is current: a client's stored window is its last and counts its requests; a client
      without one has only closed windows behind it. Stored windows began after the last sweep
      less one window. Of each window the first `limit` requests were admitted. */
  ghost predicate Current(s: State, log: seq<Logged>, limit: int, window: real, now: real) {
    && s.lastSweep <= now
    && (forall ip :: ip in s.hits ==> ClientOk(s, log, ip, limit, window, now))
    && (forall l :: l in log && l.ip !in s.hits ==> l.start + window <= now)
    && (forall ip, start :: Admitted(log, ip, start) == Min(Counted(log, ip, start), Cap(limit)))
  }

  ghost predicate ClientOk(s: State, log: seq<Logged>, ip: string, limit: int, window: real, now: real)
    requires ip in s.hits
  {
    var w := s.hits[ip];
    && s.lastSweep - window < w.start <= now && w.count >= 0
    && Counted(log, ip, w.start) == w.count
    && (forall l :: l in log && l.ip == ip && l.start != w.start ==> l.start + window <= w.start)
  }

  lemma TalliesAdd(log: seq<Logged>, l: Logged, ip: string, start: real)
    ensures Counted(log + [l], ip, start) == Counted(log, ip, start) + if InWindow(l, ip, start) then 1 else 0
    ensures Admitted(log + [l], ip, start) ==
      Admitted(log, ip, start) + if InWindow(l, ip, start) && l.admitted then 1 else 0
  {
    assert (log + [l])[..|log|] == log;
  }

  lemma {:induction false} NothingCounted(log: seq<Logged>, ip: string, start: real)
    requires forall l :: l in log ==> !InWindow(l, ip, start)
    ensures Counted(log, ip, start) == 0 && Admitted(log, ip, start) == 0
  {
    if log != [] {
      assert log[|log| - 1] in log;
      NothingCounted(log[..|log| - 1], ip, start);
    }
  }

  lemma TidyKeeps(s: State, log: seq<Logged>, limit: int, window: real, now: real, later: real)
    requires window > 0.0 && Current(s, log, limit, window, now) && now <= later
    ensures var t := Tidy(s, later, window); Current(t, log, limit, window, later) && later - t.lastSweep < window
  {
    var t := Tidy(s, later, window);
    forall ip | ip in t.hits ensures ClientOk(t, log, ip, limit, window, later) {
      assert ClientOk(s, log, ip, limit, window, now);
    }
    forall l | l in log && l.ip !in t.hits ensures l.start + window <= later {
      if l.ip in s.hits { assert ClientOk(s, log, l.ip, limit, window, now); }
    }
  }

  /** A request that is counted in its client's open window. */
  lemma SameWindow(s: State, log: seq<Logged>, q: Request, limit: int, window: real)
    requires window > 0.0 && Current(s, log, limit, window, q.now) && q.ip in s.hits &&
      q.now - s.hits[q.ip].start < window
    ensures var start := Hit(s.hits, q, window).start;
      && start <= q.now < start + window
      && forall m :: m in log && m.ip == q.ip && m.start != start ==> m.start + window <= start
    ensures var w := Hit(s.hits, q, window); var l := Logged(q.ip, q.now, w.start, w.count <= limit);
      Current(s.(hits := s.hits[q.ip := w]), log + [l], limit, window, q.now)
  {
    var w := Hit(s.hits, q, window);
    var l, t := Logged(q.ip, q.now, w.start, w.count <= limit), s.(hits := s.hits[q.ip := w]);
    assert ClientOk(s, log, q.ip, limit, window, q.now);
    forall ip, start ensures Admitted(log + [l], ip, start) == Min(Counted(log + [l], ip, start), Cap(limit)) {
      TalliesAdd(log, l, ip, start);
    }
    forall ip | ip in t.hits ensures ClientOk(t, log + [l], ip, limit, window, q.now) {
      assert ClientOk(s, log, ip, limit, window, q.now);
      TalliesAdd(log, l, ip, t.hits[ip].start);
    }
  }

  /** A request that opens a window. */
  lemma FreshWindow(s: State, log: seq<Logged>, q: Request, limit: int, window: real)
    requires window > 0.0 && Current(s, log, limit, window, q.now) &&
      (q.ip in s.hits ==> q.now - s.hits[q.ip].start >= window)
    ensures Hit(s.hits, q, window) == Window(q.now, 1)
    ensures forall m :: m in log && m.ip == q.ip ==> m.start + window <= q.now
    ensures var l := Logged(q.ip, q.now, q.now, 1 <= limit);
      Current(s.(hits := s.hits[q.ip := Window(q.now, 1)]), log + [l], limit, window, q.now)
  {
    var l, t := Logged(q.ip, q.now, q.now, 1 <= limit), s.(hits := s.hits[q.ip := Window(q.now, 1)]);
    if q.ip in s.hits { assert ClientOk(s, log, q.ip, limit, window, q.now); }
    NothingCounted(log, q.ip, q.now);
    forall ip, start ensures Admitted(log + [l], ip, start) == Min(Counted(log + [l], ip, start), Cap(limit)) {
      TalliesAdd(log, l, ip, start);
    }
    forall ip | ip in t.hits ensures ClientOk(t, log + [l], ip, limit, window, q.now) {
      TalliesAdd(log, l, ip, t.hits[ip].start);
      if ip != q.ip { assert ClientOk(s, log, ip, limit, window, q.now); }
    }
  }

  lemma SpacedMore(log: seq<Logged>, l: Logged, window: real)
    requires Spaced(log, window) && l.start <= l.now < l.start + window
    requires forall m :: m in log && m.ip == l.ip && m.start != l.start ==> m.start + window <= l.start
    ensures Spaced(log + [l], window)
  {
  }

  lemma StepKeeps(s: State, log: seq<Logged>, q: Request, limit: int, window: real, now: real)
    requires window > 0.0 && Spaced(log, window) && Current(s, log, limit, window, now) && now <= q.now
    ensures var l := Log(s, q, limit, window);
      Spaced(log + [l], window) && Current(Step(s, q, window), log + [l], limit, window, q.now)
    ensures q.now - Step(s, q, window).lastSweep < window
  {
    hide Current;
    hide Spaced;
    hide Tidy;
    TidyKeeps(s, log, limit, window, now, q.now);
    var t := Tidy(s, q.now, window);
    if q.ip in t.hits && q.now - t.hits[q.ip].start < window {
      SameWindow(t, log, q, limit, window);
    } else {
      FreshWindow(t, log, q, limit, window);
    }
    SpacedMore(log, Log(s, q, limit, window), window);
  }

  lemma {:induction false} RunKeeps(s: State, log: seq<Logged>, trace: seq<Request>, limit: int, window: real,
                                    now: real)
    returns (last: real)
    requires window > 0.0 && Spaced(log, window) && Current(s, log, limit, window, now) && Ordered(trace, now)
    ensures var r := Run(s, log, trace, limit, window); Spaced(r.1, window) && Current(r.0, r.1, limit, window, last)
    ensures last == if trace == [] then now else trace[|trace| - 1].now
    ensures trace != [] || now - s.lastSweep < window ==> last - Run(s, log, trace, limit, window).0.lastSweep < window
    decreases trace
  {
    last := now;
    if trace != [] {
      StepKeeps(s, log, trace[0], limit, window, now);
      last := RunKeeps(Step(s, trace[0], window), log + [Log(s, trace[0], limit, window)], trace[1..], limit, window,
        trace[0].now);
    }
  }

  /** After every request each stored window began less than two windows ago. */
  lemma StoredWindowsAreRecent(trace: seq<Request>, limit: int, window: real, ip: string)
    requires window > 0.0 && Ordered(trace, 0.0) && trace != []
    ensures var s := Run(Start(), [], trace, limit, window).0;
      ip in s.hits ==> trace[|trace| - 1].now - s.hits[ip].start < 2.0 * window
  {
    var last := RunKeeps(Start(), [], trace, limit, window, 0.0);
    var (s, log) := Run(Start(), [], trace, limit, window);
    if ip in s.hits { assert ClientOk(s, log, ip, limit, window, last); }
  }

  /** Admissions in an interval are admissions to the windows its requests were counted in. */
  lemma {:induction false} BetweenAtMost(log: seq<Logged>, ip: string, from: real, to: real, a: real, b: real)
    requires forall l :: l in log && l.ip == ip && from <= l.now < to ==> l.start == a || l.start == b
    ensures AdmittedBetween(log, ip, from, to) <= Admitted(log, ip, a) + Admitted(log, ip, b)
  {
    if log != [] {
      assert log[|log| - 1] in log;
      BetweenAtMost(log[..|log| - 1], ip, from, to, a, b);
    }
  }

  /** The requests of one client in an interval of one window's length touch at most two windows. */
  lemma TwoWindows(log: seq<Logged>, ip: string, from: real, window: real) returns (a: real, b: real)
    requires window > 0.0 && Spaced(log, window)
    ensures forall l :: l in log && l.ip == ip && from <= l.now < from + window ==> l.start == a || l.start == b
  {
    a, b := 0.0, 0.0;
    if x :| x in log && x.ip == ip && from <= x.now < from + window {
      a, b := x.start, x.start;
      if y :| y in log && y.ip == ip && from <= y.now < from + window && y.start != a {
        b := y.start;
      }
    }
  }

  /** Main result: in every run exactly the first `limit` requests of a client get through per window,
      and at most `2 * limit` in any half-open interval as long as a window. */
  lemma AtMostTwiceTheLimit(trace: seq<Request>, limit: int, window: real, ip: string, from: real)
    requires window > 0.0 && Ordered(trace, 0.0)
    ensures var log := Run(Start(), [], trace, limit, window).1;
      && (forall start :: Admitted(log, ip, start) == Min(Counted(log, ip, start), Cap(limit)))
      && AdmittedBetween(log, ip, from, from + window) <= 2 * Cap(limit)
  {
    hide Run;
    hide Hit;
    hide Tidy;
    hide AdmittedBetween;
    var last := RunKeeps(Start(), [], trace, limit, window, 0.0);
    var log := Run(Start(), [], trace, limit, window).1;
    var a, b := TwoWindows(log, ip, from, window);
    BetweenAtMost(log, ip, from, from + window, a, b);
  }

  /** The log's answers are the answers given. */
  lemma {:induction false} LogIsAnswers(s: State, log: seq<Logged>, trace: seq<Request>, limit: int, window: real)
    ensures var r := Run(s, log, trace, limit, window).1; var answers := Answers(s, trace, limit, window);
      && |r| == |log| + |trace| && r[..|log|] == log && |answers| == |trace|
      && forall i :: 0 <= i < |trace| ==>
        r[|log| + i].admitted == answers[i] && r[|log| + i].ip == trace[i].ip && r[|log| + i].now == trace[i].now
    decreases trace
  {
    if trace != [] {
      var more := log + [Log(s, trace[0], limit, window)];
      LogIsAnswers(Step(s, trace[0], window), more, trace[1..], limit, window);
      var r := Run(s, log, trace, limit, window).1;
      assert r[..|log|] == r[..|more|][..|log|];
      assert r[|log|] == r[..|more|][|log|];
      forall i | 0 < i < |trace| ensures r[|log| + i].ip == trace[i].ip && r[|log| + i].now == trace[i].now
        && r[|log| + i].admitted == Answers(s, trace, limit, window)[i]
      {
        assert trace[i] == trace[1..][i - 1];
      }
    }
  }

  // ---------------------------------------------------------------- the middleware

  class Limiter {
    const limit: int
    const window: int
    var hits: Hits
    var lastSweep: real

    constructor (limit: int, window: int)
      ensures this.limit == limit && this.window == window && Now() == Start()
    {
      this.limit, this.window := limit, window;
      hits, lastSweep := map[], 0.0;
    }

    function Now(): State reads this { State(hits, lastSweep) }

    /** Delete every expired window. */
    method Sweep(now: real)
      modifies this`hits
      ensures hits == Swept(old(hits), now, window as real)
    {
      var expired := set ip | ip in hits && now - hits[ip].start >= window as real;
      while expired != {}
        invariant expired <= hits.Keys && hits.Keys <= old(hits).Keys
        invariant forall ip :: ip in hits ==> hits[ip] == old(hits)[ip]
        invariant forall ip :: ip in old(hits) ==>
          (ip !in hits <==> now - old(hits)[ip].start >= window as real && ip !in expired)
        invariant forall ip :: ip in expired ==> now - old(hits)[ip].start >= window as real
      {
        var ip :| ip in expired;
        hits := hits - {ip};
        expired := expired - {ip};
      }
    }

    /** One request: admitted, or told after how many seconds to come back. */
    method Handle(ip: string, now: real) returns (admitted: bool, retry: int)
      requires window > 0
      modifies this
      ensures Now() == Step(old(Now()), Request(ip, now), window as real)
      ensures admitted == Admits(old(Now()), Request(ip, now), limit, window as real)
      ensures !admitted && hits[ip].start <= now ==>
        && 1 <= retry <= window && now + retry as real + 1.0 > hits[ip].start + window as real
        && (retry > 1 ==> now + retry as real <= hits[ip].start + window as real)
    {
      if now - lastSweep >= window as real {
        Sweep(now);
        lastSweep := now;
      }
      var w := if ip in hits then hits[ip] else Window(now, 0);
      if now - w.start >= window as real { w := Window(now, 0); }
      w := w.(count := w.count + 1);
      hits := hits[ip := w];
      admitted := w.count <= limit;
      var left := (window as real - (now - w.start)).Floor;
      retry := if left < 1 then 1 else left;
    }
  }
}
