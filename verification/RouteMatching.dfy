/** What a resolution promises, said of the added entries one by one: no trie and no narrowing. */
module RouteMatching {
  import opened Basics
  import opened Routes

  // ---------------------------------------------------------------- the promise

  predicate Alike(a: Segment, b: Segment) { a.isDynamic == b.isDynamic && (a.isDynamic || a.name == b.name) }

  /** Two entries agree in their version and their first `n` segments, whatever dynamic ones are called. */
  predicate Agree(a: Entry, b: Entry, n: nat) {
    && a.version == b.version && n <= |a.segments| && n <= |b.segments|
    && forall j :: 0 <= j < n ==> Alike(a.segments[j], b.segments[j])
  }

  /** Segment `i` of `e` takes that of the path: by its name, or as a dynamic segment that no entry agreeing
      so far rules out with a static one of that name. */
  predicate Takes(list: seq<Entry>, e: Entry, path: seq<string>, i: nat)
    requires i < |e.segments| && i < |path|
  {
    if e.segments[i].isDynamic then
      forall f :: f in list && Agree(e, f, i) && i < |f.segments| ==> f.segments[i] != Segment(false, path[i])
    else e.segments[i].name == path[i]
  }

  predicate LeadsTo(list: seq<Entry>, e: Entry, path: seq<string>, n: nat)
    requires n <= |path|
  {
    n <= |e.segments| && forall i :: 0 <= i < n ==> Takes(list, e, path, i)
  }

  /** The entries at the place a request goes to. */
  predicate Meant(list: seq<Entry>, e: Entry, segments: seq<string>) {
    && segments != [] && IsVersion(segments[0])
    && e in list && e.version == segments[0] && |e.segments| == |segments| - 1
    && LeadsTo(list, e, segments[1..], |segments| - 1)
  }

  /** The same version, shape and method. */
  predicate SameSlot(a: Entry, b: Entry) {
    |a.segments| == |b.segments| && Agree(a, b, |a.segments|) && a.verb == b.verb
  }

  predicate LastAdded(list: seq<Entry>, e: Entry) {
    exists k :: 0 <= k < |list| && list[k] == e && forall j :: k < j < |list| ==> !SameSlot(e, list[j])
  }

  /** What segment `i` of `e` is called by the first added entry that agrees with it through there. */
  predicate FirstCalled(list: seq<Entry>, e: Entry, i: nat, name: string) {
    exists k :: 0 <= k < |list| && Agree(e, list[k], i + 1) && list[k].segments[i].name == name
                && forall j :: 0 <= j < k ==> !Agree(e, list[j], i + 1)
  }

  /** The parameter that segment `i` of `e` gives, if it is dynamic. */
  predicate Gives(list: seq<Entry>, e: Entry, i: nat, name: string) {
    i < |e.segments| && e.segments[i].isDynamic && FirstCalled(list, e, i, name)
  }

  /** Every dynamic segment among the first `n` gives its parameter; of two of one name the later counts. */
  ghost predicate Captured(list: seq<Entry>, e: Entry, path: seq<string>, n: nat, params: map<string, string>)
    requires n <= |path|
  {
    && (forall x :: x in params <==> exists i :: 0 <= i < n && Gives(list, e, i, x))
    && (forall i, x :: 0 <= i < n && Gives(list, e, i, x) && (forall j :: i < j < n ==> !Gives(list, e, j, x)) ==>
          x in params && params[x] == path[i])
  }

  // ---------------------------------------------------------------- places are agreements

  lemma {:induction false} AgreeIsPlace(a: Entry, b: Entry, n: nat)
    ensures Agree(a, b, n) <==> n <= |a.segments| && n <= |b.segments| && Place(a, n) == Place(b, n)
  {
    if n > 0 { AgreeIsPlace(a, b, n - 1); }
  }

  /** `p` is on the way of a request: each key is the name there, or anything when no entry has that name. */
  ghost predicate Way(list: seq<Entry>, path: seq<string>, p: Path) {
    match p
    case Root(_) => true
    case Down(q, k) =>
      && Way(list, path, q) && Depth(q) < |path|
      && (match k
          case Lit(name) => name == path[Depth(q)]
          case Any => Through(list, Down(q, Lit(path[Depth(q)]))) == [])
  }

  lemma NobodyThrough(list: seq<Entry>, p: Path)
    ensures Through(list, p) == [] <==> forall f :: f in list ==> !Passes(f, p)
  {
    if Through(list, p) != [] { ThroughMeans(list, p, Through(list, p)[0]); }
    if f :| f in list && Passes(f, p) { ThroughMeans(list, p, f); }
  }

  /** One step of the way. */
  lemma StepIsTaken(list: seq<Entry>, e: Entry, path: seq<string>, i: nat)
    requires i < |e.segments| && i < |path|
    ensures Takes(list, e, path, i) <==>
      match KeyOf(e.segments[i])
      case Lit(name) => name == path[i]
      case Any => Through(list, Down(Place(e, i), Lit(path[i]))) == []
  {
    var p := Down(Place(e, i), Lit(path[i]));
    NobodyThrough(list, p);
    forall f ensures Passes(f, p) <==> Agree(e, f, i) && i < |f.segments| && f.segments[i] == Segment(false, path[i]) {
      AgreeIsPlace(e, f, i);
    }
  }

  lemma {:induction false} WayIsLeading(list: seq<Entry>, e: Entry, path: seq<string>, n: nat)
    requires n <= |path| && n <= |e.segments|
    ensures LeadsTo(list, e, path, n) <==> Way(list, path, Place(e, n))
  {
    if n > 0 {
      WayIsLeading(list, e, path, n - 1);
      StepIsTaken(list, e, path, n - 1);
    }
  }

  function RootOf(p: Path): string {
    match p
    case Root(v) => v
    case Down(q, _) => RootOf(q)
  }

  lemma {:induction false} PlaceRoot(e: Entry, n: nat)
    requires n <= |e.segments|
    ensures RootOf(Place(e, n)) == e.version
  {
    if n > 0 { PlaceRoot(e, n - 1); }
  }

  lemma ParentPassed(list: seq<Entry>, p: Path)
    requires p.Down? && Through(list, p) != []
    ensures Through(list, p.parent) != []
  {
    NobodyThrough(list, p);
    NobodyThrough(list, p.parent);
    var f :| f in list && Passes(f, p);
    assert Passes(f, p.parent);
  }

  /** Entries on the way of one request pass the same places. */
  lemma {:induction false} OneWay(list: seq<Entry>, path: seq<string>, p: Path, q: Path)
    requires Way(list, path, p) && Way(list, path, q) && RootOf(p) == RootOf(q) && Depth(p) == Depth(q)
    requires Through(list, p) != [] && Through(list, q) != []
    ensures p == q
  {
    if p.Down? {
      ParentPassed(list, p);
      ParentPassed(list, q);
      OneWay(list, path, p.parent, q.parent);
    }
  }

  // ---------------------------------------------------------------- the first and the last of a place

  lemma {:induction false} FirstThrough(list: seq<Entry>, p: Path)
    requires Through(list, p) != []
    ensures exists k :: 0 <= k < |list| && list[k] == Through(list, p)[0] && Passes(list[k], p)
                        && forall j :: 0 <= j < k ==> !Passes(list[j], p)
  {
    if list == [] {
      ThroughNothing(p);
    } else {
      var rest, last := list[..|list| - 1], list[|list| - 1];
      assert list == rest + [last];
      ThroughAppend(rest, last, p);
      if Through(rest, p) != [] {
        FirstThrough(rest, p);
        var k :| 0 <= k < |rest| && rest[k] == Through(rest, p)[0] && Passes(rest[k], p)
                 && forall j :: 0 <= j < k ==> !Passes(rest[j], p);
        assert list[k] == rest[k] && forall j :: 0 <= j < k ==> list[j] == rest[j];
      } else {
        NobodyThrough(rest, p);
        assert list[|rest|] == last && Through(list, p)[0] == last;
        forall j | 0 <= j < |rest| ensures !Passes(list[j], p) { assert list[j] == rest[j] && rest[j] in rest; }
      }
    }
  }

  predicate EndsAt(e: Entry, p: Path, verb: string) { Passes(e, p) && |e.segments| == Depth(p) && e.verb == verb }

  predicate LastAt(list: seq<Entry>, e: Entry, p: Path, verb: string) {
    EndsAt(e, p, verb) &&
    exists k :: 0 <= k < |list| && list[k] == e && forall j :: k < j < |list| ==> !EndsAt(list[j], p, verb)
  }

  lemma {:induction false} LastThrough(list: seq<Entry>, p: Path, verb: string, e: Entry)
    ensures Last(Through(list, p), Depth(p), verb) == Some(e) <==> LastAt(list, e, p, verb)
  {
    if list == [] {
      ThroughNothing(p);
    } else {
      var rest, last := list[..|list| - 1], list[|list| - 1];
      assert list == rest + [last];
      LastThrough(rest, p, verb, e);
      ThroughAppend(rest, last, p);
      if Passes(last, p) {
        LastAppend(Through(rest, p), last, Depth(p), verb);
      } else {
        assert Through(rest, p) + [] == Through(rest, p);
      }
      LastAtMore(rest, last, e, p, verb);
    }
  }

  lemma LastAtMore(rest: seq<Entry>, last: Entry, e: Entry, p: Path, verb: string)
    ensures LastAt(rest + [last], e, p, verb) <==>
      if EndsAt(last, p, verb) then e == last else LastAt(rest, e, p, verb)
  {
    var list := rest + [last];
    assert list[|rest|] == last;
    if EndsAt(last, p, verb) {
      if LastAt(list, e, p, verb) {
        var k :| 0 <= k < |list| && list[k] == e && forall j :: k < j < |list| ==> !EndsAt(list[j], p, verb);
        assert k == |rest|;
      }
    } else {
      if LastAt(rest, e, p, verb) {
        var k :| 0 <= k < |rest| && rest[k] == e && forall j :: k < j < |rest| ==> !EndsAt(rest[j], p, verb);
        assert list[k] == e && forall j :: k < j < |list| ==> !EndsAt(list[j], p, verb);
      }
      if LastAt(list, e, p, verb) {
        var k :| 0 <= k < |list| && list[k] == e && forall j :: k < j < |list| ==> !EndsAt(list[j], p, verb);
        assert rest[k] == e && forall j :: k < j < |rest| ==> rest[j] == list[j];
      }
    }
  }

  /** The last added entry of a slot, said with and without places. */
  lemma LastAddedIs(list: seq<Entry>, e: Entry)
    ensures LastAdded(list, e) <==> LastAt(list, e, Place(e, |e.segments|), e.verb)
  {
    forall f ensures SameSlot(e, f) <==> EndsAt(f, Place(e, |e.segments|), e.verb) {
      AgreeIsPlace(e, f, |e.segments|);
    }
  }

  // ---------------------------------------------------------------- parameters on the way

  /** The parameters taken on the way to a place. */
  function Given(list: seq<Entry>, path: seq<string>, p: Path): map<string, string> {
    match p
    case Root(_) => map[]
    case Down(q, k) =>
      var before := Given(list, path, q);
      if k.Any? && Through(list, p) != [] && Depth(q) < |path| then
        before[FirstName(Through(list, p), Depth(q)) := path[Depth(q)]]
      else before
  }

  /** The first name through a place is the first name of the entries agreeing with one that passes it. */
  lemma FirstNameIs(list: seq<Entry>, e: Entry, i: nat, name: string)
    requires e in list && i < |e.segments| && e.segments[i].isDynamic
    ensures var there := Through(list, Place(e, i + 1));
      there != [] && (FirstCalled(list, e, i, name) <==> FirstName(there, i) == name)
  {
    var p := Place(e, i + 1);
    ThroughMeans(list, p, e);
    FirstThrough(list, p);
    forall f ensures Passes(f, p) <==> Agree(e, f, i + 1) { AgreeIsPlace(e, f, i + 1); }
  }

  lemma GivesIs(list: seq<Entry>, e: Entry, i: nat)
    requires e in list && i < |e.segments| && e.segments[i].isDynamic
    ensures var there := Through(list, Place(e, i + 1));
      there != [] && HasKey(there[0], i, Any) && forall x :: Gives(list, e, i, x) <==> x == FirstName(there, i)
  {
    hide FirstCalled;
    FirstNameIs(list, e, i, "");
    var first := FirstName(Through(list, Place(e, i + 1)), i);
    forall x ensures Gives(list, e, i, x) <==> x == first { FirstNameIs(list, e, i, x); }
  }

  lemma {:induction false} GivenIsCaptured(list: seq<Entry>, e: Entry, path: seq<string>, n: nat)
    requires e in list && n <= |e.segments| && n <= |path|
    ensures Captured(list, e, path, n, Given(list, path, Place(e, n)))
  {
    hide Through;
    hide Captured;
    hide FirstCalled;
    if n == 0 {
      CapturedNothing(list, e, path);
    } else {
      GivenIsCaptured(list, e, path, n - 1);
      var before := Given(list, path, Place(e, n - 1));
      if e.segments[n - 1].isDynamic {
        GivesIs(list, e, n - 1);
        CapturedMore(list, e, path, n - 1, before, FirstName(Through(list, Place(e, n)), n - 1));
      } else {
        CapturedSame(list, e, path, n - 1, before);
      }
    }
  }

  lemma CapturedNothing(list: seq<Entry>, e: Entry, path: seq<string>)
    ensures Captured(list, e, path, 0, map[])
  {
  }

  lemma CapturedMore(list: seq<Entry>, e: Entry, path: seq<string>, n: nat, params: map<string, string>, first: string)
    requires n < |path| && Captured(list, e, path, n, params)
    requires forall x :: Gives(list, e, n, x) <==> x == first
    ensures Captured(list, e, path, n + 1, params[first := path[n]])
  {
    hide Gives;
    var more := params[first := path[n]];
    forall x ensures x in more <==> exists i :: 0 <= i < n + 1 && Gives(list, e, i, x) {
      if x == first { assert Gives(list, e, n, x); }
    }
    forall i, x | 0 <= i < n + 1 && Gives(list, e, i, x) && (forall j :: i < j < n + 1 ==> !Gives(list, e, j, x))
      ensures x in more && more[x] == path[i]
    {
      if i < n { assert !Gives(list, e, n, x); }
    }
  }

  lemma CapturedSame(list: seq<Entry>, e: Entry, path: seq<string>, n: nat, params: map<string, string>)
    requires n < |path| && Captured(list, e, path, n, params) && forall x :: !Gives(list, e, n, x)
    ensures Captured(list, e, path, n + 1, params)
  {
    hide Gives;
  }

  /** There is one way to fill in the parameters. */
  lemma CapturedOnce(list: seq<Entry>, e: Entry, path: seq<string>, n: nat, a: map<string, string>,
                     b: map<string, string>)
    requires n <= |path| && Captured(list, e, path, n, a) && Captured(list, e, path, n, b)
    ensures a == b
  {
    hide Gives;
    forall x | x in a ensures x in b && a[x] == b[x] {
      var i :| 0 <= i < n && Gives(list, e, i, x);
      var k := LastGiver(list, e, n, i, x);
    }
    forall x | x in b ensures x in a { }
  }

  lemma {:induction false} LastGiver(list: seq<Entry>, e: Entry, n: nat, i: nat, x: string) returns (k: nat)
    requires i < n && Gives(list, e, i, x)
    ensures i <= k < n && Gives(list, e, k, x) && forall j :: k < j < n ==> !Gives(list, e, j, x)
    decreases n - i
  {
    hide Gives;
    if j :| i < j < n && Gives(list, e, j, x) {
      k := LastGiver(list, e, n, j, x);
    } else {
      k := i;
    }
  }

  // ---------------------------------------------------------------- the walk

  /** One segment: the place below by name if an entry leads there, else the dynamic one. */
  lemma NarrowStep(list: seq<Entry>, p: Path, path: seq<string>, verb: string)
    requires Depth(p) < |path|
    ensures var named, anything := Down(p, Lit(path[Depth(p)])), Down(p, Any);
      Narrow(Through(list, p), Depth(p), path, verb, Given(list, path, p)) ==
      if Through(list, named) != [] then
        Narrow(Through(list, named), Depth(p) + 1, path, verb, Given(list, path, named))
      else if Through(list, anything) != [] then
        Narrow(Through(list, anything), Depth(p) + 1, path, verb, Given(list, path, anything))
      else NotFound
  {
  }

  lemma NarrowDone(list: seq<Entry>, p: Path, path: seq<string>, verb: string)
    requires Depth(p) == |path|
    ensures Narrow(Through(list, p), Depth(p), path, verb, Given(list, path, p)) ==
      Final(Through(list, p), |path|, verb, Given(list, path, p))
  {
  }

  /** Narrowing goes the whole way, or gets stuck at a place with nothing fitting below. */
  lemma {:induction false} NarrowWalks(list: seq<Entry>, p: Path, path: seq<string>, verb: string) returns (q: Path)
    requires Depth(p) <= |path| && Way(list, path, p) && Through(list, p) != []
    ensures Way(list, path, q) && Through(list, q) != [] && RootOf(q) == RootOf(p) && Depth(q) <= |path|
    ensures Narrow(Through(list, p), Depth(p), path, verb, Given(list, path, p)) ==
      if Depth(q) == |path| then Final(Through(list, q), |path|, verb, Given(list, path, q)) else NotFound
    ensures Depth(q) < |path| ==>
      Through(list, Down(q, Lit(path[Depth(q)]))) == [] && Through(list, Down(q, Any)) == []
    decreases |path| - Depth(p)
  {
    hide Narrow;
    hide Through;
    hide Given;
    hide Final;
    if Depth(p) == |path| {
      NarrowDone(list, p, path, verb);
      return p;
    }
    NarrowStep(list, p, path, verb);
    var named, anything := Down(p, Lit(path[Depth(p)])), Down(p, Any);
    if Through(list, named) != [] {
      q := NarrowWalks(list, named, path, verb);
    } else if Through(list, anything) != [] {
      q := NarrowWalks(list, anything, path, verb);
    } else {
      q := p;
    }
  }

  /** An entry that is meant stands where the walk ends. */
  lemma MeantStandsThere(list: seq<Entry>, e: Entry, segments: seq<string>, q: Path)
    requires Meant(list, e, segments)
    requires Way(list, segments[1..], q) && Through(list, q) != [] && RootOf(q) == segments[0]
    requires Depth(q) <= |segments| - 1
    requires Depth(q) < |segments| - 1 ==>
      Through(list, Down(q, Lit(segments[1..][Depth(q)]))) == [] && Through(list, Down(q, Any)) == []
    ensures Depth(q) == |segments| - 1 && Place(e, |e.segments|) == q
  {
    var path, d := segments[1..], Depth(q);
    assert LeadsTo(list, e, path, d);
    WayIsLeading(list, e, path, d);
    PlaceRoot(e, d);
    ThroughMeans(list, Place(e, d), e);
    OneWay(list, path, Place(e, d), q);
    if d < |path| {
      StepIsTaken(list, e, path, d);
      assert Takes(list, e, path, d);
      ThroughMeans(list, Place(e, d + 1), e);
    }
  }

  /** And every entry that ends there is meant. */
  lemma StandingIsMeant(list: seq<Entry>, e: Entry, segments: seq<string>, q: Path)
    requires segments != [] && IsVersion(segments[0]) && Way(list, segments[1..], q) && RootOf(q) == segments[0]
    requires Depth(q) == |segments| - 1 && e in list && Passes(e, q) && |e.segments| == Depth(q)
    ensures Meant(list, e, segments)
  {
    WayIsLeading(list, e, segments[1..], |e.segments|);
    PlaceRoot(e, |e.segments|);
  }

  /** Where the walk ends, and what it finds there. */
  lemma WalkEnds(list: seq<Entry>, verb: string, segments: seq<string>) returns (end: Option<Path>)
    ensures end.None? ==> Resolve(list, verb, segments) == NotFound && forall e :: !Meant(list, e, segments)
    ensures end.Some? ==>
      && segments != [] && Depth(end.value) == |segments| - 1
      && Resolve(list, verb, segments) ==
         Final(Through(list, end.value), |segments| - 1, Upper(verb), Given(list, segments[1..], end.value))
      && forall e :: Meant(list, e, segments) <==>
           e in list && Place(e, |e.segments|) == end.value && |e.segments| == |segments| - 1
  {
    end := None;
    if segments != [] && IsVersion(segments[0]) {
      var root, path := Root(segments[0]), segments[1..];
      if Through(list, root) != [] {
        var q := NarrowWalks(list, root, path, Upper(verb));
        forall e | Meant(list, e, segments)
          ensures Depth(q) == |path| && Place(e, |e.segments|) == q
        {
          MeantStandsThere(list, e, segments, q);
        }
        if Depth(q) == |path| {
          end := Some(q);
          forall e | e in list && Place(e, |e.segments|) == q && |e.segments| == |path|
            ensures Meant(list, e, segments)
          {
            StandingIsMeant(list, e, segments, q);
          }
        }
      } else {
        forall e ensures !Meant(list, e, segments) {
          if Meant(list, e, segments) { ThroughMeans(list, root, e); }
        }
      }
    }
  }

  // ---------------------------------------------------------------- what a resolution means

  /** The methods of the entries that are meant. */
  ghost function Methods(list: seq<Entry>, segments: seq<string>): set<string> {
    set e | e in list && Meant(list, e, segments) :: e.verb
  }

  lemma MethodsAre(list: seq<Entry>, segments: seq<string>, q: Path)
    requires forall e :: Meant(list, e, segments) <==>
      e in list && Place(e, |e.segments|) == q && |e.segments| == |segments| - 1
    requires Depth(q) == |segments| - 1
    ensures Methods(list, segments) == Verbs(Through(list, q), Depth(q))
  {
    hide Meant;
    forall m ensures m in Methods(list, segments) <==> m in Verbs(Through(list, q), Depth(q)) {
      if m in Methods(list, segments) {
        var e :| e in list && Meant(list, e, segments) && e.verb == m;
        ThroughMeans(list, q, e);
      }
      if m in Verbs(Through(list, q), Depth(q)) {
        var e :| e in Through(list, q) && |e.segments| == Depth(q) && e.verb == m;
        ThroughMeans(list, q, e);
      }
    }
  }

  /** Main result: a request finds an entry if and only if that is the last added of its slot among those
      meant, with the parameters its dynamic segments give; a method nobody has at a place that has some is
      not allowed there; anything else is not found. */
  lemma ResolveMeans(list: seq<Entry>, verb: string, segments: seq<string>)
    ensures var r, methods := Resolve(list, verb, segments), Methods(list, segments);
      && (forall e, params :: r == Found(e, params) <==>
           Meant(list, e, segments) && e.verb == Upper(verb) && LastAdded(list, e)
           && Captured(list, e, segments[1..], |segments| - 1, params))
      && (forall ms :: r == NotAllowed(ms) <==> Upper(verb) !in methods && methods != {} && ms == methods)
      && (r == NotFound <==> methods == {})
  {
    var end := WalkEnds(list, verb, segments);
    if end.None? {
      assert Methods(list, segments) == {};
    } else {
      FinalMeans(list, verb, segments, end.value);
    }
  }

  lemma FinalMeans(list: seq<Entry>, verb: string, segments: seq<string>, q: Path)
    requires segments != [] && Depth(q) == |segments| - 1
    requires forall e :: Meant(list, e, segments) <==>
      e in list && Place(e, |e.segments|) == q && |e.segments| == |segments| - 1
    ensures var methods := Methods(list, segments);
      var r := Final(Through(list, q), |segments| - 1, Upper(verb), Given(list, segments[1..], q));
      && (forall e, params :: r == Found(e, params) <==>
           Meant(list, e, segments) && e.verb == Upper(verb) && LastAdded(list, e)
           && Captured(list, e, segments[1..], |segments| - 1, params))
      && (forall ms :: r == NotAllowed(ms) <==> Upper(verb) !in methods && methods != {} && ms == methods)
      && (r == NotFound <==> methods == {})
  {
    hide Meant;
    hide LastAdded;
    hide Captured;
    hide Given;
    var path, params := segments[1..], Given(list, segments[1..], q);
    MethodsAre(list, segments, q);
    LastMeans(Through(list, q), |path|, Upper(verb));
    forall e ensures Last(Through(list, q), |path|, Upper(verb)) == Some(e) <==>
      Meant(list, e, segments) && e.verb == Upper(verb) && LastAdded(list, e)
    {
      LastThrough(list, q, Upper(verb), e);
      LastAddedIs(list, e);
    }
    forall e, given | Meant(list, e, segments)
      ensures Captured(list, e, path, |path|, given) <==> given == params
    {
      GivenIsCaptured(list, e, path, |path|);
      if Captured(list, e, path, |path|, given) { CapturedOnce(list, e, path, |path|, given, params); }
    }
  }
}
