/** What a route table means: resolution by narrowing the plain list of added handlers. */
module Routes {
  import opened Basics

  datatype Segment = Segment(isDynamic: bool, name: string)

  datatype Entry = Entry(version: string, segments: seq<Segment>, verb: string, handler: int)

  /** What a segment matches: a name, or anything. */
  datatype Key = Lit(name: string) | Any

  function KeyOf(s: Segment): Key { if s.isDynamic then Any else Lit(s.name) }

  // ---------------------------------------------------------------- narrowing

  function InVersion(list: seq<Entry>, v: string): seq<Entry> {
    if list == [] then [] else
    InVersion(list[..|list| - 1], v) + if list[|list| - 1].version == v then [list[|list| - 1]] else []
  }

  predicate HasKey(e: Entry, d: nat, k: Key) { d < |e.segments| && KeyOf(e.segments[d]) == k }

  /** The entries whose segment number `d` matches `k`, in the order they were added. */
  function Candidates(list: seq<Entry>, d: nat, k: Key): (r: seq<Entry>)
    ensures forall e :: e in r ==> HasKey(e, d, k)
  {
    if list == [] then [] else
    Candidates(list[..|list| - 1], d, k) + if HasKey(list[|list| - 1], d, k) then [list[|list| - 1]] else []
  }

  predicate EndsHere(e: Entry, d: nat, verb: string) { |e.segments| == d && e.verb == verb }

  /** The last added entry that ends at depth `d` with this method. */
  function Last(list: seq<Entry>, d: nat, verb: string): Option<Entry> {
    if list == [] then None
    else if EndsHere(list[|list| - 1], d, verb) then Some(list[|list| - 1])
    else Last(list[..|list| - 1], d, verb)
  }

  function Verbs(list: seq<Entry>, d: nat): set<string> { set e | e in list && |e.segments| == d :: e.verb }

  datatype Resolution = Found(entry: Entry, params: map<string, string>) | NotFound | NotAllowed(allowed: set<string>)

  function Final(list: seq<Entry>, d: nat, verb: string, params: map<string, string>): Resolution {
    var e := Last(list, d, verb);
    if e.Some? then Found(e.value, params)
    else if Verbs(list, d) != {} then NotAllowed(Verbs(list, d))
    else NotFound
  }

  /** Segment by segment: entries with that very name if there are any, else the dynamic ones,
      whose first added name takes the value; no way back. */
  function Narrow(list: seq<Entry>, d: nat, path: seq<string>, verb: string, params: map<string, string>): Resolution
    requires d <= |path|
    decreases |path| - d
  {
    if d == |path| then Final(list, d, verb, params) else
    var named := Candidates(list, d, Lit(path[d]));
    if named != [] then Narrow(named, d + 1, path, verb, params) else
    var anything := Candidates(list, d, Any);
    if anything != [] then Narrow(anything, d + 1, path, verb, params[FirstName(anything, d) := path[d]])
    else NotFound
  }

  function FirstName(list: seq<Entry>, d: nat): string
    requires list != [] && HasKey(list[0], d, Any)
  {
    list[0].segments[d].name
  }

  predicate IsDigit(c: char) { '0' <= c <= '9' }

  /** `^v\d+$`. */
  predicate IsVersion(s: string) { |s| > 1 && s[0] == 'v' && forall i :: 1 <= i < |s| ==> IsDigit(s[i]) }

  function Upper(s: string): string {
    seq(|s|, i requires 0 <= i < |s| => if 'a' <= s[i] <= 'z' then 'A' + (s[i] - 'a') else s[i])
  }

  /** `resolve` on the plain list of added entries. */
  function Resolve(list: seq<Entry>, verb: string, segments: seq<string>): Resolution {
    if segments == [] || !IsVersion(segments[0]) then NotFound else
    var mine := InVersion(list, segments[0]);
    if mine == [] then NotFound else Narrow(mine, 0, segments[1..], Upper(verb), map[])
  }

  /** Adding to one version never changes another. */
  lemma OtherVersionsUnchanged(list: seq<Entry>, e: Entry, verb: string, segments: seq<string>)
    requires segments == [] || segments[0] != e.version
    ensures Resolve(list + [e], verb, segments) == Resolve(list, verb, segments)
  {
    assert (list + [e])[..|list|] == list;
    if segments != [] { assert InVersion(list, segments[0]) + [] == InVersion(list, segments[0]); }
  }

  // ---------------------------------------------------------------- places in the trie

  /** A place: a version, then keys from the outside in. */
  datatype Path = Root(version: string) | Down(parent: Path, key: Key)

  function Depth(p: Path): nat { if p.Root? then 0 else Depth(p.parent) + 1 }

  /** The place of the first `i` segments of an entry. */
  function Place(e: Entry, i: nat): (p: Path)
    requires i <= |e.segments|
    ensures Depth(p) == i
  {
    if i == 0 then Root(e.version) else Down(Place(e, i - 1), KeyOf(e.segments[i - 1]))
  }

  predicate Passes(e: Entry, p: Path) { Depth(p) <= |e.segments| && Place(e, Depth(p)) == p }

  /** The entries that lead through a place: the list as narrowed on the way there. */
  function Through(list: seq<Entry>, p: Path): seq<Entry> {
    match p
    case Root(v) => InVersion(list, v)
    case Down(q, k) => Candidates(Through(list, q), Depth(q), k)
  }

  lemma {:induction false} ThroughNothing(p: Path)
    ensures Through([], p) == []
  {
    if p.Down? { ThroughNothing(p.parent); }
  }

  lemma {:induction false} CandidatesAppend(list: seq<Entry>, e: Entry, d: nat, k: Key)
    ensures Candidates(list + [e], d, k) == Candidates(list, d, k) + if HasKey(e, d, k) then [e] else []
  {
    assert (list + [e])[..|list|] == list;
  }

  /** One more entry shows up at the end, at exactly the places it passes. */
  lemma {:induction false} ThroughAppend(list: seq<Entry>, e: Entry, p: Path)
    ensures Through(list + [e], p) == Through(list, p) + if Passes(e, p) then [e] else []
  {
    match p
    case Root(v) => assert (list + [e])[..|list|] == list;
    case Down(q, k) =>
      ThroughAppend(list, e, q);
      if Passes(e, q) {
        CandidatesAppend(Through(list, q), e, Depth(q), k);
      } else {
        assert Through(list, q) + [] == Through(list, q);
      }
  }

  /** Exactly the added entries that pass a place lead through it. */
  lemma {:induction false} ThroughMeans(list: seq<Entry>, p: Path, e: Entry)
    ensures e in Through(list, p) <==> e in list && Passes(e, p)
  {
    if list == [] {
      ThroughNothing(p);
    } else {
      var rest, last := list[..|list| - 1], list[|list| - 1];
      assert list == rest + [last];
      ThroughMeans(rest, p, e);
      ThroughAppend(rest, last, p);
      assert e in list <==> e in rest || e == last;
    }
  }

  /** What stands at a place: the last entry of each method that ends there. */
  ghost predicate HandlersAt(handlers: map<string, Entry>, list: seq<Entry>, d: nat) {
    forall m :: Last(list, d, m) == if m in handlers then Some(handlers[m]) else None
  }

  lemma {:induction false} LastMeans(list: seq<Entry>, d: nat, verb: string)
    ensures verb in Verbs(list, d) <==> Last(list, d, verb).Some?
    ensures Last(list, d, verb).Some? ==>
      Last(list, d, verb).value in list && EndsHere(Last(list, d, verb).value, d, verb)
  {
    if list != [] {
      var rest, last := list[..|list| - 1], list[|list| - 1];
      assert list == rest + [last] && forall e :: e in list <==> e in rest || e == last;
      LastMeans(rest, d, verb);
      if verb in Verbs(list, d) {
        var e :| e in list && |e.segments| == d && e.verb == verb;
      }
    }
  }

  lemma HandlersKeys(handlers: map<string, Entry>, list: seq<Entry>, d: nat)
    requires HandlersAt(handlers, list, d)
    ensures handlers.Keys == Verbs(list, d)
  {
    forall m ensures m in handlers <==> m in Verbs(list, d) {
      LastMeans(list, d, m);
    }
  }

  lemma LastAppend(list: seq<Entry>, e: Entry, d: nat, verb: string)
    ensures Last(list + [e], d, verb) == if EndsHere(e, d, verb) then Some(e) else Last(list, d, verb)
  {
    assert (list + [e])[..|list|] == list;
  }

  /** The distinct (place, method) pairs of a list. */
  function Slots(list: seq<Entry>): set<(Path, string)> { set e | e in list :: SlotOf(e) }

  function SlotOf(e: Entry): (Path, string) { (Place(e, |e.segments|), e.verb) }

  /** A slot is taken exactly when its place has a handler for its method. */
  lemma SlotTaken(list: seq<Entry>, p: Path, verb: string)
    ensures (p, verb) in Slots(list) <==> Last(Through(list, p), Depth(p), verb).Some?
  {
    var there := Through(list, p);
    LastMeans(there, Depth(p), verb);
    if verb in Verbs(there, Depth(p)) {
      var e :| e in there && |e.segments| == Depth(p) && e.verb == verb;
      ThroughMeans(list, p, e);
      assert SlotOf(e) == (p, verb);
    }
    if (p, verb) in Slots(list) {
      var e :| e in list && SlotOf(e) == (p, verb);
      ThroughMeans(list, p, e);
    }
  }

  // ---------------------------------------------------------------- surviving entries

  /** No later entry took this one's slot. */
  predicate Surviving(list: seq<Entry>, e: Entry) {
    Last(Through(list, Place(e, |e.segments|)), |e.segments|, e.verb) == Some(e)
  }

  function MaxDepth(list: seq<Entry>): nat {
    if list == [] then 0 else
    var rest := MaxDepth(list[1..]);
    if |list[0].segments| > rest then |list[0].segments| else rest
  }

  lemma {:induction false} DepthBounded(list: seq<Entry>, e: Entry)
    requires e in list
    ensures |e.segments| <= MaxDepth(list)
  {
    if e != list[0] { DepthBounded(list[1..], e); }
  }

  lemma PlaceBounded(list: seq<Entry>, p: Path)
    requires Through(list, p) != []
    ensures Depth(p) <= MaxDepth(list)
  {
    var e := Through(list, p)[0];
    ThroughMeans(list, p, e);
    DepthBounded(list, e);
  }

  /** The handler standing at a place is the surviving entry of its slot. */
  lemma HandlerSurvives(list: seq<Entry>, p: Path, verb: string)
    requires Last(Through(list, p), Depth(p), verb).Some?
    ensures var e := Last(Through(list, p), Depth(p), verb).value;
      Surviving(list, e) && SlotOf(e) == (p, verb) && e in list
  {
    LastMeans(Through(list, p), Depth(p), verb);
    ThroughMeans(list, p, Last(Through(list, p), Depth(p), verb).value);
  }

  lemma SurvivorPasses(list: seq<Entry>, e: Entry, p: Path)
    requires Surviving(list, e) && Passes(e, p)
    ensures Through(list, p) != []
  {
    var q := Place(e, |e.segments|);
    LastMeans(Through(list, q), |e.segments|, e.verb);
    ThroughMeans(list, q, e);
    ThroughMeans(list, p, e);
  }

  /** An entry through a place ends there or goes on to exactly one place below. */
  lemma PassesBelow(e: Entry, p: Path, k: Key)
    ensures Passes(e, Down(p, k)) <==> Passes(e, p) && HasKey(e, Depth(p), k)
  {
  }

  function SlotsOf(r: seq<Entry>): set<(Path, string)> { set e | e in r :: SlotOf(e) }

  lemma OnePerSlot(list: seq<Entry>, a: Entry, b: Entry)
    requires Surviving(list, a) && Surviving(list, b)
    ensures SlotOf(a) == SlotOf(b) ==> a == b
  {
  }

  lemma {:induction false} SlotsCounted(list: seq<Entry>, r: seq<Entry>)
    requires Distinct(r) && forall e :: e in r ==> Surviving(list, e)
    ensures |SlotsOf(r)| == |r|
  {
    hide Surviving;
    hide SlotOf;
    if r != [] {
      var rest, last := r[..|r| - 1], r[|r| - 1];
      SlotsCounted(list, rest);
      assert r == rest + [last] && last !in rest;
      assert SlotsOf(r) == SlotsOf(rest) + {SlotOf(last)};
      forall e | e in rest ensures SlotOf(e) != SlotOf(last) {
        assert e in r;
        OnePerSlot(list, e, last);
      }
    }
  }

  /** Listing the survivors once each lists each slot once. */
  lemma SurvivorsFillSlots(list: seq<Entry>, r: seq<Entry>)
    requires Distinct(r) && forall e :: e in r <==> Surviving(list, e)
    ensures |r| == |Slots(list)|
  {
    SlotsCounted(list, r);
    forall slot ensures slot in SlotsOf(r) <==> slot in Slots(list) {
      SlotTaken(list, slot.0, slot.1);
      if slot in Slots(list) {
        HandlerSurvives(list, slot.0, slot.1);
        assert Last(Through(list, slot.0), Depth(slot.0), slot.1).value in r;
      }
      if slot in SlotsOf(r) {
        var e :| e in r && SlotOf(e) == slot;
        assert Surviving(list, e);
      }
    }
    assert SlotsOf(r) == Slots(list);
  }

  lemma DistinctAppend(a: seq<Entry>, b: seq<Entry>)
    requires Distinct(a) && Distinct(b) && forall e :: e in a ==> e !in b
    ensures Distinct(a + b)
  {
    forall i, j | 0 <= i < j < |a + b| ensures (a + b)[i] != (a + b)[j] {
      if i < |a| <= j { assert a[i] in a && b[j - |a|] in b; }
    }
  }
}
