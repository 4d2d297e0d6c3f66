/** The route trie, changed in place: nodes linked by static and dynamic children. */
module Registry {
  import opened Basics
  import opened Routes
  import opened StringOrder

  class RouteNode {
    var statics: map<string, RouteNode>
    var dynamic_: RouteNode?
    var paramName: string
    var handlers: map<string, Entry>
    ghost const place: Path

    constructor (paramName: string, ghost place: Path)
      ensures statics == map[] && dynamic_ == null && handlers == map[] && this.paramName == paramName &&
        this.place == place
      ensures forall k :: Child(k) == null
    {
      statics, dynamic_, handlers := map[], null, map[];
      this.paramName := paramName;
      this.place := place;
    }

    /** The child under a key. */
    ghost function Child(k: Key): RouteNode?
      reads this`statics, this`dynamic_
    {
      match k
      case Lit(name) => if name in statics then statics[name] else null
      case Any => dynamic_
    }

    method SetChild(k: Key, child: RouteNode)
      modifies this`statics, this`dynamic_
      ensures forall x :: Child(x) == if x == k then child else old(Child(x))
    {
      match k {
        case Lit(x) => statics := statics[x := child];
        case Any => dynamic_ := child;
      }
    }
  }

  /** The nodes hang together: one object for each place, linked exactly to the places below it. */
  ghost predicate Linked(versions: map<string, RouteNode>, nodes: map<Path, RouteNode>)
    reads nodes.Values`statics, nodes.Values`dynamic_
  {
    && (forall v :: v in versions <==> Root(v) in nodes)
    && (forall v :: v in versions ==> versions[v] == nodes[Root(v)])
    && (forall p, k :: Down(p, k) in nodes ==> p in nodes)
    && (forall p {:trigger nodes[p]} :: p in nodes ==> nodes[p].place == p)
    && (forall p, k {:trigger nodes[p].Child(k)} :: p in nodes ==>
      nodes[p].Child(k) == if Down(p, k) in nodes then nodes[Down(p, k)] else null)
  }

  lemma LinkedAt(versions: map<string, RouteNode>, nodes: map<Path, RouteNode>, p: Path, k: Key)
    requires Linked(versions, nodes) && p in nodes
    ensures nodes[p].place == p
    ensures nodes[p].Child(k) == if Down(p, k) in nodes then nodes[Down(p, k)] else null
  {
  }

  // ---------------------------------------------------------------- what the nodes hold

  datatype Content = Content(param: string, handlers: map<string, Entry>)

  ghost function Contents(nodes: map<Path, RouteNode>): map<Path, Content>
    reads nodes.Values`paramName, nodes.Values`handlers
  {
    map p | p in nodes :: Content(nodes[p].paramName, nodes[p].handlers)
  }

  /** The node at `p` holds the last handler of each method ending there, and if it is dynamic the
      parameter name of the first entry through it. */
  ghost predicate Holds(c: Content, list: seq<Entry>, p: Path) {
    && HandlersAt(c.handlers, Through(list, p), Depth(p))
    && (p.Down? && p.key.Any? && Through(list, p) != [] ==> c.param == FirstName(Through(list, p), Depth(p.parent)))
  }

  /** There is a node for exactly the places the list leads through. */
  ghost predicate Represents(c: map<Path, Content>, list: seq<Entry>) {
    && (forall p {:trigger p in c} :: p in c <==> Through(list, p) != [])
    && (forall p {:trigger c[p]} :: p in c ==> Holds(c[p], list, p))
  }

  /** On the way of `e` into the trie: its first `i` places have nodes too. */
  ghost predicate Growing(c: map<Path, Content>, list: seq<Entry>, e: Entry, i: nat) {
    && (forall p {:trigger p in c} :: p in c <==> Through(list, p) != [] || (Passes(e, p) && Depth(p) <= i))
    && (forall p {:trigger c[p]} :: p in c ==> HoldsFor(c[p], list, e, p))
  }

  ghost predicate HoldsFor(c: Content, list: seq<Entry>, e: Entry, p: Path) {
    if Through(list, p) != [] then Holds(c, list, p)
    else c.handlers == map[] && (p.Down? && p.key.Any? && Passes(e, p) ==> c.param == e.segments[Depth(p) - 1].name)
  }

  lemma GrowFirst(c: map<Path, Content>, list: seq<Entry>, e: Entry)
    requires Represents(c, list)
    ensures Growing(if Root(e.version) in c then c else c[Root(e.version) := Content("", map[])], list, e, 0)
  {
  }

  lemma GrowNext(c: map<Path, Content>, list: seq<Entry>, e: Entry, i: nat, name: string)
    requires Growing(c, list, e, i) && i < |e.segments| && (e.segments[i].isDynamic ==> name == e.segments[i].name)
    ensures var p := Place(e, i + 1); Growing(if p in c then c else c[p := Content(name, map[])], list, e, i + 1)
  {
    hide Through;
    hide Holds;
    hide Passes;
    var p := Place(e, i + 1);
    forall q ensures Passes(e, q) && Depth(q) <= i + 1 <==> (Passes(e, q) && Depth(q) <= i) || q == p {
      PassesNext(e, i, q);
    }
  }

  lemma PassesNext(e: Entry, i: nat, q: Path)
    requires i < |e.segments|
    ensures Passes(e, q) && Depth(q) <= i + 1 <==> (Passes(e, q) && Depth(q) <= i) || q == Place(e, i + 1)
  {
  }

  lemma HandlersPut(handlers: map<string, Entry>, here: seq<Entry>, e: Entry, d: nat)
    requires HandlersAt(handlers, here, d)
    ensures HandlersAt(if |e.segments| == d then handlers[e.verb := e] else handlers, here + [e], d)
  {
    var after := if |e.segments| == d then handlers[e.verb := e] else handlers;
    forall m ensures Last(here + [e], d, m) == if m in after then Some(after[m]) else None {
      LastAppend(here, e, d, m);
    }
  }

  /** With the handler set, the node holds what it should for the longer list. */
  lemma HoldsMore(c: Content, list: seq<Entry>, e: Entry, p: Path)
    requires HoldsFor(c, list, e, p) && (Through(list, p) != [] || Passes(e, p))
    ensures Holds(if p == Place(e, |e.segments|) then c.(handlers := c.handlers[e.verb := e]) else c, list + [e], p)
  {
    var here, d := Through(list, p), Depth(p);
    ThroughAppend(list, e, p);
    if Passes(e, p) {
      HandlersPut(c.handlers, here, e, d);
      assert p == Place(e, |e.segments|) <==> |e.segments| == d;
    } else {
      assert here + [] == here;
    }
  }

  lemma GrowDone(c: map<Path, Content>, list: seq<Entry>, e: Entry)
    requires Growing(c, list, e, |e.segments|)
    ensures var p := Place(e, |e.segments|);
      p in c && Represents(c[p := c[p].(handlers := c[p].handlers[e.verb := e])], list + [e])
  {
    var p := Place(e, |e.segments|);
    var after := c[p := c[p].(handlers := c[p].handlers[e.verb := e])];
    forall q ensures q in after <==> Through(list + [e], q) != [] {
      ThroughAppend(list, e, q);
    }
    forall q | q in after ensures Holds(after[q], list + [e], q) {
      HoldsMore(c[q], list, e, q);
    }
  }

  /** Before the handler is set, its method is there exactly when the slot is taken. */
  lemma SlotSeen(c: map<Path, Content>, list: seq<Entry>, e: Entry)
    requires Growing(c, list, e, |e.segments|)
    ensures var p := Place(e, |e.segments|); p in c && (e.verb in c[p].handlers <==> SlotOf(e) in Slots(list))
    ensures Slots(list + [e]) == Slots(list) + {SlotOf(e)}
  {
    var p := Place(e, |e.segments|);
    SlotTaken(list, p, e.verb);
    assert p in c && HoldsFor(c[p], list, e, p);
  }

  // ---------------------------------------------------------------- the registry

  /** A new node under `parent`. */
  method Attach(versions: map<string, RouteNode>, ghost nodes: map<Path, RouteNode>, parent: RouteNode, k: Key,
                name: string)
    returns (child: RouteNode, ghost grown: map<Path, RouteNode>)
    requires Linked(versions, nodes) && parent.place in nodes && nodes[parent.place] == parent &&
      Down(parent.place, k) !in nodes
    modifies parent`statics, parent`dynamic_
    ensures fresh(child) && parent.Child(k) == child && Linked(versions, grown)
    ensures grown == nodes[Down(parent.place, k) := child]
    ensures Contents(grown) == old(Contents(nodes))[Down(parent.place, k) := Content(name, map[])]
  {
    hide RouteNode.Child;
    ghost var p := parent.place;
    child := new RouteNode(name, Down(p, k));
    parent.SetChild(k, child);
    grown := nodes[Down(p, k) := child];
    forall q, x | q in grown
      ensures grown[q].Child(x) == if Down(q, x) in grown then grown[Down(q, x)] else null
    {
      if q in nodes && q != p {
        assert nodes[q].place == q && nodes[q] != parent && nodes[q] != child;
        assert grown[q].Child(x) == old(nodes[q].Child(x));
      } else if q == p {
        assert parent.Child(x) == if x == k then child else old(nodes[p].Child(x));
      } else {
        assert Down(q, x) !in nodes;
      }
    }
  }

  /** `sorted(...)` of some names. */
  method SortedKeys(names: set<string>) returns (r: seq<string>)
    ensures Ascending(r) && forall x :: x in r <==> x in names
  {
    var left := names;
    r := [];
    while left != {}
      invariant left <= names && Ascending(r) && forall x :: x in r <==> x in names && x !in left
    {
      var x :| x in left;
      left := left - {x};
      InsertKeepsOrder(x, r);
      r := Insert(x, r);
    }
  }

  /** A new root. */
  method Rooted(versions: map<string, RouteNode>, ghost nodes: map<Path, RouteNode>, v: string)
    returns (root: RouteNode, more: map<string, RouteNode>, ghost grown: map<Path, RouteNode>)
    requires Linked(versions, nodes) && v !in versions
    ensures fresh(root) && more == versions[v := root] && grown == nodes[Root(v) := root] && Linked(more, grown)
    ensures Contents(grown) == old(Contents(nodes))[Root(v) := Content("", map[])]
  {
    hide RouteNode.Child;
    root := new RouteNode("", Root(v));
    more, grown := versions[v := root], nodes[Root(v) := root];
  }

  /** A handler set at `node`. */
  method Put(versions: map<string, RouteNode>, ghost nodes: map<Path, RouteNode>, ghost p: Path, node: RouteNode,
             e: Entry)
    requires p in nodes && nodes[p] == node && Linked(versions, nodes)
    modifies node`handlers
    ensures var was := old(Contents(nodes));
      Contents(nodes) == was[p := was[p].(handlers := was[p].handlers[e.verb := e])]
  {
    node.handlers := node.handlers[e.verb := e];
  }

  class Registry {
    var versions: map<string, RouteNode>
    var count: nat
    ghost var nodes: map<Path, RouteNode>
    ghost var added: seq<Entry>

    ghost predicate Valid()
      reads this, nodes.Values
    {
      && Linked(versions, nodes)
      && Represents(Contents(nodes), added)
      && count == |Slots(added)|
    }

    constructor ()
      ensures Valid() && added == []
    {
      versions, count, nodes, added := map[], 0, map[], [];
      new;
      forall p ensures Through([], p) == [] { ThroughNothing(p); }
    }

    /** `add`: walk down, making nodes where there are none, and set the handler. */
    method Add(e: Entry)
      requires Valid()
      modifies this, nodes.Values
      ensures Valid() && added == old(added) + [e] && fresh(nodes.Values - old(nodes.Values))
    {
      hide Linked;
      hide Growing;
      hide Represents;
      var node := StepIn(e);
      for i := 0 to |e.segments|
        invariant Linked(versions, nodes) && Growing(Contents(nodes), added, e, i)
        invariant Place(e, i) in nodes && node == nodes[Place(e, i)] && fresh(nodes.Values - old(nodes.Values))
        invariant added == old(added) && count == old(count)
      {
        node := Step(e, i, node);
      }
      SetHandler(e, node);
    }

    method Step(e: Entry, i: nat, node: RouteNode) returns (next: RouteNode)
      requires i < |e.segments| && Place(e, i) in nodes && node == nodes[Place(e, i)] && Linked(versions, nodes)
      requires Growing(Contents(nodes), added, e, i)
      modifies this`nodes, node`statics, node`dynamic_
      ensures Linked(versions, nodes) && Place(e, i + 1) in nodes && next == nodes[Place(e, i + 1)]
      ensures fresh(nodes.Values - old(nodes.Values)) && Growing(Contents(nodes), added, e, i + 1)
    {
      hide Linked;
      hide Growing;
      GrowNext(Contents(nodes), added, e, i, if e.segments[i].isDynamic then e.segments[i].name else "");
      next := StepDown(e, i, node);
    }

    method SetHandler(e: Entry, node: RouteNode)
      requires Linked(versions, nodes) && Growing(Contents(nodes), added, e, |e.segments|) && count == |Slots(added)|
      requires Place(e, |e.segments|) in nodes && node == nodes[Place(e, |e.segments|)]
      modifies this`count, this`added, node`handlers
      ensures Valid() && nodes == old(nodes) && added == old(added) + [e]
    {
      hide Linked;
      hide Growing;
      hide Represents;
      hide Slots;
      hide Place;
      SlotSeen(Contents(nodes), added, e);
      GrowDone(Contents(nodes), added, e);
      ghost var p, was := Place(e, |e.segments|), Contents(nodes);
      ghost var grown := was[p := was[p].(handlers := was[p].handlers[e.verb := e])];
      assert node.handlers == was[p].handlers;
      assert SlotOf(e) in Slots(added) ==> Slots(added) + {SlotOf(e)} == Slots(added);
      if e.verb !in node.handlers { count := count + 1; }
      assert count == |Slots(added) + {SlotOf(e)}|;
      Put(versions, nodes, p, node, e);
      assert Contents(nodes) == grown;
      added := added + [e];
      assert Represents(Contents(nodes), added);
    }

    /** The root of the entry's version, made if missing. */
    method StepIn(e: Entry) returns (node: RouteNode)
      requires Valid()
      modifies this`versions, this`nodes
      ensures Linked(versions, nodes) && Growing(Contents(nodes), added, e, 0)
      ensures Root(e.version) in nodes && node == nodes[Root(e.version)] && fresh(nodes.Values - old(nodes.Values))
    {
      hide Growing;
      hide Represents;
      var v := e.version;
      ghost var was := Contents(nodes);
      GrowFirst(was, added, e);
      if v !in versions {
        node, versions, nodes := Rooted(versions, nodes, v);
      }
      node := versions[v];
    }

    /** To the child for segment `i`, made if missing. */
    method StepDown(e: Entry, i: nat, node: RouteNode) returns (next: RouteNode)
      requires i < |e.segments| && Place(e, i) in nodes && node == nodes[Place(e, i)] && Linked(versions, nodes)
      modifies this`nodes, node`statics, node`dynamic_
      ensures Linked(versions, nodes) && Place(e, i + 1) in nodes && next == nodes[Place(e, i + 1)]
      ensures fresh(nodes.Values - old(nodes.Values))
      ensures Contents(nodes) == if Place(e, i + 1) in old(nodes) then old(Contents(nodes))
        else old(Contents(nodes))[Place(e, i + 1) :=
          Content(if e.segments[i].isDynamic then e.segments[i].name else "", map[])]
    {
      hide Linked;
      hide Contents;
      var seg := e.segments[i];
      LinkedAt(versions, nodes, Place(e, i), KeyOf(seg));
      if seg.isDynamic {
        if node.dynamic_ == null { next, nodes := Attach(versions, nodes, node, Any, seg.name); }
        next := node.dynamic_;
      } else {
        if seg.name !in node.statics { next, nodes := Attach(versions, nodes, node, Lit(seg.name), ""); }
        next := node.statics[seg.name];
      }
      assert next == node.Child(KeyOf(seg));
    }

    /** A version has a root exactly when it has entries. */
    lemma RootOf(v: string)
      requires Valid()
      ensures v in versions <==> InVersion(added, v) != []
      ensures v in versions ==> Root(v) in nodes && versions[v] == nodes[Root(v)]
    {
      assert Root(v) in Contents(nodes) <==> Through(added, Root(v)) != [];
    }

    /** A node has a child exactly when entries go on that way. */
    lemma Below(p: Path, k: Key)
      requires Valid() && p in nodes
      ensures var on, child := Candidates(Through(added, p), Depth(p), k), nodes[p].Child(k);
        && (child != null <==> on != [])
        && (child != null ==> Down(p, k) in nodes && child == nodes[Down(p, k)] && Through(added, Down(p, k)) == on)
        && (child != null && k.Any? ==> child.paramName == FirstName(on, Depth(p)))
    {
      var q := Down(p, k);
      assert q in Contents(nodes) <==> Through(added, q) != [];
      if q in nodes { assert Holds(Contents(nodes)[q], added, q); }
    }

    lemma HandlersOf(p: Path)
      requires Valid() && p in nodes
      ensures HandlersAt(nodes[p].handlers, Through(added, p), Depth(p))
    {
      assert Holds(Contents(nodes)[p], added, p);
    }

    /** `resolve`: one walk down the trie; `allowed` is the list for the Allow header. */
    method Resolve(verb: string, segments: seq<string>) returns (r: Resolution, allowed: seq<string>)
      requires Valid()
      ensures r == Routes.Resolve(added, verb, segments)
      ensures Ascending(allowed) && forall m :: m in allowed <==> r.NotAllowed? && m in r.allowed
    {
      allowed := [];
      hide Represents;
      hide Linked;
      if segments == [] || !IsVersion(segments[0]) { return NotFound, []; }
      RootOf(segments[0]);
      if segments[0] !in versions { return NotFound, []; }
      var path := segments[1..];
      var node := versions[segments[0]];
      ghost var p := Root(segments[0]);
      var params: map<string, string> := map[];
      for d := 0 to |path|
        invariant p in nodes && node == nodes[p] && Depth(p) == d
        invariant Routes.Resolve(added, verb, segments) == Narrow(Through(added, p), d, path, Upper(verb), params)
      {
        var seg := path[d];
        Below(p, Lit(seg));
        Below(p, Any);
        assert seg in node.statics <==> node.Child(Lit(seg)) != null;
        if seg in node.statics {
          node := node.statics[seg];
          p := Down(p, Lit(seg));
        } else if node.dynamic_ != null {
          node := node.dynamic_;
          params := params[node.paramName := seg];
          p := Down(p, Any);
        } else {
          return NotFound, [];
        }
      }
      var m := Upper(verb);
      HandlersOf(p);
      HandlersKeys(node.handlers, Through(added, p), |path|);
      if m in node.handlers { return Found(node.handlers[m], params), []; }
      if node.handlers != map[] {
        assert node.handlers.Keys != {};
        allowed := SortedKeys(node.handlers.Keys);
        return NotAllowed(node.handlers.Keys), allowed;
      }
      r := NotFound;
    }

    /** The handlers of one node. */
    method HandlerList(node: RouteNode, ghost p: Path) returns (r: seq<Entry>)
      requires Valid() && p in nodes && node == nodes[p]
      ensures Distinct(r) && forall e :: e in r <==> Surviving(added, e) && Passes(e, p) && |e.segments| == Depth(p)
    {
      hide Represents;
      hide Linked;
      hide Surviving;
      HandlersOf(p);
      var left := node.handlers.Keys;
      r := [];
      while left != {}
        invariant left <= node.handlers.Keys && Distinct(r)
        invariant forall e :: e in r <==> e.verb in node.handlers && e.verb !in left && node.handlers[e.verb] == e
      {
        var m :| m in left;
        HandlerSurvives(added, p, m);
        left := left - {m};
        r := r + [node.handlers[m]];
      }
      forall e ensures e in r <==> Surviving(added, e) && Passes(e, p) && |e.segments| == Depth(p) {
        HandlerIsSurvivor(node, p, e);
      }
    }

    lemma HandlerIsSurvivor(node: RouteNode, p: Path, e: Entry)
      requires Valid() && p in nodes && node == nodes[p]
      ensures e.verb in node.handlers && node.handlers[e.verb] == e <==>
        Surviving(added, e) && Passes(e, p) && |e.segments| == Depth(p)
    {
      hide Represents;
      hide Linked;
      HandlersOf(p);
      if e.verb in node.handlers { HandlerSurvives(added, p, e.verb); }
    }

    /** `walk`: the handlers of a node, then those below its static and its dynamic children. */
    method Walk(node: RouteNode, ghost p: Path) returns (r: seq<Entry>)
      requires Valid() && p in nodes && node == nodes[p]
      ensures Distinct(r) && forall e :: e in r <==> Surviving(added, e) && Passes(e, p)
      decreases MaxDepth(added) - Depth(p), 1
    {
      hide Represents;
      hide Linked;
      hide Surviving;
      hide Passes;
      r := HandlerList(node, p);
      var left := node.statics.Keys;
      while left != {}
        invariant left <= node.statics.Keys && Distinct(r)
        invariant forall e :: e in r <==> Listed(e, p, node.statics.Keys - left, false)
      {
        var x :| x in left;
        var more := WalkChild(node, p, Lit(x), node.statics[x]);
        forall e ensures Listed(e, p, node.statics.Keys - (left - {x}), false) <==>
          Listed(e, p, node.statics.Keys - left, false) || (Surviving(added, e) && Passes(e, Down(p, Lit(x))))
        {
          PassesBelow(e, p, Lit(x));
        }
        forall e | e in r ensures e !in more { PassesBelow(e, p, Lit(x)); }
        DistinctAppend(r, more);
        r := r + more;
        left := left - {x};
      }
      if node.dynamic_ != null {
        var more := WalkChild(node, p, Any, node.dynamic_);
        forall e | e in r ensures e !in more { PassesBelow(e, p, Any); }
        DistinctAppend(r, more);
        r := r + more;
      }
      forall e ensures e in r <==> Surviving(added, e) && Passes(e, p) {
        AllListed(node, p, e);
        PassesBelow(e, p, Any);
      }
    }

    /** A surviving entry through `p` that ends there, or goes on to one of these names (or dynamically). */
    ghost predicate Listed(e: Entry, p: Path, names: set<string>, dynamically: bool)
      reads this
    {
      && Surviving(added, e) && Passes(e, p)
      && (|e.segments| == Depth(p) || (|e.segments| > Depth(p) &&
           match KeyOf(e.segments[Depth(p)]) case Lit(x) => x in names case Any => dynamically))
    }

    lemma AllListed(node: RouteNode, p: Path, e: Entry)
      requires Valid() && p in nodes && node == nodes[p]
      ensures Surviving(added, e) && Passes(e, p) <==> Listed(e, p, node.statics.Keys, node.dynamic_ != null)
    {
      hide Represents;
      hide Linked;
      if Surviving(added, e) && Passes(e, p) && |e.segments| > Depth(p) {
        var k := KeyOf(e.segments[Depth(p)]);
        PassesBelow(e, p, k);
        SurvivorPasses(added, e, Down(p, k));
        Below(p, k);
        assert node.Child(k) != null;
      }
    }

    method WalkChild(node: RouteNode, ghost p: Path, ghost k: Key, child: RouteNode) returns (r: seq<Entry>)
      requires Valid() && p in nodes && node == nodes[p] && node.Child(k) == child
      ensures Distinct(r) && forall e :: e in r <==> Surviving(added, e) && Passes(e, Down(p, k))
      decreases MaxDepth(added) - Depth(p), 0
    {
      hide Represents;
      hide Linked;
      hide Surviving;
      hide Passes;
      Below(p, k);
      PlaceBounded(added, Down(p, k));
      r := Walk(child, Down(p, k));
    }

    /** `entries`: every surviving entry exactly once, so as many as `len` says. */
    method Entries() returns (r: seq<Entry>)
      requires Valid()
      ensures Distinct(r) && forall e :: e in r <==> Surviving(added, e)
      ensures |r| == count
    {
      hide Represents;
      hide Linked;
      hide Surviving;
      var left := versions.Keys;
      r := [];
      while left != {}
        invariant left <= versions.Keys && Distinct(r)
        invariant forall e :: e in r <==> Surviving(added, e) && e.version in versions.Keys && e.version !in left
      {
        var v :| v in left;
        RootOf(v);
        var more := Walk(versions[v], Root(v));
        DistinctAppend(r, more);
        r := r + more;
        left := left - {v};
      }
      forall e ensures e in r <==> Surviving(added, e) {
        if Surviving(added, e) {
          SurvivorPasses(added, e, Root(e.version));
          RootOf(e.version);
        }
      }
      SurvivorsFillSlots(added, r);
    }
  }
}
