/**
 * Bounds on parsed JSON documents: node count, leaf-inclusive depth, and the
 * width of every container.
 *
 * Main results: `ValidateJsonLimits`, the explicit-stack walk terminates and
 * decides the recursive definition of the limits, and `LimitsByPlaces`, which
 * says what they mean place by place.
 */
module JsonBounds {
  import opened Wrappers

  const MAX_JSON_DEPTH := 24
  const MAX_JSON_CONTAINER_ITEMS := 10_000
  const MAX_JSON_NODES := 50_000

  // A parsed JSON value; of an atom, and of the keys of a dictionary, nothing more matters here.
  datatype Json = Atom | List(items: seq<Json>) | Dict(values: seq<Json>)

  function Children(v: Json): seq<Json> {
    match v
    case Atom => []
    case List(items) => items
    case Dict(values) => values
  }

  // ----- The limits, by recursion on the value -----

  function Nodes(v: Json): (n: nat)
    ensures n >= 1
    decreases v, 1
  {
    match v
    case Atom => 1
    case List(items) => 1 + NodesAll(items)
    case Dict(values) => 1 + NodesAll(values)
  }

  function NodesAll(vs: seq<Json>): nat
    decreases vs, 0
  {
    if vs == [] then 0 else Nodes(vs[0]) + NodesAll(vs[1..])
  }

  // Depth counted with leaves as a level.
  function Height(v: Json): (n: nat)
    ensures n >= 1
    decreases v, 1
  {
    match v
    case Atom => 1
    case List(items) => 1 + HeightAll(items)
    case Dict(values) => 1 + HeightAll(values)
  }

  function HeightAll(vs: seq<Json>): nat
    decreases vs, 0
  {
    if vs == [] then 0
    else if Height(vs[0]) > HeightAll(vs[1..]) then Height(vs[0]) else HeightAll(vs[1..])
  }

  predicate WidthsOk(v: Json)
    decreases v, 1
  {
    match v
    case Atom => true
    case List(items) => |items| <= MAX_JSON_CONTAINER_ITEMS && WidthsOkAll(items)
    case Dict(values) => |values| <= MAX_JSON_CONTAINER_ITEMS && WidthsOkAll(values)
  }

  predicate WidthsOkAll(vs: seq<Json>)
    decreases vs, 0
  {
    vs == [] || (WidthsOk(vs[0]) && WidthsOkAll(vs[1..]))
  }

  predicate WithinLimits(v: Json) {
    Nodes(v) <= MAX_JSON_NODES && Height(v) <= MAX_JSON_DEPTH && WidthsOk(v)
  }

  // ----- The work list -----

  datatype Pending = Pending(value: Json, depth: nat)

  function Pend(vs: seq<Json>, depth: nat): (r: seq<Pending>)
    ensures |r| == |vs|
    ensures forall i :: 0 <= i < |vs| ==> r[i] == Pending(vs[i], depth)
  {
    if vs == [] then [] else [Pending(vs[0], depth)] + Pend(vs[1..], depth)
  }

  function NodesPending(stack: seq<Pending>): nat {
    if stack == [] then 0 else NodesPending(stack[..|stack| - 1]) + Nodes(stack[|stack| - 1].value)
  }

  function Bottom(p: Pending): nat {
    p.depth + Height(p.value) - 1
  }

  // Everything below the pending values respects depth and width.
  predicate PendingOk(stack: seq<Pending>) {
    forall i :: 0 <= i < |stack| ==> Bottom(stack[i]) <= MAX_JSON_DEPTH && WidthsOk(stack[i].value)
  }

  // Every pending value is a part of `v`, at its depth.
  ghost predicate PartsOf(stack: seq<Pending>, v: Json) {
    forall i :: 0 <= i < |stack| ==> Bottom(stack[i]) <= Height(v) && (!WidthsOk(stack[i].value) ==> !WidthsOk(v))
  }

  lemma {:induction false} NodesPendingConcat(a: seq<Pending>, b: seq<Pending>)
    ensures NodesPending(a + b) == NodesPending(a) + NodesPending(b)
  {
    if b == [] {
      assert a + b == a;
    } else {
      assert (a + b)[..|a + b| - 1] == a + b[..|b| - 1];
      NodesPendingConcat(a, b[..|b| - 1]);
    }
  }

  lemma {:induction false} NodesOfPend(vs: seq<Json>, depth: nat)
    ensures NodesPending(Pend(vs, depth)) == NodesAll(vs)
  {
    if vs != [] {
      NodesOfPend(vs[1..], depth);
      NodesPendingConcat([Pending(vs[0], depth)], Pend(vs[1..], depth));
      assert [Pending(vs[0], depth)][..0] == [];
    }
  }

  // Height and widths of a list of values, element by element.
  lemma {:induction false} AllMeans(vs: seq<Json>, bound: nat)
    ensures HeightAll(vs) <= bound <==> forall i :: 0 <= i < |vs| ==> Height(vs[i]) <= bound
    ensures WidthsOkAll(vs) <==> forall i :: 0 <= i < |vs| ==> WidthsOk(vs[i])
  {
    if vs != [] {
      AllMeans(vs[1..], bound);
      assert vs == [vs[0]] + vs[1..];
    }
  }

  lemma {:induction false} ChildrenMeans(v: Json)
    ensures Nodes(v) == 1 + NodesAll(Children(v)) && Height(v) == 1 + HeightAll(Children(v))
    ensures WidthsOk(v) <==> |Children(v)| <= MAX_JSON_CONTAINER_ITEMS && WidthsOkAll(Children(v))
  {
  }

  // One value taken off the stack and replaced by its children.
  lemma {:induction false} Expand(p: Pending)
    requires |Children(p.value)| <= MAX_JSON_CONTAINER_ITEMS && p.depth <= MAX_JSON_DEPTH
    ensures var below := Pend(Children(p.value), p.depth + 1);
            && Nodes(p.value) == 1 + NodesPending(below)
            && (Bottom(p) <= MAX_JSON_DEPTH && WidthsOk(p.value) <==> PendingOk(below))
  {
    hide Nodes, Height, WidthsOk, Children;
    var vs := Children(p.value);
    ChildrenMeans(p.value);
    NodesOfPend(vs, p.depth + 1);
    AllMeans(vs, MAX_JSON_DEPTH - p.depth);
    if PendingOk(Pend(vs, p.depth + 1)) {
      forall i | 0 <= i < |vs| ensures Height(vs[i]) <= MAX_JSON_DEPTH - p.depth && WidthsOk(vs[i]) {
        assert Pend(vs, p.depth + 1)[i] == Pending(vs[i], p.depth + 1);
      }
    }
  }

  lemma {:induction false} ExpandParts(p: Pending, v: Json)
    requires Bottom(p) <= Height(v) && (!WidthsOk(p.value) ==> !WidthsOk(v))
    ensures PartsOf(Pend(Children(p.value), p.depth + 1), v)
  {
    var vs := Children(p.value);
    AllMeans(vs, HeightAll(vs));
  }

  lemma {:induction false} PendingOkConcat(a: seq<Pending>, b: seq<Pending>)
    ensures PendingOk(a + b) <==> PendingOk(a) && PendingOk(b)
  {
    assert forall i :: 0 <= i < |a| ==> (a + b)[i] == a[i];
    assert forall i :: 0 <= i < |b| ==> (a + b)[|a| + i] == b[i];
  }

  lemma {:induction false} PartsOfConcat(a: seq<Pending>, b: seq<Pending>, v: Json)
    ensures PartsOf(a, v) && PartsOf(b, v) ==> PartsOf(a + b, v)
  {
  }

  lemma {:induction false} One(p: Pending)
    ensures NodesPending([p]) == Nodes(p.value)
    ensures PendingOk([p]) <==> Bottom(p) <= MAX_JSON_DEPTH && WidthsOk(p.value)
  {
    assert [p][..0] == [];
    assert [p][0] == p;
  }

  datatype Verdict = Accepted | NodeLimit | DepthLimit | ItemLimit

  /**
   * The iterative walk.  It accepts exactly the values within the recursive
   * limits, and a rejection names a limit that is exceeded.
   */
  method ValidateJsonLimits(payload: Json) returns (verdict: Verdict)
    ensures verdict.Accepted? <==> WithinLimits(payload)
    ensures verdict.NodeLimit? ==> Nodes(payload) > MAX_JSON_NODES
    ensures verdict.DepthLimit? ==> Height(payload) > MAX_JSON_DEPTH
    ensures verdict.ItemLimit? ==> !WidthsOk(payload)
  {
    hide Nodes, Height, WidthsOk, PendingOk, PartsOf, Pend;
    var nodes := 0;
    var stack := [Pending(payload, 1)];
    One(stack[0]);
    StartIsPart(payload);
    while stack != []
      invariant nodes <= MAX_JSON_NODES
      invariant nodes + NodesPending(stack) == Nodes(payload)
      invariant Height(payload) <= MAX_JSON_DEPTH && WidthsOk(payload) <==> PendingOk(stack)
      invariant PartsOf(stack, payload)
      decreases NodesPending(stack)
    {
      var rest, p := stack[..|stack| - 1], stack[|stack| - 1];
      ghost var before := stack;
      assert before == rest + [p];
      PendingOkConcat(rest, [p]);
      One(p);
      PartsSplit(rest, p, payload);
      stack, nodes := rest, nodes + 1;
      if nodes > MAX_JSON_NODES { return NodeLimit; }
      if p.depth > MAX_JSON_DEPTH {
        return DepthLimit;
      }
      if |Children(p.value)| > MAX_JSON_CONTAINER_ITEMS {
        TooWide(p.value);
        return ItemLimit;
      }
      var below := Pend(Children(p.value), p.depth + 1);
      Expand(p);
      ExpandParts(p, payload);
      NodesPendingConcat(rest, below);
      PendingOkConcat(rest, below);
      PartsOfConcat(rest, below, payload);
      stack := stack + below;
    }
    NothingPending();
    return Accepted;
  }

  lemma {:induction false} NothingPending()
    ensures PendingOk([]) && NodesPending([]) == 0
  {
  }

  lemma {:induction false} StartIsPart(v: Json)
    ensures PartsOf([Pending(v, 1)], v)
  {
  }

  lemma {:induction false} PartsSplit(rest: seq<Pending>, p: Pending, v: Json)
    requires PartsOf(rest + [p], v)
    ensures PartsOf(rest, v) && Bottom(p) <= Height(v) && (!WidthsOk(p.value) ==> !WidthsOk(v))
  {
    var all := rest + [p];
    assert all[|rest|] == p;
    assert forall i :: 0 <= i < |rest| ==> all[i] == rest[i];
  }

  lemma {:induction false} TooWide(v: Json)
    requires |Children(v)| > MAX_JSON_CONTAINER_ITEMS
    ensures !WidthsOk(v)
  {
  }

  // ----- The limits, by the places in a value -----

  // What is at the end of a path of positions, if anything.
  function Place(v: Json, path: seq<nat>): Option<Json>
    decreases |path|
  {
    if path == [] then Some(v)
    else
      match v
      case Atom => None
      case List(items) => if path[0] < |items| then Place(items[path[0]], path[1..]) else None
      case Dict(values) => if path[0] < |values| then Place(values[path[0]], path[1..]) else None
  }

  function Size(v: Json): nat {
    match v
    case Atom => 0
    case List(items) => |items|
    case Dict(values) => |values|
  }

  lemma {:induction false} AtChild(v: Json, i: nat, rest: seq<nat>)
    ensures Place(v, [i] + rest) == if i < |Children(v)| then Place(Children(v)[i], rest) else None
    ensures Size(v) == |Children(v)|
  {
    assert ([i] + rest)[1..] == rest;
  }

  // No place is deeper, and none wider, than the recursive limits allow.
  lemma {:induction false} PlaceWithin(v: Json, path: seq<nat>)
    requires Place(v, path).Some?
    ensures |path| < Height(v) && (WidthsOk(v) ==> Size(Place(v, path).value) <= MAX_JSON_CONTAINER_ITEMS)
    decreases |path|
  {
    ChildrenMeans(v);
    AtChild(v, 0, []);
    if path != [] {
      var i, rest, vs := path[0], path[1..], Children(v);
      assert path == [i] + rest;
      AtChild(v, i, rest);
      PlaceWithin(vs[i], rest);
      AllMeans(vs, HeightAll(vs));
    }
  }

  // Some place is as deep as the height says.
  lemma {:induction false} DeepestPlace(v: Json) returns (path: seq<nat>)
    ensures Place(v, path).Some? && |path| == Height(v) - 1
    decreases v
  {
    path := [];
    if Height(v) > 1 {
      var vs := Children(v);
      ChildrenMeans(v);
      AllMeans(vs, HeightAll(vs) - 1);
      AllMeans(vs, HeightAll(vs));
      var i :| 0 <= i < |vs| && Height(vs[i]) == HeightAll(vs);
      var rest := DeepestPlace(vs[i]);
      AtChild(v, i, rest);
      path := [i] + rest;
    }
  }

  // Some place is too wide where the widths are not in order.
  lemma {:induction false} WidePlace(v: Json) returns (path: seq<nat>)
    requires !WidthsOk(v)
    ensures Place(v, path).Some? && Size(Place(v, path).value) > MAX_JSON_CONTAINER_ITEMS
    decreases v
  {
    path := [];
    ChildrenMeans(v);
    AtChild(v, 0, []);
    var vs := Children(v);
    if |vs| <= MAX_JSON_CONTAINER_ITEMS {
      AllMeans(vs, 0);
      var i :| 0 <= i < |vs| && !WidthsOk(vs[i]);
      var rest := WidePlace(vs[i]);
      AtChild(v, i, rest);
      path := [i] + rest;
    }
  }

  function Prefixed(k: nat, paths: set<seq<nat>>): set<seq<nat>> {
    set p | p in paths :: [k] + p
  }

  lemma {:induction false} PrefixedSize(k: nat, paths: set<seq<nat>>)
    ensures |Prefixed(k, paths)| == |paths|
    ensures forall p :: p in Prefixed(k, paths) <==> p != [] && p[0] == k && p[1..] in paths
  {
    forall p | p != [] && p[0] == k && p[1..] in paths ensures p in Prefixed(k, paths) {
      assert p == [k] + p[1..];
    }
    if paths != {} {
      var p :| p in paths;
      PrefixedSize(k, paths - {p});
      assert Prefixed(k, paths) == Prefixed(k, paths - {p}) + {[k] + p};
      assert ([k] + p)[1..] == p;
    }
  }

  // There are as many places as nodes.
  lemma {:induction false} Places(v: Json) returns (paths: set<seq<nat>>)
    ensures |paths| == Nodes(v) && forall p :: p in paths <==> Place(v, p).Some?
    decreases v, 1
  {
    var vs := Children(v);
    ChildrenMeans(v);
    var below: set<seq<nat>> := {};
    match v {
      case Atom =>
      case List(items) => below := PlacesBelow(items, 0);
      case Dict(values) => below := PlacesBelow(values, 0);
    }
    paths := below + {[]};
    forall p ensures p in paths <==> Place(v, p).Some? {
      if p != [] {
        assert p == [p[0]] + p[1..];
        AtChild(v, p[0], p[1..]);
      }
    }
  }

  // A place in the values `vs`, which have the positions from `k` on.
  predicate IsPlaceBelow(vs: seq<Json>, k: nat, p: seq<nat>) {
    p != [] && k <= p[0] < k + |vs| && Place(vs[p[0] - k], p[1..]).Some?
  }

  lemma {:induction false} BelowSplit(vs: seq<Json>, k: nat, p: seq<nat>)
    requires vs != []
    ensures IsPlaceBelow(vs, k, p) <==>
            (p != [] && p[0] == k && Place(vs[0], p[1..]).Some?) || IsPlaceBelow(vs[1..], k + 1, p)
  {
    hide Place;
    if p != [] && k < p[0] < k + |vs| { assert vs[p[0] - k] == vs[1..][p[0] - (k + 1)]; }
  }

  lemma {:induction false} PlacesBelow(vs: seq<Json>, k: nat) returns (paths: set<seq<nat>>)
    ensures |paths| == NodesAll(vs)
    ensures forall p :: p in paths <==> IsPlaceBelow(vs, k, p)
    decreases vs, 0
  {
    paths := {};
    if vs != [] {
      var first := Places(vs[0]);
      var rest := PlacesBelow(vs[1..], k + 1);
      hide IsPlaceBelow, Place, Nodes, Prefixed;
      PrefixedSize(k, first);
      paths := Prefixed(k, first) + rest;
      assert Prefixed(k, first) !! rest;
      forall p ensures p in paths <==> IsPlaceBelow(vs, k, p) {
        BelowSplit(vs, k, p);
      }
    }
  }

  /** Place by place: not too many, none too deep, and none too wide. */
  lemma {:induction false} LimitsByPlaces(v: Json) returns (paths: set<seq<nat>>)
    ensures forall p :: p in paths <==> Place(v, p).Some?
    ensures Nodes(v) == |paths|
    ensures Height(v) <= MAX_JSON_DEPTH <==> forall p <- paths :: |p| < MAX_JSON_DEPTH
    ensures WidthsOk(v) <==> forall p <- paths :: Size(Place(v, p).value) <= MAX_JSON_CONTAINER_ITEMS
  {
    hide Nodes, Height, WidthsOk, Place;
    paths := Places(v);
    forall p | p in paths
      ensures |p| < Height(v) && (WidthsOk(v) ==> Size(Place(v, p).value) <= MAX_JSON_CONTAINER_ITEMS)
    {
      PlaceWithin(v, p);
    }
    var deepest := DeepestPlace(v);
    if !WidthsOk(v) { var wide := WidePlace(v); }
  }

  // How deep containers nest; leaves are no level.
  function Containers(v: Json): nat
    decreases v, 1
  {
    match v
    case Atom => 0
    case List(items) => 1 + ContainersAll(items)
    case Dict(values) => 1 + ContainersAll(values)
  }

  function ContainersAll(vs: seq<Json>): nat
    decreases vs, 0
  {
    if vs == [] then 0
    else if Containers(vs[0]) > ContainersAll(vs[1..]) then Containers(vs[0]) else ContainersAll(vs[1..])
  }

  lemma {:induction false} ContainersMean(vs: seq<Json>, bound: nat)
    ensures ContainersAll(vs) <= bound <==> forall i :: 0 <= i < |vs| ==> Containers(vs[i]) <= bound
  {
    if vs != [] {
      ContainersMean(vs[1..], bound);
      assert vs == [vs[0]] + vs[1..];
    }
  }

  lemma {:induction false} ContainerWithin(v: Json, path: seq<nat>)
    requires Place(v, path).Some? && !Place(v, path).value.Atom?
    ensures |path| < Containers(v)
    decreases |path|
  {
    if path != [] {
      var i, rest, vs := path[0], path[1..], Children(v);
      assert path == [i] + rest;
      AtChild(v, i, rest);
      ContainerWithin(vs[i], rest);
      ContainersMean(vs, ContainersAll(vs));
    }
  }

  lemma {:induction false} DeepestContainer(v: Json) returns (path: seq<nat>)
    requires !v.Atom?
    ensures Place(v, path).Some? && !Place(v, path).value.Atom? && |path| == Containers(v) - 1
    decreases v
  {
    path := [];
    if Containers(v) > 1 {
      var vs := Children(v);
      ContainersMean(vs, ContainersAll(vs) - 1);
      ContainersMean(vs, ContainersAll(vs));
      var i :| 0 <= i < |vs| && Containers(vs[i]) == ContainersAll(vs);
      var rest := DeepestContainer(vs[i]);
      AtChild(v, i, rest);
      path := [i] + rest;
    }
  }

  lemma {:induction false} ContainersByPlaces(v: Json, bound: nat)
    ensures Containers(v) <= bound <==>
            forall p :: Place(v, p).Some? && !Place(v, p).value.Atom? ==> |p| < bound
  {
    hide Containers, Place;
    forall p | Place(v, p).Some? && !Place(v, p).value.Atom?
      ensures |p| < Containers(v)
    {
      ContainerWithin(v, p);
    }
    if v.Atom? {
      AtomFlat();
    } else {
      var deepest := DeepestContainer(v);
    }
  }

  lemma {:induction false} AtomFlat()
    ensures Containers(Atom) == 0
  {
  }
}
