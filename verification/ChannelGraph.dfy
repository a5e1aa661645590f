/**
  The channel graph's bookkeeping (graph/src/petgraph/graph.rs, mod.rs): node indices that are
  never reissued, the index from path slots back to nodes, and reachability.

  `Graph` is the state as a value, with one function per write; `InnerGraph` makes the same
  writes in place.  Vertices and edges are numbered by position.  A vertex is never freed; the
  position of a removed edge stays empty.
 */
module ChannelGraph {
  import opened Wrappers
  import opened Distinct

  type Byte = b: nat | b < 256

  type Key = k: seq<Byte> | |k| == 32 witness seq(32, _ => 0)

  type Observations(0)

  const DEFAULT_OBSERVATIONS: Observations

  type Index = nat
  type Slot = nat

  // ----- Path slots -----

  function BigEndian(bytes: seq<Byte>): nat {
    if bytes == [] then 0 else BigEndian(bytes[..|bytes| - 1]) * 256 + bytes[|bytes| - 1]
  }

  /** The leading 8 bytes of the key, with zero moved out of the way of padding. */
  function Encode(key: Key): Slot {
    var slot := BigEndian(key[..8]);
    if slot == 0 then 1 else slot
  }

  lemma {:induction false} BigEndianIsInjective(a: seq<Byte>, b: seq<Byte>)
    requires |a| == |b| && BigEndian(a) == BigEndian(b)
    ensures a == b
  {
    if a != [] {
      var n := |a| - 1;
      BigEndianIsInjective(a[..n], b[..n]);
      assert a == a[..n] + [a[n]] && b == b[..n] + [b[n]];
    }
  }

  lemma BigEndianSnoc(bytes: seq<Byte>, b: Byte)
    ensures BigEndian(bytes + [b]) == BigEndian(bytes) * 256 + b
  {
    assert (bytes + [b])[..|bytes|] == bytes;
  }

  /** The slot of a key by the positions of its leading bytes. */
  lemma EncodeByPosition(key: Key)
    ensures var n := (key[0] as int) * 0x100_0000_0000_0000 + (key[1] as int) * 0x1_0000_0000_0000 + (key[2] as int) * 0x100_0000_0000
                     + (key[3] as int) * 0x1_0000_0000 + (key[4] as int) * 0x100_0000 + (key[5] as int) * 0x1_0000 + (key[6] as int) * 0x100 + (key[7] as int);
            Encode(key) == if n == 0 then 1 else n
  {
    assert BigEndian(key[..0]) == 0;
    BigEndianPrefix(key, 0);
    BigEndianPrefix(key, 1);
    BigEndianPrefix(key, 2);
    BigEndianPrefix(key, 3);
    BigEndianPrefix(key, 4);
    BigEndianPrefix(key, 5);
    BigEndianPrefix(key, 6);
    BigEndianPrefix(key, 7);
  }

  lemma BigEndianPrefix(key: Key, n: nat)
    requires n < 8
    ensures BigEndian(key[..n + 1]) == BigEndian(key[..n]) * 256 + key[n]
  {
    BigEndianSnoc(key[..n], key[n]);
    assert key[..n + 1] == key[..n] + [key[n]];
  }

  /** Two keys share a slot exactly when their leading bytes agree, or are 0 and 1 as numbers. */
  lemma EncodeCollides(a: Key, b: Key)
    ensures Encode(a) != 0
    ensures Encode(a) == Encode(b) <==>
            a[..8] == b[..8] || (BigEndian(a[..8]) <= 1 && BigEndian(b[..8]) <= 1)
  {
    if BigEndian(a[..8]) == BigEndian(b[..8]) {
      BigEndianIsInjective(a[..8], b[..8]);
    }
  }

  // ----- The graph as a value -----

  datatype Edge = Edge(src: Index, dst: Index, obs: Observations)

  /** The position of the edge from `s` to `d`, if there is one. */
  function FindEdge(edges: seq<Option<Edge>>, s: Index, d: Index): Option<nat> {
    if edges == [] then None
    else
      var n := |edges| - 1;
      if edges[n].Some? && edges[n].value.src == s && edges[n].value.dst == d then Some(n)
      else FindEdge(edges[..n], s, d)
  }

  predicate Touches(edge: Option<Edge>, i: Index) {
    edge.Some? && (edge.value.src == i || edge.value.dst == i)
  }

  /** The edges without those at vertex `i`. */
  function Detached(edges: seq<Option<Edge>>, i: Index): seq<Option<Edge>> {
    seq(|edges|, n requires 0 <= n < |edges| =>
      if Touches(edges[n], i) then None else edges[n])
  }

  /** The positions of the edges out of vertex `i`, or into it. */
  function EdgesAt(edges: seq<Option<Edge>>, i: Index, outgoing: bool): (at: seq<nat>)
    ensures forall e :: e in at <==>
              && 0 <= e < |edges| && edges[e].Some?
              && (if outgoing then edges[e].value.src else edges[e].value.dst) == i
  {
    if edges == [] then []
    else
      var n := |edges| - 1;
      EdgesAt(edges[..n], i, outgoing) +
      if edges[n].Some? && (if outgoing then edges[n].value.src else edges[n].value.dst) == i then [n] else []
  }

  /** The positions of the edges at vertex `i`, out of it first. */
  function Incident(edges: seq<Option<Edge>>, i: Index): (at: seq<nat>)
    ensures forall m :: 0 <= m < |at| ==> at[m] < |edges| && Touches(edges[at[m]], i)
    ensures forall e :: 0 <= e < |edges| && Touches(edges[e], i) ==> e in at
  {
    var out, into := EdgesAt(edges, i, true), EdgesAt(edges, i, false);
    assert forall m :: 0 <= m < |out| ==> out[m] in out;
    assert forall m :: 0 <= m < |into| ==> into[m] in into;
    out + into
  }

  function Without<T(==)>(s: seq<T>, x: T): seq<T> {
    if s == [] then [] else if s[0] == x then Without(s[1..], x) else [s[0]] + Without(s[1..], x)
  }

  datatype Write =
    | AddNode(key: Key)
    | RemoveNode(key: Key)
    | AddEdge(src: Key, dst: Key)
    | RemoveEdge(src: Key, dst: Key)
    | UpsertEdge(src: Key, dst: Key, f: Observations -> Observations)

  datatype Graph = Graph(
    nodes: seq<Key>,
    edges: seq<Option<Edge>>,
    indices: map<Key, Index>,
    slots: map<Slot, seq<Index>>)
  {
    function Claimants(slot: Slot): seq<Index> {
      if slot in slots then slots[slot] else []
    }

    function AddNode(key: Key): Graph {
      if key in indices then this
      else
        var i, slot := |nodes|, Encode(key);
        Graph(nodes + [key], edges, indices[key := i],
          slots[slot := if i in Claimants(slot) then Claimants(slot) else Claimants(slot) + [i]])
    }

    function ReleaseSlot(key: Key, i: Index): map<Slot, seq<Index>> {
      var slot := Encode(key);
      if slot !in slots then slots
      else if Without(slots[slot], i) == [] then slots - {slot}
      else slots[slot := Without(slots[slot], i)]
    }

    function RemoveNode(key: Key): Graph {
      if key !in indices then this
      else Graph(nodes, Detached(edges, indices[key]), indices - {key}, ReleaseSlot(key, indices[key]))
    }

    function Link(src: Index, dst: Index): Graph {
      if FindEdge(edges, src, dst).Some? then this
      else this.(edges := edges + [Some(Edge(src, dst, DEFAULT_OBSERVATIONS))])
    }

    function AddEdge(src: Key, dst: Key): Graph {
      if src in indices && dst in indices then Link(indices[src], indices[dst]) else this
    }

    function RemoveEdge(src: Key, dst: Key): Graph {
      if src !in indices || dst !in indices then this
      else
        match FindEdge(edges, indices[src], indices[dst])
        case None => this
        case Some(e) => if e < |edges| then this.(edges := edges[e := None]) else this
    }

    function Observe(src: Index, dst: Index, f: Observations -> Observations): Graph {
      match FindEdge(edges, src, dst)
      case None => this
      case Some(e) =>
        if e < |edges| && edges[e].Some?
        then this.(edges := edges[e := Some(edges[e].value.(obs := f(edges[e].value.obs)))])
        else this
    }

    function UpsertEdge(src: Key, dst: Key, f: Observations -> Observations): Graph {
      var g := AddNode(src).AddNode(dst);
      if src in g.indices && dst in g.indices
      then g.Link(g.indices[src], g.indices[dst]).Observe(g.indices[src], g.indices[dst], f)
      else g
    }

    function Apply(w: Write): Graph {
      match w
      case AddNode(key) => AddNode(key)
      case RemoveNode(key) => RemoveNode(key)
      case AddEdge(src, dst) => AddEdge(src, dst)
      case RemoveEdge(src, dst) => RemoveEdge(src, dst)
      case UpsertEdge(src, dst, f) => UpsertEdge(src, dst, f)
    }

    function Run(writes: seq<Write>): Graph {
      if writes == [] then this else Run(writes[..|writes| - 1]).Apply(writes[|writes| - 1])
    }

    /** `path_id::resolve`. */
    function Resolve(slot: Slot): Option<Index> {
      if slot == 0 || slot !in slots then None
      else if |slots[slot]| == 1 then Some(slots[slot][0])
      else None
    }

    // ----- What every write keeps -----

    /** Vertex `i` stands for a key, as opposed to being retired. */
    predicate IsLive(i: Index) {
      i < |nodes| && nodes[i] in indices && indices[nodes[i]] == i
    }

    predicate Claims(i: Index, slot: Slot) {
      IsLive(i) && Encode(nodes[i]) == slot
    }

    ghost predicate IndicesValid() {
      forall k :: k in indices ==> indices[k] < |nodes| && nodes[indices[k]] == k
    }

    /** `slots` lists, without repetition, exactly the live vertices whose keys encode to each
        slot, and has no empty entries. */
    ghost predicate SlotsExact() {
      && (forall s, i :: i in Claimants(s) <==> Claims(i, s))
      && (forall s :: s in slots ==> slots[s] != [] && NoDuplicates(slots[s]))
    }

    /** Edges join live vertices, one at most in each direction. */
    ghost predicate EdgesValid() {
      && (forall e :: 0 <= e < |edges| && edges[e].Some? ==> IsLive(edges[e].value.src) && IsLive(edges[e].value.dst))
      && (forall e, f :: 0 <= e < f < |edges| && edges[e].Some? && edges[f].Some? ==>
            edges[e].value.src != edges[f].value.src || edges[e].value.dst != edges[f].value.dst)
    }

    ghost predicate Valid() {
      IndicesValid() && SlotsExact() && EdgesValid()
    }

    /** `g` comes later: every vertex still has the key it had, and a retired one stays retired. */
    ghost predicate Precedes(g: Graph) {
      && nodes <= g.nodes
      && forall i :: 0 <= i < |nodes| && g.IsLive(i) ==> IsLive(i)
    }

    /** The vertex of a new key is live, and the others are as they were. */
    lemma AddNodeLives(key: Key)
      requires IndicesValid() && key !in indices
      ensures AddNode(key).IndicesValid() && Precedes(AddNode(key))
      ensures forall j :: AddNode(key).IsLive(j) <==> IsLive(j) || j == |nodes|
    {
    }

    lemma AddNodeKeepsSlots(key: Key)
      requires IndicesValid() && SlotsExact() && key !in indices
      ensures AddNode(key).SlotsExact()
    {
      var g, i, slot := AddNode(key), |nodes|, Encode(key);
      AddNodeLives(key);
      assert !Claims(i, slot);
      DistinctSnoc(Claimants(slot), i);
      forall s, j ensures j in g.Claimants(s) <==> g.Claims(j, s) {
        assert j in Claimants(s) <==> Claims(j, s);
      }
    }

    lemma AddNodeKeepsValid(key: Key)
      requires Valid()
      ensures AddNode(key).Valid() && Precedes(AddNode(key))
      ensures AddNode(key).indices.Keys == indices.Keys + {key}
    {
      if key !in indices {
        AddNodeLives(key);
        AddNodeKeepsSlots(key);
      }
    }

    lemma RemoveNodeKeepsValid(key: Key)
      requires Valid()
      ensures RemoveNode(key).Valid() && Precedes(RemoveNode(key))
      ensures RemoveNode(key).indices.Keys == indices.Keys - {key}
    {
      if key in indices {
        var g, i, slot := RemoveNode(key), indices[key], Encode(key);
        assert forall j :: g.IsLive(j) <==> IsLive(j) && j != i;
        assert Claims(i, slot);
        WithoutRemoves(slots[slot], i);
        forall s, j ensures j in g.Claimants(s) <==> g.Claims(j, s) {
          assert j in Claimants(s) <==> Claims(j, s);
        }
      }
    }

    lemma LinkKeepsValid(src: Index, dst: Index)
      requires Valid() && IsLive(src) && IsLive(dst)
      ensures Link(src, dst).Valid() && Precedes(Link(src, dst))
    {
      FindEdgeFinds(edges, src, dst);
      var g := Link(src, dst);
      assert forall i :: g.IsLive(i) <==> IsLive(i);
      assert forall s, i :: g.Claims(i, s) <==> Claims(i, s);
      assert forall s :: g.Claimants(s) == Claimants(s);
    }

    lemma EdgeWriteKeepsValid(e: nat, edge: Option<Edge>)
      requires Valid() && e < |edges|
      requires edge.Some? ==> edges[e].Some? && edge.value.src == edges[e].value.src && edge.value.dst == edges[e].value.dst
      ensures this.(edges := edges[e := edge]).Valid() && Precedes(this.(edges := edges[e := edge]))
    {
      var g := this.(edges := edges[e := edge]);
      assert forall i :: g.IsLive(i) <==> IsLive(i);
      assert forall s, i :: g.Claims(i, s) <==> Claims(i, s);
      assert forall s :: g.Claimants(s) == Claimants(s);
    }

    lemma ApplyKeepsValid(w: Write)
      requires Valid()
      ensures Apply(w).Valid() && Precedes(Apply(w))
    {
      match w
      case AddNode(key) => AddNodeKeepsValid(key);
      case RemoveNode(key) => RemoveNodeKeepsValid(key);
      case AddEdge(src, dst) =>
        if src in indices && dst in indices {
          LinkKeepsValid(indices[src], indices[dst]);
        }
      case RemoveEdge(src, dst) =>
        if src in indices && dst in indices {
          FindEdgeFinds(edges, indices[src], indices[dst]);
          if FindEdge(edges, indices[src], indices[dst]).Some? {
            EdgeWriteKeepsValid(FindEdge(edges, indices[src], indices[dst]).value, None);
          }
        }
      case UpsertEdge(src, dst, f) => UpsertKeepsValid(src, dst, f);
    }

    lemma UpsertKeepsValid(src: Key, dst: Key, f: Observations -> Observations)
      requires Valid()
      ensures UpsertEdge(src, dst, f).Valid() && Precedes(UpsertEdge(src, dst, f))
    {
      AddNodeKeepsValid(src);
      var g0 := AddNode(src);
      g0.AddNodeKeepsValid(dst);
      var g1 := g0.AddNode(dst);
      var s, d := g1.indices[src], g1.indices[dst];
      g1.LinkKeepsValid(s, d);
      var g2 := g1.Link(s, d);
      FindEdgeFinds(g2.edges, s, d);
      var e := FindEdge(g2.edges, s, d);
      if e.Some? {
        g2.EdgeWriteKeepsValid(e.value, Some(g2.edges[e.value].value.(obs := f(g2.edges[e.value].value.obs))));
      }
    }

    /** Over any run of writes the index stays exact, an index keeps its key, and a retired index
        is never live again. */
    lemma {:induction false} RunKeepsValid(writes: seq<Write>)
      requires Valid()
      ensures Run(writes).Valid() && Precedes(Run(writes))
    {
      if writes != [] {
        RunKeepsValid(writes[..|writes| - 1]);
        Run(writes[..|writes| - 1]).ApplyKeepsValid(writes[|writes| - 1]);
      }
    }

    /** A slot resolves to a vertex exactly when it is not padding and that vertex alone claims it. */
    lemma ResolveIsExact(slot: Slot, i: Index)
      requires Valid()
      ensures Resolve(slot) == Some(i) <==> slot != 0 && Claims(i, slot) && forall j :: Claims(j, slot) ==> j == i
    {
      var claimants := Claimants(slot);
      assert forall j :: j in claimants <==> Claims(j, slot);
      if slot in slots && |slots[slot]| > 1 {
        assert slots[slot][0] in claimants && slots[slot][1] in claimants;
      }
    }
  }

  // ----- What every write means for the observations between two keys -----

  /** `edge(a, b)` of the graph's view. */
  function Lookup(g: Graph, a: Key, b: Key): Option<Observations> {
    if a !in g.indices || b !in g.indices then None
    else
      match FindEdge(g.edges, g.indices[a], g.indices[b])
      case None => None
      case Some(e) => if e < |g.edges| && g.edges[e].Some? then Some(g.edges[e].value.obs) else None
  }

  predicate Joins(g: Graph, e: int, a: Key, b: Key) {
    && 0 <= e < |g.edges| && g.edges[e].Some? && a in g.indices && b in g.indices
    && g.edges[e].value.src == g.indices[a] && g.edges[e].value.dst == g.indices[b]
  }

  /** The lookup finds the one edge that joins the two keys. */
  lemma LookupFinds(g: Graph, a: Key, b: Key)
    requires g.Valid()
    ensures Lookup(g, a, b).None? ==> forall e :: !Joins(g, e, a, b)
    ensures forall e :: Joins(g, e, a, b) ==> Lookup(g, a, b) == Some(g.edges[e].value.obs)
  {
    if a in g.indices && b in g.indices {
      FindEdgeFinds(g.edges, g.indices[a], g.indices[b]);
      var found := FindEdge(g.edges, g.indices[a], g.indices[b]);
      forall e | Joins(g, e, a, b) ensures found == Some(e) {
        assert found.Some? ==> found.value == e;
      }
    }
  }

  /** Two graphs look up the same when the same positions join the keys with the same
      observations. */
  lemma SameLookup(g: Graph, h: Graph, a: Key, b: Key)
    requires g.Valid() && h.Valid()
    requires forall e :: Joins(g, e, a, b) <==> Joins(h, e, a, b)
    requires forall e :: Joins(g, e, a, b) && Joins(h, e, a, b) ==> g.edges[e].value.obs == h.edges[e].value.obs
    ensures Lookup(g, a, b) == Lookup(h, a, b)
  {
    LookupFinds(g, a, b);
    LookupFinds(h, a, b);
    if a in g.indices && b in g.indices {
      FindEdgeFinds(g.edges, g.indices[a], g.indices[b]);
    }
    if a in h.indices && b in h.indices {
      FindEdgeFinds(h.edges, h.indices[a], h.indices[b]);
    }
    if Lookup(g, a, b).Some? {
      assert Joins(g, FindEdge(g.edges, g.indices[a], g.indices[b]).value, a, b);
    }
  }

  lemma AddNodeLooksUp(g: Graph, key: Key, a: Key, b: Key)
    requires g.Valid()
    ensures Lookup(g.AddNode(key), a, b) == Lookup(g, a, b)
  {
    g.AddNodeKeepsValid(key);
    SameLookup(g, g.AddNode(key), a, b);
  }

  lemma RemoveNodeLooksUp(g: Graph, key: Key, a: Key, b: Key)
    requires g.Valid()
    ensures Lookup(g.RemoveNode(key), a, b) == if key in {a, b} then None else Lookup(g, a, b)
  {
    g.RemoveNodeKeepsValid(key);
    if key !in {a, b} {
      SameLookup(g, g.RemoveNode(key), a, b);
    }
  }

  lemma LinkLooksUp(g: Graph, src: Key, dst: Key, a: Key, b: Key)
    requires g.Valid() && src in g.indices && dst in g.indices
    ensures var h := g.Link(g.indices[src], g.indices[dst]);
            && h.Valid() && h.indices == g.indices
            && Lookup(h, a, b) == if a == src && b == dst && Lookup(g, a, b).None? then Some(DEFAULT_OBSERVATIONS)
                                  else Lookup(g, a, b)
  {
    var h := g.Link(g.indices[src], g.indices[dst]);
    g.LinkKeepsValid(g.indices[src], g.indices[dst]);
    FindEdgeFinds(g.edges, g.indices[src], g.indices[dst]);
    if a == src && b == dst && Lookup(g, a, b).None? {
      assert Joins(h, |g.edges|, a, b);
      LookupFinds(h, a, b);
    } else {
      SameLookup(g, h, a, b);
    }
  }

  lemma AddEdgeLooksUp(g: Graph, src: Key, dst: Key, a: Key, b: Key)
    requires g.Valid()
    ensures Lookup(g.AddEdge(src, dst), a, b) ==
            if a == src && b == dst && src in g.indices && dst in g.indices && Lookup(g, a, b).None?
            then Some(DEFAULT_OBSERVATIONS) else Lookup(g, a, b)
  {
    if src in g.indices && dst in g.indices {
      LinkLooksUp(g, src, dst, a, b);
    }
  }

  lemma RemoveEdgeLooksUp(g: Graph, src: Key, dst: Key, a: Key, b: Key)
    requires g.Valid()
    ensures Lookup(g.RemoveEdge(src, dst), a, b) == if a == src && b == dst then None else Lookup(g, a, b)
  {
    g.ApplyKeepsValid(RemoveEdge(src, dst));
    var h := g.RemoveEdge(src, dst);
    if src in g.indices && dst in g.indices {
      FindEdgeFinds(g.edges, g.indices[src], g.indices[dst]);
      LookupFinds(g, src, dst);
      if a == src && b == dst {
        FindEdgeFinds(h.edges, g.indices[src], g.indices[dst]);
      } else {
        SameLookup(g, h, a, b);
      }
    }
  }

  lemma ObserveLooksUp(g: Graph, src: Key, dst: Key, f: Observations -> Observations, a: Key, b: Key)
    requires g.Valid() && src in g.indices && dst in g.indices && Lookup(g, src, dst).Some?
    ensures Lookup(g.Observe(g.indices[src], g.indices[dst], f), a, b) ==
            if a == src && b == dst then Some(f(Lookup(g, a, b).value)) else Lookup(g, a, b)
  {
    var s, d := g.indices[src], g.indices[dst];
    var h := g.Observe(s, d, f);
    FindEdgeFinds(g.edges, s, d);
    var e := FindEdge(g.edges, s, d).value;
    g.EdgeWriteKeepsValid(e, Some(g.edges[e].value.(obs := f(g.edges[e].value.obs))));
    if a == src && b == dst {
      assert Joins(h, e, a, b);
      LookupFinds(h, a, b);
    } else {
      SameLookup(g, h, a, b);
    }
  }

  lemma UpsertEdgeLooksUp(g: Graph, src: Key, dst: Key, f: Observations -> Observations, a: Key, b: Key)
    requires g.Valid()
    ensures Lookup(g.UpsertEdge(src, dst, f), a, b) ==
            if a == src && b == dst
            then Some(f(if Lookup(g, a, b).Some? then Lookup(g, a, b).value else DEFAULT_OBSERVATIONS))
            else Lookup(g, a, b)
  {
    g.AddNodeKeepsValid(src);
    var g0 := g.AddNode(src);
    g0.AddNodeKeepsValid(dst);
    var g1 := g0.AddNode(dst);
    AddNodeLooksUp(g, src, a, b);
    AddNodeLooksUp(g0, dst, a, b);
    LinkLooksUp(g1, src, dst, a, b);
    LinkLooksUp(g1, src, dst, src, dst);
    ObserveLooksUp(g1.Link(g1.indices[src], g1.indices[dst]), src, dst, f, a, b);
  }

  lemma {:induction false} FindEdgeFinds(edges: seq<Option<Edge>>, s: Index, d: Index)
    ensures match FindEdge(edges, s, d)
            case Some(e) => e < |edges| && edges[e].Some? && edges[e].value.src == s && edges[e].value.dst == d
            case None => forall e :: 0 <= e < |edges| && edges[e].Some? ==> edges[e].value.src != s || edges[e].value.dst != d
  {
    if edges != [] {
      FindEdgeFinds(edges[..|edges| - 1], s, d);
    }
  }

  lemma {:induction false} WithoutRemoves<T>(s: seq<T>, x: T)
    requires NoDuplicates(s)
    ensures NoDuplicates(Without(s, x))
    ensures forall y :: y in Without(s, x) <==> y in s && y != x
  {
    if s != [] {
      WithoutRemoves(s[1..], x);
      DistinctConcat([s[0]], Without(s[1..], x));
    }
  }

  /** A new graph knows its owner only. */
  function New(me: Key): Graph {
    Graph([me], [], map[me := 0], map[Encode(me) := [0]])
  }

  lemma NewIsValid(me: Key)
    ensures New(me).Valid()
  {
    var g := New(me);
    forall s, i ensures i in g.Claimants(s) <==> g.Claims(i, s) {
    }
  }

  // ----- Reachability -----

  ghost predicate HasEdge(edges: seq<Option<Edge>>, s: Index, d: Index) {
    exists e :: 0 <= e < |edges| && edges[e].Some? && edges[e].value.src == s && edges[e].value.dst == d
  }

  /** `path` follows edges. */
  ghost predicate IsWalk(edges: seq<Option<Edge>>, path: seq<Index>) {
    forall i :: 0 < i < |path| ==> HasEdge(edges, path[i - 1], path[i])
  }

  ghost predicate Reaches(edges: seq<Option<Edge>>, s: Index, d: Index) {
    exists path :: path != [] && path[0] == s && path[|path| - 1] == d && IsWalk(edges, path)
  }

  lemma ReachesFurther(edges: seq<Option<Edge>>, s: Index, m: Index, d: Index)
    requires Reaches(edges, s, m) && HasEdge(edges, m, d)
    ensures Reaches(edges, s, d)
  {
    var path :| path != [] && path[0] == s && path[|path| - 1] == m && IsWalk(edges, path);
    var longer := path + [d];
    forall i | 0 < i < |longer| ensures HasEdge(edges, longer[i - 1], longer[i]) {
      assert i < |path| ==> HasEdge(edges, path[i - 1], path[i]);
    }
    assert longer[0] == s && longer[|longer| - 1] == d;
  }

  lemma ReachableIsClosed(edges: seq<Option<Edge>>, start: Index, reachable: set<Index>)
    requires forall i :: i in reachable <==> Reaches(edges, start, i)
    ensures forall e :: 0 <= e < |edges| && edges[e].Some? && edges[e].value.src in reachable ==>
              edges[e].value.dst in reachable
  {
    forall e | 0 <= e < |edges| && edges[e].Some? && edges[e].value.src in reachable
      ensures edges[e].value.dst in reachable
    {
      assert HasEdge(edges, edges[e].value.src, edges[e].value.dst);
      ReachesFurther(edges, start, edges[e].value.src, edges[e].value.dst);
    }
  }

  lemma {:induction false} ClosedSetHoldsWalk(edges: seq<Option<Edge>>, closed: set<Index>, path: seq<Index>)
    requires path != [] && path[0] in closed && IsWalk(edges, path)
    requires forall s, d :: s in closed && HasEdge(edges, s, d) ==> d in closed
    ensures path[|path| - 1] in closed
  {
    if |path| > 1 {
      ClosedSetHoldsWalk(edges, closed, path[..|path| - 1]);
      assert HasEdge(edges, path[|path| - 2], path[|path| - 1]);
    }
  }

  type Report = (Key, Key, Observations)

  /** The edges whose source is among `sources`, in edge order. */
  ghost function EdgesFrom(nodes: seq<Key>, edges: seq<Option<Edge>>, sources: iset<Index>): seq<Report>
    requires forall e :: 0 <= e < |edges| && edges[e].Some? ==> edges[e].value.src < |nodes| && edges[e].value.dst < |nodes|
  {
    if edges == [] then []
    else
      var last := edges[|edges| - 1];
      EdgesFrom(nodes, edges[..|edges| - 1], sources) +
      if last.Some? && last.value.src in sources then [(nodes[last.value.src], nodes[last.value.dst], last.value.obs)] else []
  }

  lemma {:induction false} EdgesFromIsExact(nodes: seq<Key>, edges: seq<Option<Edge>>, sources: iset<Index>)
    returns (at: seq<nat>)
    requires forall e :: 0 <= e < |edges| && edges[e].Some? ==> edges[e].value.src < |nodes| && edges[e].value.dst < |nodes|
    ensures ReportsEdgesFrom(nodes, edges, sources, EdgesFrom(nodes, edges, sources), at)
  {
    at := [];
    if edges != [] {
      var n := |edges| - 1;
      at := EdgesFromIsExact(nodes, edges[..n], sources);
      ReportNext(nodes, edges, sources, EdgesFrom(nodes, edges[..n], sources), at, n);
      assert edges[..n + 1] == edges;
      if edges[n].Some? && edges[n].value.src in sources {
        at := at + [n];
      } else {
        assert EdgesFrom(nodes, edges, sources) == EdgesFrom(nodes, edges[..n], sources);
      }
    }
  }

  /** `reports` are the edges at the positions `at`, in edge order, and those are the positions of
      all edges whose source is among `sources`. */
  ghost predicate ReportsEdgesFrom(nodes: seq<Key>, edges: seq<Option<Edge>>, sources: iset<Index>, reports: seq<Report>,
                                   at: seq<nat>)
  {
    && |at| == |reports| && (forall i, j :: 0 <= i < j < |at| ==> at[i] < at[j])
    && (forall i :: 0 <= i < |at| ==>
          && at[i] < |edges| && edges[at[i]].Some?
          && var edge := edges[at[i]].value;
             edge.src < |nodes| && edge.dst < |nodes| && reports[i] == (nodes[edge.src], nodes[edge.dst], edge.obs))
    && (forall e :: e in at <==> 0 <= e < |edges| && edges[e].Some? && edges[e].value.src in sources)
  }

  lemma ReportNext(nodes: seq<Key>, edges: seq<Option<Edge>>, sources: iset<Index>, reports: seq<Report>, at: seq<nat>,
                   n: nat)
    requires n < |edges| && ReportsEdgesFrom(nodes, edges[..n], sources, reports, at)
    requires edges[n].Some? ==> edges[n].value.src < |nodes| && edges[n].value.dst < |nodes|
    ensures if edges[n].Some? && edges[n].value.src in sources then
              ReportsEdgesFrom(nodes, edges[..n + 1], sources,
                reports + [(nodes[edges[n].value.src], nodes[edges[n].value.dst], edges[n].value.obs)], at + [n])
            else ReportsEdgesFrom(nodes, edges[..n + 1], sources, reports, at)
  {
    assert forall e :: 0 <= e < n ==> edges[..n + 1][e] == edges[..n][e];
    assert edges[..n + 1][n] == edges[n];
    assert forall i :: 0 <= i < |at| ==> at[i] in at;
    assert forall e :: e in at + [n] <==> e in at || e == n;
  }

  // ----- The graph in place -----

  class InnerGraph {
    var nodes: seq<Key>
    var edges: seq<Option<Edge>>
    var indices: map<Key, Index>
    var slots: map<Slot, seq<Index>>

    ghost function Model(): Graph
      reads this
    {
      Graph(nodes, edges, indices, slots)
    }

    constructor (me: Key)
      ensures Model() == New(me)
    {
      nodes, edges, indices, slots := [me], [], map[me := 0], map[Encode(me) := [0]];
    }

    method ClaimSlot(key: Key, i: Index)
      modifies this`slots
      ensures slots == old(slots)[Encode(key) := if i in old(Model()).Claimants(Encode(key))
                                                 then old(Model()).Claimants(Encode(key))
                                                 else old(Model()).Claimants(Encode(key)) + [i]]
    {
      var slot := Encode(key);
      var claimants := if slot in slots then slots[slot] else [];
      if i !in claimants {
        claimants := claimants + [i];
      }
      slots := slots[slot := claimants];
    }

    method ReleaseSlot(key: Key, i: Index)
      modifies this`slots
      ensures slots == old(Model()).ReleaseSlot(key, i)
    {
      var slot := Encode(key);
      if slot in slots {
        slots := slots[slot := Without(slots[slot], i)];
        if slots[slot] == [] {
          slots := slots - {slot};
        }
      }
    }

    method AddNode(key: Key)
      modifies this
      ensures Model() == old(Model()).AddNode(key)
    {
      if key !in indices {
        var i := |nodes|;
        nodes := nodes + [key];
        indices := indices[key := i];
        ClaimSlot(key, i);
      }
    }

    method RemoveNode(key: Key)
      modifies this
      ensures Model() == old(Model()).RemoveNode(key)
    {
      if key in indices {
        var i := indices[key];
        indices := indices - {key};
        ReleaseSlot(key, i);
        Detach(i);
      }
    }

    /** Removes every edge out of vertex `i`, then every edge into it. */
    method Detach(i: Index)
      modifies this`edges
      ensures edges == Detached(old(edges), i)
    {
      ghost var before := edges;
      var incident := Incident(edges, i);
      var n := 0;
      while n < |incident|
        invariant 0 <= n <= |incident| && |edges| == |before|
        invariant forall e :: 0 <= e < |edges| ==> edges[e] == before[e] || (edges[e].None? && Touches(before[e], i))
        invariant forall m :: 0 <= m < n ==> edges[incident[m]].None?
      {
        edges := edges[incident[n] := None];
        n := n + 1;
      }
      forall e | 0 <= e < |edges| ensures edges[e] == Detached(before, i)[e] {
        assert Touches(before[e], i) ==> e in incident;
      }
    }

    method AddEdge(src: Key, dst: Key) returns (ok: bool)
      modifies this`edges
      ensures Model() == old(Model()).AddEdge(src, dst)
      ensures ok <==> src in indices && dst in indices
    {
      if src !in indices || dst !in indices {
        return false;
      }
      if FindEdge(edges, indices[src], indices[dst]).None? {
        edges := edges + [Some(Edge(indices[src], indices[dst], DEFAULT_OBSERVATIONS))];
      }
      ok := true;
    }

    method RemoveEdge(src: Key, dst: Key)
      modifies this`edges
      ensures Model() == old(Model()).RemoveEdge(src, dst)
    {
      if src in indices && dst in indices {
        var e := FindEdge(edges, indices[src], indices[dst]);
        FindEdgeFinds(edges, indices[src], indices[dst]);
        if e.Some? {
          edges := edges[e.value := None];
        }
      }
    }

    method UpsertEdge(src: Key, dst: Key, f: Observations -> Observations)
      modifies this
      ensures Model() == old(Model()).UpsertEdge(src, dst, f)
    {
      AddNode(src);
      AddNode(dst);
      var s, d := indices[src], indices[dst];
      if FindEdge(edges, s, d).None? {
        edges := edges + [Some(Edge(s, d, DEFAULT_OBSERVATIONS))];
      }
      var e := FindEdge(edges, s, d);
      FindEdgeFinds(edges, s, d);
      if e.Some? {
        edges := edges[e.value := Some(edges[e.value].value.(obs := f(edges[e.value].value.obs)))];
      }
    }

    /** Breadth-first search from the vertex of `me`, then a pass over the edges that checks both
        ends; the check of the destination never excludes an edge. */
    method ReachableEdges(me: Key) returns (reports: seq<Report>, ghost at: seq<nat>)
      requires Model().Valid()
      ensures me !in indices ==> reports == []
      ensures me in indices ==>
                ReportsEdgesFrom(nodes, edges, (iset i | Reaches(edges, indices[me], i)), reports, at)
    {
      at := [];
      if me !in indices {
        return [], [];
      }
      var start := indices[me];
      var reachable := Bfs(start);
      ghost var sources := iset i | Reaches(edges, start, i);
      ReachableIsClosed(edges, start, reachable);
      reports := EdgesWithin(reachable, sources);
      at := EdgesFromIsExact(nodes, edges, sources);
    }

    /** The edges with both ends in a set that is closed under edges. */
    method EdgesWithin(reachable: set<Index>, ghost sources: iset<Index>) returns (reports: seq<Report>)
      requires Model().EdgesValid() && forall i :: i in reachable <==> i in sources
      requires forall e :: 0 <= e < |edges| && edges[e].Some? && edges[e].value.src in reachable ==>
                 edges[e].value.dst in reachable
      ensures reports == EdgesFrom(nodes, edges, sources)
    {
      reports := [];
      var e := 0;
      while e < |edges|
        invariant 0 <= e <= |edges|
        invariant reports == EdgesFrom(nodes, edges[..e], sources)
      {
        assert edges[..e + 1][..e] == edges[..e];
        if edges[e].Some? && edges[e].value.src in reachable && edges[e].value.dst in reachable {
          var edge := edges[e].value;
          reports := reports + [(nodes[edge.src], nodes[edge.dst], edge.obs)];
        }
        e := e + 1;
      }
      assert edges[..e] == edges;
    }

    method Bfs(start: Index) returns (discovered: set<Index>)
      requires Model().EdgesValid() && start < |nodes|
      ensures forall i :: i in discovered <==> Reaches(edges, start, i)
    {
      assert [start][0] == start && IsWalk(edges, [start]);
      discovered := {start};
      var queue := [start];
      while queue != []
        invariant start in discovered && discovered <= Below(|nodes|)
        invariant forall i :: i in discovered ==> Reaches(edges, start, i)
        invariant forall i :: i in queue ==> i in discovered
        invariant forall s, d :: s in discovered && s !in queue && HasEdge(edges, s, d) ==> d in discovered
        decreases Below(|nodes|) - discovered, |queue|
      {
        var more := Undiscovered(start, queue[0], discovered);
        ghost var before := discovered;
        discovered := discovered + set i | i in more;
        assert if more == [] then discovered == before else more[0] in discovered - before;
        queue := queue[1..] + more;
      }
      forall i | Reaches(edges, start, i) ensures i in discovered {
        var path :| path != [] && path[0] == start && path[|path| - 1] == i && IsWalk(edges, path);
        ClosedSetHoldsWalk(edges, discovered, path);
      }
    }

    /** The successors of `node` that are not yet discovered. */
    method Undiscovered(ghost start: Index, node: Index, discovered: set<Index>) returns (more: seq<Index>)
      requires Model().EdgesValid() && Reaches(edges, start, node)
      ensures forall i :: i in more ==> i !in discovered && i < |nodes| && Reaches(edges, start, i)
      ensures forall d :: HasEdge(edges, node, d) ==> d in discovered || d in more
    {
      more := [];
      var e := 0;
      while e < |edges|
        invariant 0 <= e <= |edges|
        invariant forall i :: i in more ==> i !in discovered && i < |nodes| && Reaches(edges, start, i)
        invariant forall f :: 0 <= f < e && edges[f].Some? && edges[f].value.src == node ==>
                    edges[f].value.dst in discovered || edges[f].value.dst in more
      {
        if edges[e].Some? && edges[e].value.src == node {
          var next := edges[e].value.dst;
          if next !in discovered && next !in more {
            assert HasEdge(edges, node, next);
            ReachesFurther(edges, start, node, next);
            more := more + [next];
          }
        }
        e := e + 1;
      }
    }
  }

  function Below(n: nat): (s: set<Index>)
    ensures forall i :: i in s <==> 0 <= i < n
  {
    if n == 0 then {} else Below(n - 1) + {n - 1}
  }
}
