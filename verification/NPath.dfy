/**
 Paths as parent-linked nodes with shared prefixes, compared with flat paths: the
 conversions, the cached length and hash, the iterators, and splicing two searches
 that meet.
 */
module NPath {
  import opened Options

  datatype Vertex = Vertex(vid: int, tag: string)

  /** Property values are compared only, so numbers stand for them. */
  type Props = map<string, int>

  datatype Edge = Edge(src: int, dst: int, edgeType: string, ranking: int, props: Props)

  datatype Step = Step(dst: Vertex, edge: Edge)

  datatype Path = Path(src: Vertex, steps: seq<Step>)

  /** One node: the vertex, the edge that reached it, and the shared prefix. */
  datatype NPath = NPath(parent: Option<NPath>, vertex: Vertex, edge: Option<Edge>, length: nat, hash: nat)

  /** The hasher state folded over the parent hash, the vertex id and the edge key. */
  type Hasher = (Option<nat>, int, Option<(string, int, int)>) -> nat

  function EdgeKey(e: Edge): (string, int, int) {
    (e.edgeType, e.src, e.dst)
  }

  function New(h: Hasher, vertex: Vertex): (n: NPath)
    ensures Built(h, n)
  {
    NPath(None, vertex, None, 0, h(None, vertex.vid, None))
  }

  function Extend(h: Hasher, parent: NPath, edge: Edge, vertex: Vertex): (n: NPath)
    ensures Built(h, parent) ==> Built(h, n)
  {
    NPath(Some(parent), vertex, Some(edge), parent.length + 1, h(Some(parent.hash), vertex.vid, Some(EdgeKey(edge))))
  }

  /** Made by `new` and `extend` only. */
  predicate Built(h: Hasher, n: NPath)
    decreases n
  {
    match n.parent
    case None => n.edge.None? && n.length == 0 && n.hash == h(None, n.vertex.vid, None)
    case Some(p) =>
      && n.edge.Some? && Built(h, p) && n.length == p.length + 1
      && n.hash == h(Some(p.hash), n.vertex.vid, Some(EdgeKey(n.edge.value)))
  }

  // ------------------------------------------------------------ the flat view

  /** The flat path a node stands for. */
  function Flat(n: NPath): Path
    decreases n
  {
    match n.parent
    case None => Path(n.vertex, [])
    case Some(p) =>
      var f := Flat(p);
      f.(steps := f.steps + if n.edge.Some? then [Step(n.vertex, n.edge.value)] else [])
  }

  function Chain(h: Hasher, p: Path): (n: NPath)
    ensures Built(h, n)
    decreases |p.steps|
  {
    if p.steps == [] then New(h, p.src)
    else
      var k := |p.steps| - 1;
      Extend(h, Chain(h, p.(steps := p.steps[..k])), p.steps[k].edge, p.steps[k].dst)
  }

  /** A flat path survives the round trip through nodes. */
  lemma {:induction false} FlatChain(h: Hasher, p: Path)
    ensures Flat(Chain(h, p)) == p
    decreases |p.steps|
  {
    if p.steps != [] {
      var k := |p.steps| - 1;
      var q := p.(steps := p.steps[..k]);
      FlatChain(h, q);
      var c := Chain(h, q);
      assert Chain(h, p) == Extend(h, c, p.steps[k].edge, p.steps[k].dst);
      hide Chain, Built;
      FlatExtend(h, c, p.steps[k].edge, p.steps[k].dst);
      assert p.steps == p.steps[..k] + [p.steps[k]];
    }
  }

  lemma FlatExtend(h: Hasher, parent: NPath, edge: Edge, vertex: Vertex)
    ensures Flat(Extend(h, parent, edge, vertex)) ==
            Flat(parent).(steps := Flat(parent).steps + [Step(vertex, edge)])
  {
  }

  /** A built chain is determined by its flat path: nothing is lost, and the cached
      length and hash carry no information of their own. */
  lemma {:induction false} ChainFlat(h: Hasher, n: NPath)
    requires Built(h, n)
    ensures Chain(h, Flat(n)) == n && n.length == |Flat(n).steps|
    decreases n
  {
    if n.parent.Some? {
      var p, f := n.parent.value, Flat(n);
      ChainFlat(h, p);
      assert f.steps[..|f.steps| - 1] == Flat(p).steps;
    }
  }

  method FromPath(h: Hasher, p: Path) returns (current: NPath)
    ensures Built(h, current) && Flat(current) == p
  {
    current := New(h, p.src);
    for i := 0 to |p.steps|
      invariant current == Chain(h, p.(steps := p.steps[..i]))
    {
      assert p.steps[..i + 1][..i] == p.steps[..i];
      current := Extend(h, current, p.steps[i].edge, p.steps[i].dst);
    }
    assert p.steps[..|p.steps|] == p.steps;
    FlatChain(h, p);
  }

  function Reversed<T>(s: seq<T>): (r: seq<T>)
    ensures |r| == |s| && forall i :: 0 <= i < |s| ==> r[i] == s[|s| - 1 - i]
  {
    seq(|s|, i requires 0 <= i < |s| => s[|s| - 1 - i])
  }

  /** `to_path`: collects the steps from the end, then reverses them. */
  method ToPath(n: NPath) returns (p: Path)
    ensures p == Flat(n)
  {
    var steps: seq<Step> := [];
    var current := n;
    while current.parent.Some?
      invariant Flat(n) == Path(Flat(current).src, Flat(current).steps + Reversed(steps))
      decreases current
    {
      ghost var before := Flat(current).steps + Reversed(steps);
      if current.edge.Some? {
        var s := Step(current.vertex, current.edge.value);
        assert Reversed(steps + [s]) == [s] + Reversed(steps);
        steps := steps + [s];
      }
      assert before == Flat(current.parent.value).steps + Reversed(steps);
      current := current.parent.value;
    }
    assert Flat(n).steps == Reversed(steps);
    p := Path(current.vertex, Reversed(steps));
  }

  // --------------------------------------------------------------- traversal

  function PathVertices(p: Path): (r: seq<Vertex>)
    ensures |r| == |p.steps| + 1 && r[0] == p.src
    ensures forall k :: 1 <= k < |r| ==> r[k] == p.steps[k - 1].dst
  {
    [p.src] + seq(|p.steps|, i requires 0 <= i < |p.steps| => p.steps[i].dst)
  }

  function PathEdges(p: Path): (r: seq<Edge>)
    ensures |r| == |p.steps|
  {
    seq(|p.steps|, i requires 0 <= i < |p.steps| => p.steps[i].edge)
  }

  /** Vertices from a node up to the start. */
  function Upward(n: NPath): seq<Vertex>
    decreases n
  {
    [n.vertex] + if n.parent.Some? then Upward(n.parent.value) else []
  }

  function UpwardEdges(n: NPath): seq<Edge>
    decreases n
  {
    if n.edge.None? then []
    else [n.edge.value] + if n.parent.Some? then UpwardEdges(n.parent.value) else []
  }

  lemma ReversedSnoc<T>(s: seq<T>, x: T)
    ensures Reversed(s + [x]) == [x] + Reversed(s)
  {
  }

  lemma {:induction false} UpwardIsReversed(h: Hasher, n: NPath)
    requires Built(h, n)
    ensures Upward(n) == Reversed(PathVertices(Flat(n)))
    ensures UpwardEdges(n) == Reversed(PathEdges(Flat(n)))
    decreases n
  {
    if n.parent.Some? {
      var p := n.parent.value;
      UpwardIsReversed(h, p);
      assert PathVertices(Flat(n)) == PathVertices(Flat(p)) + [n.vertex];
      assert PathEdges(Flat(n)) == PathEdges(Flat(p)) + [n.edge.value];
      ReversedSnoc(PathVertices(Flat(p)), n.vertex);
      ReversedSnoc(PathEdges(Flat(p)), n.edge.value);
    } else {
      assert PathVertices(Flat(n)) == [n.vertex];
    }
  }

  /** The first vertex an iterator yields is the end of the path, the last its start. */
  lemma IterationStartsAtEnd(h: Hasher, n: NPath)
    requires Built(h, n)
    ensures Upward(n) != [] && Upward(n)[0] == n.vertex && Upward(n)[|Upward(n)| - 1] == Flat(n).src
  {
    UpwardIsReversed(h, n);
    hide Built;
    assert PathVertices(Flat(n))[0] == Flat(n).src;
  }

  /** The lazy iterators: `current` is the node to report next. */
  class NPathIter {
    var current: Option<NPath>

    constructor (n: NPath)
      ensures current == Some(n)
    {
      current := Some(n);
    }

    ghost function Left(): seq<Vertex>
      reads this
    {
      if current.Some? then Upward(current.value) else []
    }

    ghost function LeftEdges(): seq<Edge>
      reads this
    {
      if current.Some? then UpwardEdges(current.value) else []
    }

    method NextVertex() returns (v: Option<Vertex>)
      modifies this
      ensures old(Left()) == [] ==> v.None? && Left() == []
      ensures old(Left()) != [] ==> v == Some(old(Left())[0]) && Left() == old(Left())[1..]
    {
      if current.None? {
        return None;
      }
      v := Some(current.value.vertex);
      current := current.value.parent;
    }

    /** Stops at the start node, which has no edge. */
    method NextEdge() returns (e: Option<Edge>)
      modifies this
      ensures old(LeftEdges()) == [] ==> e.None? && LeftEdges() == []
      ensures old(LeftEdges()) != [] ==> e == Some(old(LeftEdges())[0]) && LeftEdges() == old(LeftEdges())[1..]
    {
      if current.None? || current.value.edge.None? {
        return None;
      }
      e := current.value.edge;
      current := current.value.parent;
    }
  }

  /** `contains_vertex` */
  predicate ContainsVertex(n: NPath, vid: int)
    decreases n
  {
    n.vertex.vid == vid || (n.parent.Some? && ContainsVertex(n.parent.value, vid))
  }

  function Vids(p: Path): (r: seq<int>)
    ensures |r| == |p.steps| + 1 && r[0] == p.src.vid
    ensures forall k :: 1 <= k < |r| ==> r[k] == p.steps[k - 1].dst.vid
    ensures forall k :: 0 <= k < |r| ==> r[k] == PathVertices(p)[k].vid
  {
    [p.src.vid] + seq(|p.steps|, i requires 0 <= i < |p.steps| => p.steps[i].dst.vid)
  }

  lemma {:induction false} ContainsVertexIsMembership(h: Hasher, n: NPath, vid: int)
    requires Built(h, n)
    ensures ContainsVertex(n, vid) <==> vid in Vids(Flat(n))
    decreases n
  {
    if n.parent.Some? {
      ContainsVertexIsMembership(h, n.parent.value, vid);
      assert Vids(Flat(n)) == Vids(Flat(n.parent.value)) + [n.vertex.vid];
    }
  }

  // --------------------------------------------------------------- equality

  /** `PartialEq`: the cached hash and length first, then vertex id, edge and parent. */
  predicate Equal(a: NPath, b: NPath)
    decreases a
  {
    && a.hash == b.hash && a.length == b.length
    && a.vertex.vid == b.vertex.vid && a.edge == b.edge
    && (match (a.parent, b.parent)
        case (None, None) => true
        case (Some(p), Some(q)) => Equal(p, q)
        case _ => false)
  }

  /** The cheap comparison never rejects equal paths: for built chains, equality is
      exactly equality of all vertex ids and edges. */
  lemma {:induction false} EqualIsSameWalk(h: Hasher, a: NPath, b: NPath)
    requires Built(h, a) && Built(h, b)
    ensures Equal(a, b) <==> Vids(Flat(a)) == Vids(Flat(b)) && PathEdges(Flat(a)) == PathEdges(Flat(b))
    decreases a
  {
    ChainFlat(h, a);
    ChainFlat(h, b);
    if a.parent.Some? && b.parent.Some? {
      var p, q := a.parent.value, b.parent.value;
      EqualIsSameWalk(h, p, q);
      ParentView(h, a);
      ParentView(h, b);
      SnocEqual(Vids(Flat(p)), a.vertex.vid, Vids(Flat(q)), b.vertex.vid);
      SnocEqual(PathEdges(Flat(p)), a.edge.value, PathEdges(Flat(q)), b.edge.value);
    } else {
      assert Vids(Flat(a))[0] == Flat(a).src.vid && Vids(Flat(b))[0] == Flat(b).src.vid;
    }
  }

  lemma ParentView(h: Hasher, n: NPath)
    requires Built(h, n) && n.parent.Some?
    ensures Vids(Flat(n)) == Vids(Flat(n.parent.value)) + [n.vertex.vid]
    ensures PathEdges(Flat(n)) == PathEdges(Flat(n.parent.value)) + [n.edge.value]
  {
  }

  lemma SnocEqual<T>(s: seq<T>, x: T, t: seq<T>, y: T)
    ensures s + [x] == t + [y] <==> s == t && x == y
  {
    if s + [x] == t + [y] {
      assert |s| == |t| && (s + [x])[|s|] == x && (t + [y])[|t|] == y;
      assert (s + [x])[..|s|] == s && (t + [y])[..|t|] == t;
    }
  }

  // ------------------------------------------------------------ loop-free growth

  /** `extend_with_set`: refuses a vertex that was seen, else extends and marks it. */
  function ExtendWithSet(h: Hasher, parent: NPath, edge: Edge, vertex: Vertex, seen: set<int>)
    : (Option<NPath>, set<int>)
  {
    if vertex.vid in seen then (None, seen)
    else (Some(Extend(h, parent, edge, vertex)), seen + {vertex.vid})
  }

  /** A vertex is refused exactly when it was seen; otherwise the path gains one step and
      the set that vertex. */
  lemma ExtendsUnseen(h: Hasher, parent: NPath, edge: Edge, vertex: Vertex, seen: set<int>)
    requires Built(h, parent)
    ensures var (r, s) := ExtendWithSet(h, parent, edge, vertex, seen);
            if vertex.vid in seen then r == None && s == seen
            else
              && r.Some? && Built(h, r.value) && s == seen + {vertex.vid}
              && Flat(r.value) == Path(Flat(parent).src, Flat(parent).steps + [Step(vertex, edge)])
  {
    FlatExtend(h, parent, edge, vertex);
  }

  /** An attempt to extend one chain of a frontier. */
  datatype Attempt = Attempt(chain: nat, step: Step)

  /** A search over several chains with one set of seen vertices: every attempt that is
      not refused adds a chain that can be extended in turn. */
  function Explore(h: Hasher, frontier: seq<NPath>, seen: set<int>, attempts: seq<Attempt>)
    : (seq<NPath>, set<int>)
  {
    if attempts == [] then (frontier, seen)
    else
      var (f, s) := Explore(h, frontier, seen, attempts[..|attempts| - 1]);
      ExploreOnce(h, f, s, attempts[|attempts| - 1])
  }

  function ExploreOnce(h: Hasher, f: seq<NPath>, s: set<int>, a: Attempt): (seq<NPath>, set<int>) {
    if a.chain >= |f| then (f, s)
    else
      var (r, t) := ExtendWithSet(h, f[a.chain], a.step.edge, a.step.dst, s);
      (if r.Some? then f + [r.value] else f, t)
  }

  predicate Distinct(s: seq<int>) {
    forall i, j :: 0 <= i < j < |s| ==> s[i] != s[j]
  }

  /** The chain repeats no vertex, and the set covers it. */
  ghost predicate LoopFree(h: Hasher, n: NPath, seen: set<int>) {
    && Built(h, n) && Distinct(Vids(Flat(n))) && n.vertex.vid in seen
    && forall i :: 0 <= i < |Vids(Flat(n))| ==> Vids(Flat(n))[i] in seen
  }

  function Ends(f: seq<NPath>): (r: seq<int>)
    ensures |r| == |f| && forall i :: 0 <= i < |f| ==> r[i] == f[i].vertex.vid
  {
    seq(|f|, i requires 0 <= i < |f| => f[i].vertex.vid)
  }

  /** The ends of the chains from position `n` on. */
  function EndsFrom(f: seq<NPath>, n: nat): set<int> {
    set i | n <= i < |f| :: Ends(f)[i]
  }

  ghost predicate GoodFrontier(h: Hasher, f: seq<NPath>, seen: set<int>) {
    Distinct(Ends(f)) && forall i :: 0 <= i < |f| ==> LoopFree(h, f[i], seen)
  }

  lemma ExtendLoopFree(h: Hasher, n: NPath, edge: Edge, vertex: Vertex, seen: set<int>)
    requires LoopFree(h, n, seen) && vertex.vid !in seen
    ensures LoopFree(h, Extend(h, n, edge, vertex), seen + {vertex.vid})
  {
    ParentView(h, Extend(h, n, edge, vertex));
  }

  function Lengthened(p: Path, step: Step): Path {
    Path(p.src, p.steps + [step])
  }

  lemma ExploreStep(h: Hasher, f: seq<NPath>, s: set<int>, a: Attempt)
    requires GoodFrontier(h, f, s)
    ensures var (g, t) := ExploreOnce(h, f, s, a);
            && GoodFrontier(h, g, t) && f <= g && t == s + EndsFrom(g, |f|)
            && (a.chain < |f| ==> a.step.dst.vid in t)
            && (if a.chain < |f| && a.step.dst.vid !in s then
                  |g| == |f| + 1 && Flat(g[|f|]) == Lengthened(Flat(f[a.chain]), a.step)
                else g == f)
  {
    hide LoopFree;
    var (g, t) := ExploreOnce(h, f, s, a);
    if a.chain < |f| && a.step.dst.vid !in s {
      ExtendLoopFree(h, f[a.chain], a.step.edge, a.step.dst, s);
      FlatExtend(h, f[a.chain], a.step.edge, a.step.dst);
      forall i | 0 <= i < |f| ensures LoopFree(h, f[i], t) && f[i].vertex.vid in s {
        MoreSeen(h, f[i], s, t);
      }
      assert Ends(g)[|f|] == a.step.dst.vid;
    }
  }

  lemma MoreSeen(h: Hasher, n: NPath, s: set<int>, t: set<int>)
    requires LoopFree(h, n, s) && s <= t
    ensures LoopFree(h, n, t) && n.vertex.vid in s
  {
  }

  /** The attempt names a chain that exists when it is made. */
  predicate Tried(h: Hasher, frontier: seq<NPath>, seen: set<int>, attempts: seq<Attempt>, i: nat)
    requires i < |attempts|
  {
    attempts[i].chain < |Explore(h, frontier, seen, attempts[..i]).0|
  }

  /** From chains that repeat no vertex and a set that covers them, a search keeps every
      chain free of repetitions, never ends two chains at the same vertex, has seen exactly
      the old vertices and the ends of the chains it added, and has seen every vertex that
      it tried to reach from a chain it had. */
  lemma {:induction false} ExploreNeverLoops(h: Hasher, frontier: seq<NPath>, seen: set<int>, attempts: seq<Attempt>)
    requires GoodFrontier(h, frontier, seen)
    ensures var (f, s) := Explore(h, frontier, seen, attempts);
            && GoodFrontier(h, f, s) && frontier <= f
            && s == seen + EndsFrom(f, |frontier|)
            && forall i :: 0 <= i < |attempts| && Tried(h, frontier, seen, attempts, i) ==>
                 attempts[i].step.dst.vid in s
    decreases |attempts|
  {
    hide GoodFrontier, ExploreOnce, Flat;
    if attempts == [] {
      assert EndsFrom(frontier, |frontier|) == {};
    } else {
      var k := |attempts| - 1;
      ExploreNeverLoops(h, frontier, seen, attempts[..k]);
      var (f, s) := Explore(h, frontier, seen, attempts[..k]);
      ExploreStep(h, f, s, attempts[k]);
      var (g, t) := ExploreOnce(h, f, s, attempts[k]);
      SeenAddsUp(frontier, f, g, seen);
      forall i | 0 <= i < k && Tried(h, frontier, seen, attempts, i) ensures attempts[i].step.dst.vid in t {
        assert attempts[..k][..i] == attempts[..i];
        assert Tried(h, frontier, seen, attempts[..k], i);
      }
    }
  }

  lemma SeenAddsUp(e: seq<NPath>, f: seq<NPath>, g: seq<NPath>, seen: set<int>)
    requires e <= f <= g
    ensures seen + EndsFrom(f, |e|) + EndsFrom(g, |f|) == seen + EndsFrom(g, |e|)
  {
    var a, b, c := EndsFrom(f, |e|), EndsFrom(g, |f|), EndsFrom(g, |e|);
    assert forall i :: 0 <= i < |f| ==> Ends(f)[i] == Ends(g)[i];
    forall v | v in c ensures v in a + b {
      var i :| |e| <= i < |g| && Ends(g)[i] == v;
      if i < |f| {
        assert Ends(f)[i] in a;
      }
    }
    forall v | v in a ensures v in c {
      var i :| |e| <= i < |f| && Ends(f)[i] == v;
      assert Ends(g)[i] in c;
    }
  }

  // --------------------------------------------------------- reversal, splicing

  /** Edge `i` leads from vertex `i` to vertex `i + 1`. */
  predicate Joined(p: Path, i: nat)
    requires i < |p.steps|
  {
    p.steps[i].edge.src == Vids(p)[i] && p.steps[i].edge.dst == Vids(p)[i + 1]
  }

  /** Every edge leads from the vertex before it to the vertex after it. */
  predicate Walk(p: Path) {
    forall i :: 0 <= i < |p.steps| ==> Joined(p, i)
  }

  function Flip(e: Edge): Edge {
    e.(src := e.dst, dst := e.src)
  }

  function Reverse(p: Path): Path {
    if p.steps == [] then p
    else
      var vs, n := PathVertices(p), |p.steps|;
      Path(vs[n], seq(n, i requires 0 <= i < n => Step(vs[n - 1 - i], Flip(p.steps[n - 1 - i].edge))))
  }

  /** `Path::reverse`, with its vertex list and backward loop. */
  method ReversePath(p: Path) returns (r: Path)
    ensures r == Reverse(p)
  {
    if p.steps == [] {
      return p;
    }
    var vertices := [p.src];
    for i := 0 to |p.steps|
      invariant vertices == PathVertices(p)[..i + 1]
    {
      vertices := vertices + [p.steps[i].dst];
    }
    var steps: seq<Step> := [];
    var i := |p.steps|;
    while i > 0
      invariant 0 <= i <= |p.steps| && |steps| == |p.steps| - i
      invariant forall k :: 0 <= k < |steps| ==> steps[k] == Reverse(p).steps[k]
    {
      i := i - 1;
      steps := steps + [Step(vertices[i], Flip(p.steps[i].edge))];
    }
    r := Path(vertices[|vertices| - 1], steps);
  }

  lemma ReverseVertices(p: Path)
    ensures PathVertices(Reverse(p)) == Reversed(PathVertices(p)) && Vids(Reverse(p)) == Reversed(Vids(p))
    ensures |Reverse(p).steps| == |p.steps|
  {
  }

  function Flips(es: seq<Edge>): (r: seq<Edge>)
    ensures |r| == |es| && forall i :: 0 <= i < |es| ==> r[i] == Flip(es[i])
  {
    seq(|es|, i requires 0 <= i < |es| => Flip(es[i]))
  }

  lemma ReverseEdges(p: Path)
    ensures PathEdges(Reverse(p)) == Reversed(Flips(PathEdges(p)))
  {
  }

  lemma FlipsTwice(es: seq<Edge>)
    ensures Reversed(Flips(Reversed(Flips(es)))) == es
  {
  }

  lemma SamePath(p: Path, q: Path)
    requires PathVertices(p) == PathVertices(q) && PathEdges(p) == PathEdges(q)
    ensures p == q
  {
    forall i | 0 <= i < |p.steps| ensures p.steps[i] == q.steps[i] {
      assert PathVertices(p)[i + 1] == PathVertices(q)[i + 1];
      assert PathEdges(p)[i] == PathEdges(q)[i];
    }
    assert p.src == PathVertices(p)[0] && q.src == PathVertices(q)[0];
  }

  lemma ReversedTwice<T>(s: seq<T>)
    ensures Reversed(Reversed(s)) == s
  {
  }

  lemma ReverseTwice(p: Path)
    ensures Reverse(Reverse(p)) == p
  {
    hide *;
    var r := Reverse(p);
    ReverseVertices(p);
    ReverseVertices(r);
    ReversedTwice(PathVertices(p));
    ReverseEdges(p);
    ReverseEdges(r);
    FlipsTwice(PathEdges(p));
    SamePath(Reverse(r), p);
  }

  lemma ReverseWalk(p: Path)
    requires Walk(p)
    ensures Walk(Reverse(p))
  {
    hide Reverse, PathVertices, Vids;
    var r, n := Reverse(p), |p.steps|;
    ReverseVertices(p);
    ReverseEdges(p);
    forall i | 0 <= i < n ensures Joined(r, i) {
      assert Joined(p, n - 1 - i);
      assert r.steps[i].edge == PathEdges(r)[i] && p.steps[n - 1 - i].edge == PathEdges(p)[n - 1 - i];
    }
  }

  /** Reversing twice gives the path back, and a path is a walk exactly when its
      reverse is. */
  lemma ReverseInvolution(p: Path)
    ensures Reverse(Reverse(p)) == p
    ensures Walk(p) <==> Walk(Reverse(p))
  {
    hide Reverse, Walk;
    ReverseTwice(p);
    if Walk(p) {
      ReverseWalk(p);
    }
    if Walk(Reverse(p)) {
      ReverseWalk(Reverse(p));
    }
  }

  /** `combine_paths`: two searches that meet, as one flat path. */
  method CombinePaths(left: NPath, right: NPath) returns (r: Option<Path>)
    ensures r == if left.vertex.vid != right.vertex.vid then None else Some(Splice(Flat(left), Flat(right)))
  {
    if left.vertex.vid != right.vertex.vid {
      return None;
    }
    var l := ToPath(left);
    var back := ToPath(right);
    back := ReversePath(back);
    r := Some(l.(steps := l.steps + back.steps));
  }

  function Splice(left: Path, right: Path): Path {
    left.(steps := left.steps + Reverse(right).steps)
  }

  function Last<T>(s: seq<T>): T
    requires s != []
  {
    s[|s| - 1]
  }

  /** Two walks that end at the same vertex are joined into one walk from the start of
      the left to the start of the right, through exactly their vertices, the meeting
      vertex once. */
  lemma SpliceJoins(left: Path, right: Path)
    requires Walk(left) && Walk(right) && Last(Vids(left)) == Last(Vids(right))
    ensures var s := Splice(left, right);
            && Walk(s)
            && Vids(s) == Vids(left) + Reversed(Vids(right))[1..]
            && |s.steps| == |left.steps| + |right.steps|
            && Vids(s)[0] == left.src.vid && Last(Vids(s)) == right.src.vid
  {
    hide Reverse, Walk, Vids;
    ReverseVertices(right);
    ReverseInvolution(right);
    ExtendWalk(left, Reverse(right));
  }

  lemma VidsConcat(left: Path, more: Path)
    ensures Vids(left.(steps := left.steps + more.steps)) == Vids(left) + Vids(more)[1..]
  {
  }

  lemma ExtendWalk(left: Path, more: Path)
    requires Walk(left) && Walk(more) && Last(Vids(left)) == Vids(more)[0]
    ensures var s := left.(steps := left.steps + more.steps); Walk(s) && Vids(s) == Vids(left) + Vids(more)[1..]
  {
    var s, n := left.(steps := left.steps + more.steps), |left.steps|;
    hide Vids;
    VidsConcat(left, more);
    forall i | 0 <= i < |s.steps| ensures Joined(s, i) {
      if i >= n {
        assert Joined(more, i - n) && Vids(s)[i] == Vids(more)[i - n];
      } else {
        assert Joined(left, i) && Vids(s)[i] == Vids(left)[i] && Vids(s)[i + 1] == Vids(left)[i + 1];
      }
    }
  }

  /** `Path::append_reverse`: the steps reversed and their edges flipped, each still
      with the vertex its edge used to lead to. */
  function FlippedSteps(steps: seq<Step>): (r: seq<Step>)
    ensures |r| == |steps|
    ensures forall i :: 0 <= i < |r| ==> r[i] == Step(steps[|r| - 1 - i].dst, Flip(steps[|r| - 1 - i].edge))
  {
    seq(|steps|, i requires 0 <= i < |steps| =>
      Step(steps[|steps| - 1 - i].dst, Flip(steps[|steps| - 1 - i].edge)))
  }

  function AppendReverse(p: Path, other: Path): Path {
    p.(steps := p.steps + FlippedSteps(other.steps))
  }

  predicate Loops(p: Path) {
    forall i :: 0 <= i < |p.steps| ==> p.steps[i].edge.src == p.steps[i].edge.dst
  }

  /** Appending the reverse of a walk this way gives a walk exactly when the appended
      walk never leaves its vertex. */
  lemma AppendReverseNeedsLoops(p: Path, other: Path)
    requires Walk(p) && Walk(other) && Last(Vids(p)) == Last(Vids(other))
    ensures Walk(AppendReverse(p, other)) <==> Loops(other)
  {
    if Walk(AppendReverse(p, other)) {
      AppendedIsLoops(p, other);
    }
    if Loops(other) {
      LoopsAppend(p, other);
    }
  }

  /** One edge between two vertices, appended to the vertex where it ends: not a walk,
      and not the reversed edge. */
  lemma AppendedEdgeIsMisplaced(edgeType: string, ranking: int, props: Props)
    ensures var a, b := Vertex(1, ""), Vertex(2, "");
            var p, other := Path(b, []), Path(a, [Step(b, Edge(1, 2, edgeType, ranking, props))]);
            && Walk(p) && Walk(other) && Last(Vids(p)) == Last(Vids(other))
            && !Walk(AppendReverse(p, other)) && Walk(Splice(p, other))
            && Last(Vids(AppendReverse(p, other))) == 2 && Last(Vids(Splice(p, other))) == 1
  {
    var a, b := Vertex(1, ""), Vertex(2, "");
    var p, other := Path(b, []), Path(a, [Step(b, Edge(1, 2, edgeType, ranking, props))]);
    assert Walk(p);
    assert Walk(other) by {
      assert Joined(other, 0);
    }
    assert other.steps[0].edge.src != other.steps[0].edge.dst;
    AppendReverseNeedsLoops(p, other);
    SpliceJoins(p, other);
  }

  lemma AppendedIsLoops(p: Path, other: Path)
    requires Walk(other) && Walk(AppendReverse(p, other))
    ensures Loops(other)
  {
    var a, n, m := AppendReverse(p, other), |p.steps|, |other.steps|;
    forall i | 0 <= i < m ensures other.steps[i].edge.src == other.steps[i].edge.dst {
      var k := n + (m - 1 - i);
      assert Joined(a, k) && Joined(other, i);
      assert a.steps[k] == Step(other.steps[i].dst, Flip(other.steps[i].edge));
      assert Vids(a)[k + 1] == Vids(other)[i + 1];
    }
  }

  lemma LoopsAppend(p: Path, other: Path)
    requires Walk(p) && Walk(other) && Last(Vids(p)) == Last(Vids(other)) && Loops(other)
    ensures Walk(AppendReverse(p, other))
  {
    var a, n, m, v := AppendReverse(p, other), |p.steps|, |other.steps|, Last(Vids(p));
    forall i | 0 <= i < m
      ensures other.steps[i].dst.vid == v && other.steps[i].edge.src == v == other.steps[i].edge.dst
    {
      StaysPut(other, i);
      StaysPut(other, i + 1);
      assert Joined(other, i);
    }
    forall k | n <= k < |a.steps| ensures a.steps[k].dst.vid == v && a.steps[k].edge.src == v == a.steps[k].edge.dst {
      assert a.steps[k] == FlippedSteps(other.steps)[k - n];
    }
    assert forall k :: 0 <= k < n ==> a.steps[k] == p.steps[k];
    forall k | 0 <= k < |a.steps| ensures Joined(a, k) {
      assert Vids(a)[n] == v;
      if k < n {
        assert Joined(p, k) && Vids(a)[k] == Vids(p)[k];
      }
    }
  }

  lemma {:induction false} StaysPut(p: Path, i: nat)
    requires Walk(p) && Loops(p) && i <= |p.steps|
    ensures Vids(p)[i] == Last(Vids(p))
    decreases |p.steps| - i
  {
    if i < |p.steps| {
      StaysPut(p, i + 1);
      assert Joined(p, i);
    }
  }
}
