/**
 * geoVeRoPy/gridSurface.py: a polygon moving through time, given as layers (a polygon
 * and its time), is covered by a triangulated surface. Between layer m and layer m+1
 * every edge k of the polygon gives two triangles, keyed (m, 2k) and (m, 2k+1); each
 * triangle is linked in `surfaceGraph` to the earlier triangles it shares an edge with.
 * `buildZProfile` cuts the surface at a time z.
 *
 * The vertex-coincidence test is2PtsSame lives in geoVeRoPy/geometry.py, which is not
 * part of this model; it is the parameter `same`. The union of all layers (`z0Proj`)
 * and the search stubs of the file are not modelled.
 */
module GridSurface {
  import opened Wrappers
  import opened Geom

  datatype Point3 = Point3(x: real, y: real, z: real)

  /** One entry of timedPoly: a polygon and its time. */
  datatype Layer = Layer(poly: seq<Point>, t: real)

  datatype Tri = Tri(a: Point3, b: Point3, c: Point3)

  type FacetKey = (int, int)

  type SameFn = (Point3, Point3) -> bool

  /** The three vertices in the order the source's index loops visit them. */
  function Vertex(t: Tri, j: nat): Point3
    requires j < 3
  {
    if j == 0 then t.a else if j == 1 then t.b else t.c
  }

  /** The coordinate-wise mean of the three vertices. */
  function Centre(t: Tri): Point3
  {
    Point3((t.a.x + t.b.x + t.c.x) / 3.0, (t.a.y + t.b.y + t.c.y) / 3.0, (t.a.z + t.b.z + t.c.z) / 3.0)
  }

  /** Two vertices of the triangle coincide. */
  predicate Degenerate(t: Tri, same: SameFn)
  {
    same(t.a, t.b) || same(t.b, t.c) || same(t.a, t.c)
  }

  /** The comparison is exact equality. */
  ghost predicate Exact(same: SameFn)
  {
    forall u, v :: same(u, v) <==> u == v
  }

  /** Row x of sameMat after its first `cols` cells: the vertices of q that x
      coincides with. */
  function RowCells(x: Point3, q: Tri, same: SameFn, cols: nat): (r: nat)
    requires cols <= 3
    ensures r <= cols
  {
    if cols == 0 then 0 else RowCells(x, q, same, cols - 1) + (if same(x, Vertex(q, cols - 1)) then 1 else 0)
  }

  /** The sum of the first `rows` rows of sameMat, row i being vertex i of p. */
  function MatchRows(p: Tri, q: Tri, same: SameFn, rows: nat): (r: nat)
    requires rows <= 3
    ensures r <= 3 * rows
  {
    if rows == 0 then 0 else MatchRows(p, q, same, rows - 1) + RowCells(Vertex(p, rows - 1), q, same, 3)
  }

  /** The sum of sameMat. */
  function MatchCount(p: Tri, q: Tri, same: SameFn): nat
  {
    MatchRows(p, q, same, 3)
  }

  /** The nested loops filling sameMat, summed. */
  method CountMatches(p: Tri, q: Tri, same: SameFn) returns (count: nat)
    ensures count == MatchCount(p, q, same) && count <= 9
  {
    count := 0;
    for i := 0 to 3
      invariant count == MatchRows(p, q, same, i)
    {
      for j := 0 to 3
        invariant count == MatchRows(p, q, same, i) + RowCells(Vertex(p, i), q, same, j)
      {
        if same(Vertex(p, i), Vertex(q, j)) {
          count := count + 1;
        }
      }
    }
  }

  /** With exact comparison, a vertex coincides with at most one vertex of a triangle
      whose vertices are distinct. */
  lemma RowShared(x: Point3, q: Tri, same: SameFn)
    requires Exact(same) && q.a != q.b && q.b != q.c && q.a != q.c
    ensures RowCells(x, q, same, 3) == if x in {q.a, q.b, q.c} then 1 else 0
  {
    assert RowCells(x, q, same, 1) == (if x == q.a then 1 else 0);
    assert RowCells(x, q, same, 2) == RowCells(x, q, same, 1) + (if x == q.b then 1 else 0);
    assert RowCells(x, q, same, 3) == RowCells(x, q, same, 2) + (if x == q.c then 1 else 0);
  }

  /** With exact comparison, sameMat sums to the number of shared vertices: two
      triangles with distinct vertices that share exactly two of them count 2. */
  lemma MatchCountShared(p: Tri, q: Tri, same: SameFn)
    requires Exact(same) && q.a != q.b && q.b != q.c && q.a != q.c
    ensures MatchCount(p, q, same) ==
      (if p.a in {q.a, q.b, q.c} then 1 else 0) + (if p.b in {q.a, q.b, q.c} then 1 else 0) +
      (if p.c in {q.a, q.b, q.c} then 1 else 0)
  {
    RowShared(p.a, q, same);
    RowShared(p.b, q, same);
    RowShared(p.c, q, same);
    assert MatchRows(p, q, same, 1) == RowCells(p.a, q, same, 3);
    assert MatchRows(p, q, same, 2) == MatchRows(p, q, same, 1) + RowCells(p.b, q, same, 3);
    assert MatchRows(p, q, same, 3) == MatchRows(p, q, same, 2) + RowCells(p.c, q, same, 3);
  }

  /** What addFacet does with one listed neighbour: the degenerate-triangle error, the
      missing neighbour (a KeyError in the dictionary lookup), or the mismatch error. */
  function NeighbourError(facets: map<FacetKey, Tri>, nei: FacetKey, tri: Tri, same: SameFn): Option<Error>
  {
    if Degenerate(tri, same) then Some(ZeroVectorError("ERROR: invalid facet - "))
    else if nei !in facets then Some(KeyError)
    else if MatchCount(facets[nei], tri, same) != 2 then Some(ZeroVectorError("ERROR: facet does not match"))
    else None
  }

  /** The neighbour loop of addFacet: how many neighbours get their edge before the
      first error, and that error. */
  function Scan(facets: map<FacetKey, Tri>, adjTo: seq<FacetKey>, tri: Tri, same: SameFn): (r: (nat, Option<Error>))
    ensures r.0 <= |adjTo|
    ensures forall j :: 0 <= j < r.0 ==> NeighbourError(facets, adjTo[j], tri, same).None?
    ensures r.1.None? <==> r.0 == |adjTo|
    ensures r.1.Some? ==> r.1 == NeighbourError(facets, adjTo[r.0], tri, same)
  {
    if adjTo == [] then (0, None)
    else
      var e := NeighbourError(facets, adjTo[0], tri, same);
      if e.Some? then (0, e)
      else
        var rest := Scan(facets, adjTo[1..], tri, same);
        (rest.0 + 1, rest.1)
  }

  /** The edges a facet gets to its first `count` listed neighbours. */
  function LinksTo(key: FacetKey, adjTo: seq<FacetKey>, count: nat): set<(FacetKey, FacetKey)>
    requires count <= |adjTo|
  {
    set j | 0 <= j < count :: (adjTo[j], key)
  }

  // ---- The facet layout of buildFacets ----

  /** Vertex k of layer m, lifted to the layer's time. */
  function Lift(layers: seq<Layer>, m: nat, k: nat): Point3
    requires m < |layers| && k < |layers[m].poly|
  {
    Point3(layers[m].poly[k].x, layers[m].poly[k].y, layers[m].t)
  }

  /** Every layer has n vertices. */
  ghost predicate Uniform(layers: seq<Layer>, n: nat)
  {
    forall m :: 0 <= m < |layers| ==> |layers[m].poly| == n
  }

  /** Facet (m, 2k) is [P(m,k), P(m,k+1), P(m+1,k)] and facet (m, 2k+1) is
      [P(m+1,k), P(m+1,k+1), P(m,k+1)], the vertex after the last being vertex 0: the
      first and last pair of every band are the wrap-around cases of this rule. */
  function FacetTri(layers: seq<Layer>, n: nat, key: FacetKey): Tri
    requires n >= 2 && Uniform(layers, n) && 0 <= key.0 < |layers| - 1 && 0 <= key.1 < 2 * n
  {
    var m, k := key.0, key.1 / 2;
    var k1 := if k + 1 == n then 0 else k + 1;
    if key.1 % 2 == 0 then Tri(Lift(layers, m, k), Lift(layers, m, k1), Lift(layers, m + 1, k))
    else Tri(Lift(layers, m + 1, k), Lift(layers, m + 1, k1), Lift(layers, m, k1))
  }

  /** The neighbours buildFacets lists for a facet: none for (0, 0); the facet before
      it in the band; the odd facet of the band below for an even facet (for (m, 0):
      only that one); and (m, 0) as well for the last facet of a band. */
  function FacetAdj(n: nat, key: FacetKey): (adj: seq<FacetKey>)
    requires n >= 2 && key.0 >= 0 && 0 <= key.1 < 2 * n
    ensures forall j :: 0 <= j < |adj| ==> FacetBefore(adj[j], key) && adj[j].0 >= 0 && 0 <= adj[j].1 < 2 * n
  {
    var m, c := key.0, key.1;
    if c == 0 then (if m == 0 then [] else [(m - 1, 1)])
    else if c == 1 then [(m, 0)]
    else if c % 2 == 0 then (if m == 0 then [(m, c - 1)] else [(m, c - 1), (m - 1, c + 1)])
    else if c == 2 * n - 1 then [(m, c - 1), (m, 0)]
    else [(m, c - 1)]
  }

  /** buildFacets adds the facets band by band, each band in key order. */
  predicate FacetBefore(a: FacetKey, b: FacetKey)
  {
    a.0 < b.0 || (a.0 == b.0 && a.1 < b.1)
  }

  /** The keys of the facets added by the time facet (m, c) is due. */
  predicate Added(n: nat, m: int, c: int, key: FacetKey)
  {
    0 <= key.0 && 0 <= key.1 < 2 * n && FacetBefore(key, (m, c))
  }

  /** The keys of `bands` bands of a layout with n vertices per layer. */
  function FacetKeys(bands: nat, n: nat): set<FacetKey>
  {
    if bands == 0 then {} else FacetKeys(bands - 1, n) + BandKeys(bands - 1, 2 * n)
  }

  function BandKeys(m: int, count: nat): set<FacetKey>
  {
    if count == 0 then {} else BandKeys(m, count - 1) + {(m, count - 1)}
  }

  lemma {:induction false} BandKeysMembers(m: int, count: nat)
    ensures forall key :: key in BandKeys(m, count) <==> key.0 == m && 0 <= key.1 < count
  {
    if count > 0 {
      BandKeysMembers(m, count - 1);
    }
  }

  lemma {:induction false} BandKeysSize(m: int, count: nat)
    ensures |BandKeys(m, count)| == count
  {
    if count > 0 {
      BandKeysSize(m, count - 1);
      BandKeysMembers(m, count - 1);
      assert (m, count - 1) !in BandKeys(m, count - 1);
    }
  }

  /** The layout has 2n facets per band, 2n(L-1) for L layers, keyed (m, c) with
      0 <= m < L-1 and 0 <= c < 2n. */
  lemma {:induction false} FacetKeysMembers(bands: nat, n: nat)
    ensures forall key :: key in FacetKeys(bands, n) <==> 0 <= key.0 < bands && 0 <= key.1 < 2 * n
  {
    if bands > 0 {
      FacetKeysMembers(bands - 1, n);
      BandKeysMembers(bands - 1, 2 * n);
    }
  }

  lemma {:induction false} FacetKeysSize(bands: nat, n: nat)
    ensures |FacetKeys(bands, n)| == 2 * n * bands
  {
    if bands > 0 {
      FacetKeysSize(bands - 1, n);
      BandKeysSize(bands - 1, 2 * n);
      var a, b := FacetKeys(bands - 1, n), BandKeys(bands - 1, 2 * n);
      assert FacetKeys(bands, n) == a + b;
      BandDisjoint(bands - 1, n);
      assert |a + b| == |a| + |b|;
      BandsStep(n, bands);
    }
  }

  /** A new band shares no key with the bands below it. */
  lemma BandDisjoint(m: nat, n: nat)
    ensures FacetKeys(m, n) !! BandKeys(m, 2 * n)
  {
    FacetKeysMembers(m, n);
    BandKeysMembers(m, 2 * n);
    forall key | key in BandKeys(m, 2 * n)
      ensures key !in FacetKeys(m, n)
    {
      assert key.0 == m;
    }
  }

  lemma BandsStep(n: nat, bands: nat)
    requires bands > 0
    ensures 2 * n * bands == 2 * n * (bands - 1) + 2 * n
  {
  }

  /** Lifted vertices are all distinct: distinct vertices within each layer, distinct
      times across layers. */
  ghost predicate DistinctLayout(layers: seq<Layer>, n: nat)
    requires Uniform(layers, n)
  {
    (forall m, k, k' :: 0 <= m < |layers| && 0 <= k < k' < n ==> layers[m].poly[k] != layers[m].poly[k']) &&
    (forall m, m' :: 0 <= m < m' < |layers| ==> layers[m].t != layers[m'].t)
  }

  lemma LiftInjective(layers: seq<Layer>, n: nat, m: nat, k: nat, m': nat, k': nat)
    requires Uniform(layers, n) && DistinctLayout(layers, n)
    requires m < |layers| && m' < |layers| && k < n && k' < n
    ensures Lift(layers, m, k) == Lift(layers, m', k') <==> m == m' && k == k'
  {
    if m < m' {
      assert layers[m].t != layers[m'].t;
    } else if m' < m {
      assert layers[m'].t != layers[m].t;
    } else if k < k' {
      assert layers[m].poly[k] != layers[m].poly[k'];
    } else if k' < k {
      assert layers[m].poly[k'] != layers[m].poly[k];
    }
  }

  /** On a layout of distinct vertices with exact comparison, no facet of the layout is
      degenerate. */
  lemma FacetNotDegenerate(layers: seq<Layer>, n: nat, key: FacetKey)
    requires n >= 2 && Uniform(layers, n) && DistinctLayout(layers, n)
    requires 0 <= key.0 < |layers| - 1 && 0 <= key.1 < 2 * n
    ensures forall same: SameFn :: Exact(same) ==> !Degenerate(FacetTri(layers, n, key), same)
  {
    var m, k := key.0, key.1 / 2;
    var k1 := if k + 1 == n then 0 else k + 1;
    LiftInjective(layers, n, m, k, m, k1);
    LiftInjective(layers, n, m, k, m + 1, k);
    LiftInjective(layers, n, m, k1, m + 1, k);
    LiftInjective(layers, n, m + 1, k, m + 1, k1);
    LiftInjective(layers, n, m + 1, k, m, k1);
    LiftInjective(layers, n, m + 1, k1, m, k1);
  }

  /** The tables of a surface whose layout facets before (m, c) have been added: each
      with its triangle, centre and graph node, and the edges from its listed
      neighbours. */
  ghost predicate BuiltState(layers: seq<Layer>, n: nat, m: int, c: int, facets: map<FacetKey, Tri>,
                             centres: map<FacetKey, Point3>, nodes: set<FacetKey>, edges: set<(FacetKey, FacetKey)>)
  {
    n >= 2 && Uniform(layers, n) &&
    FacetsBuilt(layers, n, m, c, facets) &&
    centres.Keys == facets.Keys && (forall key :: key in centres ==> centres[key] == Centre(facets[key])) &&
    nodes == facets.Keys && EdgesBuilt(n, facets, edges)
  }

  ghost predicate FacetsBuilt(layers: seq<Layer>, n: nat, m: int, c: int, facets: map<FacetKey, Tri>)
    requires n >= 2 && Uniform(layers, n)
  {
    (forall key :: key in facets <==> Added(n, m, c, key) && key.0 < |layers| - 1) &&
    (forall key :: key in facets ==>
      0 <= key.0 < |layers| - 1 && 0 <= key.1 < 2 * n && facets[key] == FacetTri(layers, n, key))
  }

  ghost predicate EdgesBuilt(n: nat, facets: map<FacetKey, Tri>, edges: set<(FacetKey, FacetKey)>)
    requires n >= 2
  {
    forall e :: e in edges <==> e.1 in facets && e.1.0 >= 0 && 0 <= e.1.1 < 2 * n && e.0 in FacetAdj(n, e.1)
  }

  /** Adding facet (m, c) with its listed neighbours' edges moves the tables on by one
      facet; its neighbours are all among the facets already there. */
  lemma BuiltStep(layers: seq<Layer>, n: nat, m: nat, c: nat, facets: map<FacetKey, Tri>,
                  centres: map<FacetKey, Point3>, nodes: set<FacetKey>, edges: set<(FacetKey, FacetKey)>)
    requires BuiltState(layers, n, m, c, facets, centres, nodes, edges) && m < |layers| - 1 && c < 2 * n
    ensures var key := (m as int, c as int); var adj := FacetAdj(n, key);
      (forall j :: 0 <= j < |adj| ==> adj[j] in facets) &&
      BuiltState(layers, n, m, c + 1, facets[key := FacetTri(layers, n, key)], centres[key := Centre(FacetTri(layers, n, key))],
        nodes + {key}, edges + LinksTo(key, adj, |adj|))
  {
    var key := (m as int, c as int);
    var adj := FacetAdj(n, key);
    var tri := FacetTri(layers, n, key);
    FacetsStep(layers, n, m, c, facets);
    EdgesStep(n, key, facets, edges, tri);
  }

  lemma FacetsStep(layers: seq<Layer>, n: nat, m: nat, c: nat, facets: map<FacetKey, Tri>)
    requires n >= 2 && Uniform(layers, n) && FacetsBuilt(layers, n, m, c, facets) && m < |layers| - 1 && c < 2 * n
    ensures var key := (m as int, c as int); var adj := FacetAdj(n, key);
      (forall j :: 0 <= j < |adj| ==> adj[j] in facets) &&
      FacetsBuilt(layers, n, m, c + 1, facets[key := FacetTri(layers, n, key)])
  {
    var key := (m as int, c as int);
    var adj := FacetAdj(n, key);
    forall j | 0 <= j < |adj|
      ensures adj[j] in facets
    {
      assert Added(n, m, c, adj[j]);
    }
  }

  lemma EdgesStep(n: nat, key: FacetKey, facets: map<FacetKey, Tri>, edges: set<(FacetKey, FacetKey)>, tri: Tri)
    requires n >= 2 && key.0 >= 0 && 0 <= key.1 < 2 * n && key !in facets && EdgesBuilt(n, facets, edges)
    ensures EdgesBuilt(n, facets[key := tri], edges + LinksTo(key, FacetAdj(n, key), |FacetAdj(n, key)|))
  {
    var adj := FacetAdj(n, key);
    var edges' := edges + LinksTo(key, adj, |adj|);
    forall e
      ensures e in edges' <==> e.1 in facets[key := tri] && e.1.0 >= 0 && 0 <= e.1.1 < 2 * n && e.0 in FacetAdj(n, e.1)
    {
      if e.1 == key && e.0 in adj {
        var j :| 0 <= j < |adj| && adj[j] == e.0;
        assert e in LinksTo(key, adj, |adj|);
      }
    }
  }

  /** Every facet of the layout passes addFacet's checks against every neighbour it
      lists: it is not degenerate and shares exactly two matches with the neighbour. */
  ghost predicate Fits(layers: seq<Layer>, n: nat, same: SameFn)
    requires n >= 2 && Uniform(layers, n)
  {
    forall key: FacetKey, nei: FacetKey :: 0 <= key.0 < |layers| - 1 && 0 <= key.1 < 2 * n && nei in FacetAdj(n, key) ==>
      FitsAt(layers, n, same, key, nei)
  }

  ghost predicate FitsAt(layers: seq<Layer>, n: nat, same: SameFn, key: FacetKey, nei: FacetKey)
    requires n >= 2 && Uniform(layers, n) && 0 <= key.0 < |layers| - 1 && 0 <= key.1 < 2 * n && nei in FacetAdj(n, key)
  {
    !Degenerate(FacetTri(layers, n, key), same) && MatchCount(FacetTri(layers, n, nei), FacetTri(layers, n, key), same) == 2
  }

  lemma LiftInjectiveAll(layers: seq<Layer>, n: nat)
    requires Uniform(layers, n) && DistinctLayout(layers, n)
    ensures forall m: nat, k: nat, m': nat, k': nat :: m < |layers| && m' < |layers| && k < n && k' < n ==>
      (Lift(layers, m, k) == Lift(layers, m', k') <==> m == m' && k == k')
  {
    forall m: nat, k: nat, m': nat, k': nat | m < |layers| && m' < |layers| && k < n && k' < n
      ensures Lift(layers, m, k) == Lift(layers, m', k') <==> m == m' && k == k'
    {
      LiftInjective(layers, n, m, k, m', k');
    }
  }

  /** With distinct vertices and exact comparison, every listed neighbour shares exactly
      one edge (two vertices) with the new facet. */
  lemma NeighbourSharesEdge(layers: seq<Layer>, n: nat, same: SameFn, key: FacetKey, nei: FacetKey)
    requires n >= 2 && Uniform(layers, n) && DistinctLayout(layers, n) && Exact(same)
    requires 0 <= key.0 < |layers| - 1 && 0 <= key.1 < 2 * n && nei in FacetAdj(n, key)
    ensures FitsAt(layers, n, same, key, nei)
  {
    var q := FacetTri(layers, n, key);
    FacetNotDegenerate(layers, n, key);
    MatchCountShared(FacetTri(layers, n, nei), q, same);
    LiftInjectiveAll(layers, n);
  }

  /** A layout of distinct vertices, compared exactly, passes every check. */
  lemma DistinctLayoutFits(layers: seq<Layer>, n: nat, same: SameFn)
    requires n >= 2 && Uniform(layers, n) && DistinctLayout(layers, n) && Exact(same)
    ensures Fits(layers, n, same)
  {
    forall key: FacetKey, nei: FacetKey | 0 <= key.0 < |layers| - 1 && 0 <= key.1 < 2 * n && nei in FacetAdj(n, key)
      ensures FitsAt(layers, n, same, key, nei)
    {
      NeighbourSharesEdge(layers, n, same, key, nei);
    }
  }

  /** Empty tables are the state before the first facet. */
  lemma EmptyBuilt(layers: seq<Layer>, n: nat)
    requires n >= 2 && Uniform(layers, n)
    ensures BuiltState(layers, n, 0, 0, map[], map[], {}, {})
  {
  }

  /** Once every band is added, the facet keys are the layout's keys. */
  lemma AllBuilt(layers: seq<Layer>, n: nat, facets: map<FacetKey, Tri>)
    requires n >= 2 && Uniform(layers, n) && |layers| >= 1 && FacetsBuilt(layers, n, |layers| - 1, 0, facets)
    ensures forall key :: key in facets <==> key in FacetKeys(|layers| - 1, n)
  {
    FacetKeysMembers(|layers| - 1, n);
  }

  // ---- The surface ----

  class TriGridSurface {
    var triFacets: map<FacetKey, Tri>
    var triCenters: map<FacetKey, Point3>
    /** The nodes and the edges (neighbour, facet) added to surfaceGraph. */
    var graphNodes: set<FacetKey>
    var graphEdges: set<(FacetKey, FacetKey)>
    const timedPoly: seq<Layer>
    const startTime: real
    const endTime: real

    /** __init__ up to the call of buildFacets: empty tables, the layers, and the first
        and last layer times. */
    constructor (timedPoly: seq<Layer>)
      requires |timedPoly| >= 1
      ensures this.timedPoly == timedPoly
      ensures startTime == timedPoly[0].t && endTime == timedPoly[|timedPoly| - 1].t
      ensures triFacets == map[] && triCenters == map[] && graphNodes == {} && graphEdges == {}
    {
      this.timedPoly := timedPoly;
      startTime := timedPoly[0].t;
      endTime := timedPoly[|timedPoly| - 1].t;
      triFacets := map[];
      triCenters := map[];
      graphNodes := {};
      graphEdges := {};
    }

    /** addFacet: the facet and its centre are stored and its node added, then every
        listed neighbour is checked and linked in turn until the first error. */
    method AddFacet(key: FacetKey, adjTo: seq<FacetKey>, tri: Tri, same: SameFn) returns (err: Option<Error>)
      modifies this
      ensures triFacets == old(triFacets)[key := tri]
      ensures triCenters == old(triCenters)[key := Centre(tri)]
      ensures graphNodes == old(graphNodes) + {key}
      ensures var s := Scan(triFacets, adjTo, tri, same);
        err == s.1 && graphEdges == old(graphEdges) + LinksTo(key, adjTo, s.0)
    {
      graphNodes := graphNodes + {key};
      triFacets := triFacets[key := tri];
      triCenters := triCenters[key := Centre(tri)];
      var s := Scan(triFacets, adjTo, tri, same);
      var i := 0;
      while i < |adjTo|
        invariant 0 <= i <= |adjTo|
        invariant Scan(triFacets, adjTo[i..], tri, same) == (s.0 - i, s.1) && i <= s.0
        invariant triFacets == old(triFacets)[key := tri]
        invariant triCenters == old(triCenters)[key := Centre(tri)]
        invariant graphNodes == old(graphNodes) + {key}
        invariant graphEdges == old(graphEdges) + LinksTo(key, adjTo, i)
      {
        var nei := adjTo[i];
        var e := CheckNeighbour(nei, tri, same);
        assert adjTo[i..][0] == nei && adjTo[i..][1..] == adjTo[i + 1..];
        if e.Some? {
          assert Scan(triFacets, adjTo[i..], tri, same) == (0, e);
          return e;
        }
        graphEdges := graphEdges + {(nei, key)};
        assert LinksTo(key, adjTo, i + 1) == LinksTo(key, adjTo, i) + {(nei, key)};
        i := i + 1;
      }
      return None;
    }

    /** The checks addFacet makes for one neighbour. */
    method CheckNeighbour(nei: FacetKey, tri: Tri, same: SameFn) returns (e: Option<Error>)
      ensures e == NeighbourError(triFacets, nei, tri, same)
    {
      if Degenerate(tri, same) {
        return Some(ZeroVectorError("ERROR: invalid facet - "));
      }
      if nei !in triFacets {
        return Some(KeyError);
      }
      var count := CountMatches(triFacets[nei], tri, same);
      if count != 2 {
        return Some(ZeroVectorError("ERROR: facet does not match"));
      }
      return None;
    }

    /** The number of vertices per layer. */
    function Width(): nat
      requires |timedPoly| >= 1
    {
      |timedPoly[0].poly|
    }

    /** The layers buildFacets can triangulate: at least two, of one common width of at
        least two vertices. */
    ghost predicate Shaped()
    {
      |timedPoly| >= 2 && Width() >= 2 && Uniform(timedPoly, Width())
    }

    /** The tables hold exactly the layout's facets before (m, c), each with its
        triangle, centre, graph node and the edges to its listed neighbours. */
    ghost predicate Built(m: int, c: int)
      requires Shaped()
      reads this
    {
      BuiltState(timedPoly, Width(), m, c, triFacets, triCenters, graphNodes, graphEdges)
    }

    /** One addFacet call of buildFacets, for facet (m, c) of the layout. Every
        neighbour it lists is already present, so the only possible failure is a
        ZeroVectorError. */
    method AddLayoutFacet(m: nat, c: nat, same: SameFn) returns (err: Option<Error>)
      requires Shaped() && m < |timedPoly| - 1 && c < 2 * Width() && Built(m, c)
      modifies this
      ensures err.None? ==> Built(m, c + 1)
      ensures err.Some? ==> err.value.ZeroVectorError?
      ensures Fits(timedPoly, Width(), same) ==> err.None?
    {
      var n := Width();
      var key := (m as int, c as int);
      var adj := FacetAdj(n, key);
      var tri := FacetTri(timedPoly, n, key);
      BuiltStep(timedPoly, n, m, c, triFacets, triCenters, graphNodes, graphEdges);
      err := AddFacet(key, adj, tri, same);
      var scan := Scan(triFacets, adj, tri, same);
      if err.Some? {
        var nei := adj[scan.0];
        assert nei in triFacets && nei in FacetAdj(n, key);
        assert triFacets[nei] == FacetTri(timedPoly, n, nei);
        assert Fits(timedPoly, n, same) ==> FitsAt(timedPoly, n, same, key, nei);
      }
    }

    /** The band of facets between layer m and layer m+1. */
    method BuildBand(m: nat, same: SameFn) returns (err: Option<Error>)
      requires Shaped() && m < |timedPoly| - 1 && Built(m, 0)
      modifies this
      ensures err.None? ==> Built(m + 1, 0)
      ensures err.Some? ==> err.value.ZeroVectorError?
      ensures Fits(timedPoly, Width(), same) ==> err.None?
    {
      for c := 0 to 2 * Width()
        invariant Built(m, c)
      {
        err := AddLayoutFacet(m, c, same);
        if err.Some? {
          return;
        }
      }
      assert forall key :: Added(Width(), m, 2 * Width(), key) <==> Added(Width(), m + 1, 0, key);
      return None;
    }

    /** buildFacets: on success the tables hold the 2n(L-1) facets of the layout; it can
        only fail on a degenerate or mismatching facet. */
    method BuildFacets(same: SameFn) returns (err: Option<Error>)
      requires Shaped() && triFacets == map[] && triCenters == map[] && graphNodes == {} && graphEdges == {}
      modifies this
      ensures err.Some? ==> err.value.ZeroVectorError?
      ensures Fits(timedPoly, Width(), same) ==> err.None?
      ensures err.None? ==> Layout()
    {
      EmptyBuilt(timedPoly, Width());
      for m := 0 to |timedPoly| - 1
        invariant Built(m, 0)
      {
        err := BuildBand(m, same);
        if err.Some? {
          return;
        }
      }
      AllBuilt(timedPoly, Width(), triFacets);
      return None;
    }

    /** The finished surface: the facets keyed FacetKeys(L-1, n), each with its
        triangle and centre, one graph node per facet, and an edge from every listed
        neighbour. */
    ghost predicate Layout()
      requires Shaped()
      reads this
    {
      var n := Width();
      (forall key :: key in triFacets <==> key in FacetKeys(|timedPoly| - 1, n)) &&
      Built(|timedPoly| - 1, 0)
    }

    /** __init__: the surface of the layers, or the IndexError of reading a second layer
        or a second vertex that is not there, or the ZeroVectorError of a facet that
        fails its checks. */
    static method Create(timedPoly: seq<Layer>, same: SameFn) returns (r: Result<TriGridSurface>)
      requires |timedPoly| == 0 || Uniform(timedPoly, |timedPoly[0].poly|)
      ensures |timedPoly| < 2 || |timedPoly[0].poly| < 2 ==> r == Err(IndexError)
      ensures r.Ok? ==> fresh(r.value) && r.value.timedPoly == timedPoly && r.value.Shaped() && r.value.Layout()
      ensures r.Err? && |timedPoly| >= 2 && |timedPoly[0].poly| >= 2 ==>
        r.error.ZeroVectorError? && !Fits(timedPoly, |timedPoly[0].poly|, same)
    {
      if |timedPoly| < 2 || |timedPoly[0].poly| < 2 {
        return Err(IndexError);
      }
      var surface := new TriGridSurface(timedPoly);
      var err := surface.BuildFacets(same);
      if err.Some? {
        return Err(err.value);
      }
      return Ok(surface);
    }

    /** buildZProfile: the cut of the surface at time z. */
    method BuildZProfile(z: real, vertical: real) returns (r: Result<seq<Point>>)
      requires |timedPoly| >= 1 && Uniform(timedPoly, Width())
      ensures r == ZProfile(timedPoly, Width(), z, vertical)
    {
      if |timedPoly| < 2 {
        return Err(OutOfRangeError("ERROR: z is out of range"));
      }
      var n := Width();
      var i := 0;
      while i < |timedPoly| - 1
        invariant 0 <= i <= |timedPoly| - 1
        invariant ZProfile(timedPoly, n, z, vertical) == ProfileFrom(timedPoly, n, i, z, vertical)
      {
        var t0, t1 := timedPoly[i].t, timedPoly[i + 1].t;
        if Abs(t0 - z) <= vertical {
          return Ok(timedPoly[i].poly);
        } else if t0 <= z < t1 {
          if n == 0 {
            return Err(IndexError);
          }
          var segs := SegsOf(timedPoly[i].poly, timedPoly[i + 1].poly);
          var poly := Interpolate(segs, (z - t0) / (t1 - t0));
          return Ok(poly);
        }
        i := i + 1;
      }
      return Ok([]);
    }

    /** isPtInside: whether pt lies in the cut at time z, for the point-in-polygon
        primitive inPoly. */
    method IsPtInside(pt: Point, z: real, vertical: real, inPoly: (Point, seq<Point>) -> bool) returns (r: Result<bool>)
      requires |timedPoly| >= 1 && Uniform(timedPoly, Width())
      ensures ZProfile(timedPoly, Width(), z, vertical).Err? ==> r == Err(ZProfile(timedPoly, Width(), z, vertical).error)
      ensures ZProfile(timedPoly, Width(), z, vertical).Ok? ==> r == Ok(inPoly(pt, ZProfile(timedPoly, Width(), z, vertical).value))
    {
      var zProj := BuildZProfile(z, vertical);
      if zProj.Err? {
        return Err(zProj.error);
      }
      return Ok(inPoly(pt, zProj.value));
    }
  }

  // ---- buildZProfile ----

  function Abs(x: real): real
  {
    if x < 0.0 then -x else x
  }

  /** The segments buildZProfile lays between layer polygons p and q: (p0, q0), then
      (pk, qk) and (pk, q(k-1)) for k = 1..n-1, then (p0, q(n-1)). */
  function SegAt(p: seq<Point>, q: seq<Point>, j: nat): (Point, Point)
    requires 1 <= |p| == |q| && j < 2 * |p|
  {
    if j == 0 then (p[0], q[0])
    else if j == 2 * |p| - 1 then (p[0], q[|q| - 1])
    else if j % 2 == 1 then (p[(j + 1) / 2], q[(j + 1) / 2])
    else (p[j / 2], q[j / 2 - 1])
  }

  function Segs(p: seq<Point>, q: seq<Point>): (segs: seq<(Point, Point)>)
    requires 1 <= |p| == |q|
    ensures |segs| == 2 * |p|
  {
    seq(2 * |p|, j requires 0 <= j < 2 * |p| => SegAt(p, q, j))
  }

  /** The points at fraction sc along each segment. */
  function Interp(segs: seq<(Point, Point)>, sc: real): (poly: seq<Point>)
    ensures |poly| == |segs|
  {
    seq(|segs|, j requires 0 <= j < |segs| => Lerp(segs[j].0, segs[j].1, sc))
  }

  /** The profile from layer i on: the first layer whose time is within `vertical` of z
      gives its own polygon, the first pair of layers whose times enclose z gives the
      interpolated cut, and a z beyond every pair gives an empty profile. */
  function ProfileFrom(layers: seq<Layer>, n: nat, i: nat, z: real, vertical: real): Result<seq<Point>>
    requires Uniform(layers, n)
    decreases |layers| - i
  {
    if i + 1 >= |layers| then Ok([])
    else if Abs(layers[i].t - z) <= vertical then Ok(layers[i].poly)
    else if layers[i].t <= z < layers[i + 1].t then
      if n == 0 then Err(IndexError)
      else Ok(Interp(Segs(layers[i].poly, layers[i + 1].poly), (z - layers[i].t) / (layers[i + 1].t - layers[i].t)))
    else ProfileFrom(layers, n, i + 1, z, vertical)
  }

  function ZProfile(layers: seq<Layer>, n: nat, z: real, vertical: real): Result<seq<Point>>
    requires Uniform(layers, n)
  {
    if |layers| < 2 then Err(OutOfRangeError("ERROR: z is out of range"))
    else ProfileFrom(layers, n, 0, z, vertical)
  }

  /** The segment loop of buildZProfile. */
  method SegsOf(p: seq<Point>, q: seq<Point>) returns (segs: seq<(Point, Point)>)
    requires 1 <= |p| == |q|
    ensures segs == Segs(p, q)
  {
    segs := [(p[0], q[0])];
    for k := 1 to |p|
      invariant |segs| == 2 * k - 1
      invariant forall j :: 0 <= j < |segs| ==> segs[j] == SegAt(p, q, j)
    {
      segs := segs + [(p[k], q[k]), (p[k], q[k - 1])];
    }
    segs := segs + [(p[0], q[|q| - 1])];
  }

  /** The interpolation loop of buildZProfile. */
  method Interpolate(segs: seq<(Point, Point)>, sc: real) returns (poly: seq<Point>)
    ensures poly == Interp(segs, sc)
  {
    poly := [];
    for j := 0 to |segs|
      invariant |poly| == j
      invariant forall i :: 0 <= i < j ==> poly[i] == Lerp(segs[i].0, segs[i].1, sc)
    {
      var s := segs[j];
      poly := poly + [Point(s.0.x + (s.1.x - s.0.x) * sc, s.0.y + (s.1.y - s.0.y) * sc)];
    }
  }

  /** Layers further apart in time than the tolerance. */
  ghost predicate Spaced(layers: seq<Layer>, vertical: real)
  {
    forall j, k :: 0 <= j < k < |layers| ==> layers[k].t - layers[j].t > vertical
  }

  /** With spaced layers and a non-negative tolerance, no layer before i matches a z
      at or after layer i's time, so the profile is decided at layer i. */
  lemma {:induction false} ProfileSkips(layers: seq<Layer>, n: nat, i: nat, j: nat, z: real, vertical: real)
    requires Uniform(layers, n) && Spaced(layers, vertical) && vertical >= 0.0
    requires j <= i < |layers| - 1 && layers[i].t <= z
    ensures ProfileFrom(layers, n, j, z, vertical) == ProfileFrom(layers, n, i, z, vertical)
    decreases i - j
  {
    if j < i {
      assert layers[i].t - layers[j].t > vertical;
      if j + 1 < i {
        assert layers[i].t - layers[j + 1].t > vertical;
      }
      ProfileSkips(layers, n, i, j + 1, z, vertical);
    }
  }

  /** At a layer's own time the cut is that layer's polygon, unchanged. */
  lemma ProfileAtLayerTime(layers: seq<Layer>, n: nat, i: nat, vertical: real)
    requires Uniform(layers, n) && Spaced(layers, vertical) && vertical >= 0.0 && i < |layers| - 1
    ensures ZProfile(layers, n, layers[i].t, vertical) == Ok(layers[i].poly)
  {
    ProfileSkips(layers, n, i, 0, layers[i].t, vertical);
  }

  /** Strictly between two layers (beyond the tolerance of the lower one) the cut has
      2n points, the points at fraction sc = (z - t0) / (t1 - t0) in [0, 1) along the
      segments between the two polygons. */
  lemma ProfileBetweenLayers(layers: seq<Layer>, n: nat, i: nat, z: real, vertical: real)
    requires Uniform(layers, n) && Spaced(layers, vertical) && vertical >= 0.0 && i < |layers| - 1 && n >= 1
    requires layers[i].t + vertical < z < layers[i + 1].t
    ensures var sc := (z - layers[i].t) / (layers[i + 1].t - layers[i].t);
      0.0 <= sc < 1.0 &&
      ZProfile(layers, n, z, vertical) == Ok(Interp(Segs(layers[i].poly, layers[i + 1].poly), sc)) &&
      |ZProfile(layers, n, z, vertical).value| == 2 * n
  {
    ProfileSkips(layers, n, i, 0, z, vertical);
    var t0, t1 := layers[i].t, layers[i + 1].t;
    assert 0.0 <= z - t0 < t1 - t0;
    DivBelowOne(z - t0, t1 - t0);
  }

  lemma DivBelowOne(a: real, b: real)
    requires 0.0 <= a < b
    ensures 0.0 <= a / b < 1.0
  {
  }

  /** Each point of a cut at fraction sc in [0, 1] lies between the two ends of its
      segment on both axes. */
  lemma InterpBetween(segs: seq<(Point, Point)>, sc: real, j: nat)
    requires 0.0 <= sc <= 1.0 && j < |segs|
    ensures var s, p := segs[j], Interp(segs, sc)[j];
      ((s.0.x <= p.x && p.x <= s.1.x) || (s.1.x <= p.x && p.x <= s.0.x)) &&
      ((s.0.y <= p.y && p.y <= s.1.y) || (s.1.y <= p.y && p.y <= s.0.y))
  {
    var s, p := segs[j], Interp(segs, sc)[j];
    assert p == Lerp(s.0, s.1, sc);
    LerpBetween(s.0.x, s.1.x, p.x, sc);
    LerpBetween(s.0.y, s.1.y, p.y, sc);
  }

  lemma LerpBetween(a: real, b: real, x: real, t: real)
    requires 0.0 <= t <= 1.0 && x == a + t * (b - a)
    ensures (a <= x && x <= b) || (b <= x && x <= a)
  {
    FractionWithin(t, b - a, x - a);
  }

  /** A fraction t in [0, 1] of a signed length e lies between 0 and e. */
  lemma FractionWithin(t: real, e: real, k: real)
    requires 0.0 <= t <= 1.0 && k == t * e
    ensures 0.0 <= e ==> 0.0 <= k <= e
    ensures e <= 0.0 ==> e <= k <= 0.0
  {
    if 0.0 <= e {
      assert e - k == (1.0 - t) * e;
    } else {
      assert k - e == (1.0 - t) * -e;
      assert -k == t * -e;
    }
  }

  // ---- distTimedPt2timedPt ----

  datatype TimedDist = TimedDist(dist: real, speed: Option<real>)

  /** distTimedPt2timedPt: the distance between the two points and the speed needed to
      cover it in the time between them, None when that time is not positive. */
  function DistTimedPt2TimedPt(pt1: Point, t1: real, pt2: Point, t2: real, dist: DistFn): (r: TimedDist)
    ensures r.dist == dist(pt1, pt2)
    ensures r.speed.None? <==> t2 - t1 <= 0.0
    ensures r.speed.Some? ==> r.speed.value * (t2 - t1) == r.dist
  {
    var dt := t2 - t1;
    if dt <= 0.0 then TimedDist(dist(pt1, pt2), None) else TimedDist(dist(pt1, pt2), Some(dist(pt1, pt2) / dt))
  }

  /** Covering a non-negative distance forward in time takes a non-negative speed. */
  lemma SpeedNonNegative(pt1: Point, t1: real, pt2: Point, t2: real, dist: DistFn)
    requires IsDist(dist) && t2 > t1
    ensures DistTimedPt2TimedPt(pt1, t1, pt2, t2, dist).speed.value >= 0.0
  {
    var r := DistTimedPt2TimedPt(pt1, t1, pt2, t2, dist);
    assert r.dist >= 0.0;
  }
}
