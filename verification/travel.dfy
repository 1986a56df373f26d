/**
 * geoVeRoPy/travel.py: the travel tables between nodes (matrixDist), from a point to
 * every node (vectorDist) and between two points (scaleDist), with their validation of
 * the `edges` option and of the keyword arguments each option needs.
 *
 * The distance primitives live in geoVeRoPy/geometry.py, which is not part of this
 * model; they are the fields of a `Metrics` value. A primitive that also reports its
 * path gives a `Measured` value. The road-network option calls a web service and is
 * not modelled. The message of ERROR_MISSING_EDGES lives in a message file that is not
 * part of this model and is represented by the constant's name.
 */
module Travel {
  import opened Wrappers
  import opened Geom
  import opened VrpGeometry

  datatype Measured = Measured(dist: real, path: seq<Point>)

  /** The keys of the 'grid' argument the validation looks at; the rest of the grid is
      read by the grid primitive only. */
  datatype GridSpec = GridSpec(hasColumn: bool, hasRow: bool)

  /** The keyword arguments. The source asks of 'polys', 'tau' and 'grid' whether the key
      is absent or None and treats both alike: None stands for both. Of 'path' and
      'distUnit' it asks only whether the key is present: None is an absent key and
      Some(None) a key holding None. */
  datatype Kwargs = Kwargs(
    polys: Option<seq<seq<Point>>>,
    tau: Option<map<(int, int), real>>,
    path: Option<Option<map<(int, int), seq<Point>>>>,
    grid: Option<GridSpec>,
    distUnit: Option<Option<string>>)

  /** The distance primitives: distEuclideanXY, distLatLon (its unit argument is None
      when the call leaves it out and Some(u) when the call passes u, which may itself
      be None), distManhattenXY, its detailed form, distBtwPolysXY (whose plain result
      is the distance of the detailed one) and distOnGrid. */
  datatype Metrics = Metrics(
    euclid: DistFn,
    latLon: (Point, Point, Option<Option<string>>) -> real,
    manhattan: DistFn,
    manhattanPath: (Point, Point) -> Measured,
    btwPolys: (Point, Point, seq<seq<Point>>) -> Measured,
    onGrid: (Point, Point, GridSpec) -> Measured)

  const MissingEdges := "ERROR_MISSING_EDGES"
  /** Reading 'dist' from the bare number a primitive returns. */
  const Unsubscriptable := "'float' object is not subscriptable"
  /** Reading a path from a 'path' argument that holds None. */
  const NoneUnsubscriptable := "'NoneType' object is not subscriptable"
  /** The call `warnings.warning(...)` of the 'EuclideanBarrier' option without polys:
      the `warnings` module has no function of that name. */
  const NoWarning := "module 'warnings' has no attribute 'warning'"

  /** `[l[len(l) - 1 - i] for i in range(len(l))]` */
  function Reverse<T>(s: seq<T>): (r: seq<T>)
    ensures |r| == |s| && forall k :: 0 <= k < |s| ==> r[k] == s[|s| - 1 - k]
  {
    seq(|s|, k requires 0 <= k < |s| => s[|s| - 1 - k])
  }

  /** Reversing twice gives the path back. */
  lemma ReverseReverse<T>(s: seq<T>)
    ensures Reverse(Reverse(s)) == s
  {
    assert forall k :: 0 <= k < |s| ==> Reverse(Reverse(s))[k] == s[k];
  }

  /** The straight path and its reversal. */
  function Straight(a: Point, b: Point, d: DistFn): Measured
  {
    Measured(d(a, b), [a, b])
  }

  // ---- Pairwise tables ----

  /** Every entry so far: both orders present with the same value, 0 on the diagonal,
      and off it the distance taken in one of the two directions. */
  ghost predicate TauPairs(tau: map<(int, int), real>, nodes: Nodes, ids: seq<int>, d: DistFn)
  {
    forall k :: k in tau ==>
      k.0 in ids && k.1 in ids && k.0 in nodes.loc && k.1 in nodes.loc &&
      (k.1, k.0) in tau && tau[(k.1, k.0)] == tau[k] &&
      (k.0 == k.1 ==> tau[k] == 0.0) &&
      (k.0 != k.1 ==> tau[k] == d(nodes.loc[k.0], nodes.loc[k.1]) || tau[k] == d(nodes.loc[k.1], nodes.loc[k.0]))
  }

  /** The inner loop of a plain builder: the entries of ids[a] with every id. */
  method TauRow(tau0: map<(int, int), real>, nodes: Nodes, ids: seq<int>, a: nat, d: DistFn)
    returns (tau: map<(int, int), real>)
    requires Known(nodes, ids) && a < |ids| && TauPairs(tau0, nodes, ids, d)
    ensures TauPairs(tau, nodes, ids, d)
    ensures forall k :: k in tau0 ==> k in tau
    ensures forall q :: 0 <= q < |ids| ==> (ids[a], ids[q]) in tau
  {
    tau := tau0;
    for b := 0 to |ids|
      invariant TauPairs(tau, nodes, ids, d)
      invariant forall k :: k in tau0 ==> k in tau
      invariant forall q :: 0 <= q < b ==> (ids[a], ids[q]) in tau
    {
      var i, j := ids[a], ids[b];
      if i != j {
        var t := d(nodes.loc[i], nodes.loc[j]);
        tau := tau[(i, j) := t][(j, i) := t];
      } else {
        tau := tau[(i, j) := 0.0][(j, i) := 0.0];
      }
    }
  }

  /** _matrixDistEuclideanXY, _matrixDistLatLon, _matrixDistManhattenXY, _matrixDistGrid
      and _matrixDistBtwPolysXY without detail: an entry for every ordered pair of the
      ids, symmetric, 0 on the diagonal, a distance between the two nodes off it. */
  method MatrixTau(nodes: Nodes, ids: seq<int>, d: DistFn) returns (tau: map<(int, int), real>)
    requires Known(nodes, ids)
    ensures forall i, j :: (i, j) in tau <==> i in ids && j in ids
    ensures TauPairs(tau, nodes, ids, d)
  {
    tau := map[];
    for a := 0 to |ids|
      invariant TauPairs(tau, nodes, ids, d)
      invariant forall p, q :: 0 <= p < a && 0 <= q < |ids| ==> (ids[p], ids[q]) in tau
    {
      tau := TauRow(tau, nodes, ids, a, d);
    }
    FilledSquare(tau, ids);
  }

  /** A table holding every pair of positions, and only pairs of ids, holds exactly
      the pairs of ids. */
  lemma FilledSquare<V>(tau: map<(int, int), V>, ids: seq<int>)
    requires forall k :: k in tau ==> k.0 in ids && k.1 in ids
    requires forall p, q :: 0 <= p < |ids| && 0 <= q < |ids| ==> (ids[p], ids[q]) in tau
    ensures forall i, j :: (i, j) in tau <==> i in ids && j in ids
  {
    forall i, j | i in ids && j in ids
      ensures (i, j) in tau
    {
      var p :| 0 <= p < |ids| && ids[p] == i;
      var q :| 0 <= q < |ids| && ids[q] == j;
    }
  }

  /** With a symmetric distance each entry is the distance from its first node to its
      second. */
  lemma TauExact(tau: map<(int, int), real>, nodes: Nodes, ids: seq<int>, d: DistFn, i: int, j: int)
    requires TauPairs(tau, nodes, ids, d) && IsDist(d) && (i, j) in tau && i != j
    ensures tau[(i, j)] == d(nodes.loc[i], nodes.loc[j])
  {
  }

  /** Every entry so far of a detailed table: the distance and the path are written
      together, the reverse pair holds the same distance and the reversed path, and the
      diagonal holds 0 and no path. */
  ghost predicate PathPairs(tau: map<(int, int), real>, pathPt: map<(int, int), seq<Point>>, nodes: Nodes, ids: seq<int>,
                            m: (Point, Point) -> Measured)
  {
    tau.Keys == pathPt.Keys &&
    forall k :: k in pathPt ==> k.0 in ids && k.1 in ids && PairEntry(tau, pathPt, nodes, m, k)
  }

  /** One entry of a detailed table and its reverse. */
  ghost predicate PairEntry(tau: map<(int, int), real>, pathPt: map<(int, int), seq<Point>>, nodes: Nodes,
                            m: (Point, Point) -> Measured, k: (int, int))
  {
    k in tau && k in pathPt && k.0 in nodes.loc && k.1 in nodes.loc && (k.1, k.0) in pathPt && (k.1, k.0) in tau &&
    (k.0 == k.1 ==> tau[k] == 0.0 && pathPt[k] == []) &&
    (k.0 != k.1 ==>
      tau[(k.1, k.0)] == tau[k] && pathPt[(k.1, k.0)] == Reverse(pathPt[k]) &&
      (Measured(tau[k], pathPt[k]) == m(nodes.loc[k.0], nodes.loc[k.1]) ||
       Measured(tau[k], Reverse(pathPt[k])) == m(nodes.loc[k.1], nodes.loc[k.0])))
  }

  /** The inner loop of a detailed builder. */
  method PathRow(tau0: map<(int, int), real>, pathPt0: map<(int, int), seq<Point>>, nodes: Nodes, ids: seq<int>, a: nat,
                 m: (Point, Point) -> Measured)
    returns (tau: map<(int, int), real>, pathPt: map<(int, int), seq<Point>>)
    requires Known(nodes, ids) && a < |ids| && PathPairs(tau0, pathPt0, nodes, ids, m)
    ensures PathPairs(tau, pathPt, nodes, ids, m)
    ensures forall k :: k in tau0 ==> k in tau
    ensures forall q :: 0 <= q < |ids| ==> (ids[a], ids[q]) in tau
  {
    tau, pathPt := tau0, pathPt0;
    for b := 0 to |ids|
      invariant PathPairs(tau, pathPt, nodes, ids, m)
      invariant forall k :: k in tau0 ==> k in tau
      invariant forall q :: 0 <= q < b ==> (ids[a], ids[q]) in tau
    {
      var i, j := ids[a], ids[b];
      if i != j {
        var dd := m(nodes.loc[i], nodes.loc[j]);
        PathPairsPut(tau, pathPt, nodes, ids, m, i, j, dd.dist, dd.path);
        tau := tau[(i, j) := dd.dist][(j, i) := dd.dist];
        pathPt := pathPt[(i, j) := dd.path][(j, i) := Reverse(dd.path)];
      } else {
        PathPairsPut(tau, pathPt, nodes, ids, m, i, j, 0.0, []);
        tau := tau[(i, j) := 0.0][(j, i) := 0.0];
        pathPt := pathPt[(i, j) := []][(j, i) := []];
      }
    }
  }

  /** Writing a pair and its reverse keeps the detailed table consistent. */
  lemma PathPairsPut(tau: map<(int, int), real>, pathPt: map<(int, int), seq<Point>>, nodes: Nodes, ids: seq<int>,
                     m: (Point, Point) -> Measured, i: int, j: int, d: real, path: seq<Point>)
    requires PathPairs(tau, pathPt, nodes, ids, m)
    requires i in ids && j in ids && i in nodes.loc && j in nodes.loc
    requires i == j ==> d == 0.0 && path == []
    requires i != j ==> Measured(d, path) == m(nodes.loc[i], nodes.loc[j])
    ensures PathPairs(tau[(i, j) := d][(j, i) := d], pathPt[(i, j) := path][(j, i) := Reverse(path)], nodes, ids, m)
  {
    var tau', pathPt' := tau[(i, j) := d][(j, i) := d], pathPt[(i, j) := path][(j, i) := Reverse(path)];
    ReverseReverse(path);
    forall k | k in pathPt'
      ensures k.0 in ids && k.1 in ids && PairEntry(tau', pathPt', nodes, m, k)
    {
      if k != (i, j) && k != (j, i) {
        assert PairEntry(tau, pathPt, nodes, m, k);
      }
    }
  }

  /** _matrixDistGrid and _matrixDistBtwPolysXY with detail: the table above, and for
      every pair the primitive's path, the reverse pair holding it reversed. */
  method MatrixTauPath(nodes: Nodes, ids: seq<int>, m: (Point, Point) -> Measured)
    returns (tau: map<(int, int), real>, pathPt: map<(int, int), seq<Point>>)
    requires Known(nodes, ids)
    ensures forall i, j :: (i, j) in tau <==> i in ids && j in ids
    ensures forall i, j :: (i, j) in pathPt <==> i in ids && j in ids
    ensures PathPairs(tau, pathPt, nodes, ids, m)
  {
    tau, pathPt := map[], map[];
    for a := 0 to |ids|
      invariant PathPairs(tau, pathPt, nodes, ids, m)
      invariant forall p, q :: 0 <= p < a && 0 <= q < |ids| ==> (ids[p], ids[q]) in tau
    {
      tau, pathPt := PathRow(tau, pathPt, nodes, ids, a, m);
    }
    FilledSquare(tau, ids);
  }

  // ---- matrixDist ----

  /** An entry for every ordered pair of the ids and for nothing else. */
  ghost predicate Square<V>(tau: map<(int, int), V>, ids: seq<int>)
  {
    forall i, j :: (i, j) in tau <==> i in ids && j in ids
  }

  datatype MatrixRes =
    | TauOnly(tau: map<(int, int), real>)
    | TauPath(tau: map<(int, int), real>, pathPt: map<(int, int), seq<Point>>)

  /** Detailed tables holding the diagonal only: 0 and no path for every (i, i). */
  ghost predicate DiagonalOnly(tau: map<(int, int), real>, pathPt: map<(int, int), seq<Point>>, ids: seq<int>)
  {
    Square(tau, ids) && Square(pathPt, ids) &&
    forall k :: k in tau ==> k.0 == k.1 && tau[k] == 0.0 && pathPt[k] == []
  }

  /** Without two different ids the detailed tables hold the diagonal only. */
  lemma NoPairDiagonal(tau: map<(int, int), real>, pathPt: map<(int, int), seq<Point>>, nodes: Nodes, ids: seq<int>,
                       m: (Point, Point) -> Measured)
    requires Square(tau, ids) && Square(pathPt, ids) && PathPairs(tau, pathPt, nodes, ids, m) && !DistinctPair(ids)
    ensures DiagonalOnly(tau, pathPt, ids)
  {
    forall k | k in tau
      ensures k.0 == k.1 && tau[k] == 0.0 && pathPt[k] == []
    {
      assert PairEntry(tau, pathPt, nodes, m, k);
    }
  }

  /** _matrixDistEuclideanXY, _matrixDistLatLon and _matrixDistManhattenXY: their
      primitive returns a bare number, so detail mode fails on reading its 'dist' at the
      first pair of different ids, and returns the diagonal tables when there is none. */
  method BareTables(nodes: Nodes, ids: seq<int>, d: DistFn, detailFlag: bool) returns (r: Result<MatrixRes>)
    requires Known(nodes, ids)
    ensures r.Err? <==> detailFlag && DistinctPair(ids)
    ensures r.Err? ==> r.error == TypeError(Unsubscriptable)
    ensures r.Ok? ==> (r.value.TauPath? <==> detailFlag) && Square(r.value.tau, ids)
    ensures r.Ok? && !detailFlag ==> TauPairs(r.value.tau, nodes, ids, d)
    ensures r.Ok? && detailFlag ==> DiagonalOnly(r.value.tau, r.value.pathPt, ids)
  {
    if detailFlag {
      if DistinctPair(ids) {
        return Err(TypeError(Unsubscriptable));
      }
      var m := (a, b) => Straight(a, b, d);
      var tau, pathPt := MatrixTauPath(nodes, ids, m);
      NoPairDiagonal(tau, pathPt, nodes, ids, m);
      return Ok(TauPath(tau, pathPt));
    }
    var tau := MatrixTau(nodes, ids, d);
    return Ok(TauOnly(tau));
  }

  /** _matrixDistBtwPolysXY: the detailed tables in detail mode, the distances alone
      otherwise. */
  method PolyTables(nodes: Nodes, ids: seq<int>, m: (Point, Point) -> Measured, detailFlag: bool) returns (v: MatrixRes)
    requires Known(nodes, ids)
    ensures (v.TauPath? <==> detailFlag) && Square(v.tau, ids)
    ensures detailFlag ==> Square(v.pathPt, ids) && PathPairs(v.tau, v.pathPt, nodes, ids, m)
    ensures !detailFlag ==> TauPairs(v.tau, nodes, ids, (a, b) => m(a, b).dist)
  {
    if detailFlag {
      var tau, pathPt := MatrixTauPath(nodes, ids, m);
      return TauPath(tau, pathPt);
    }
    var tau := MatrixTau(nodes, ids, (a, b) => m(a, b).dist);
    return TauOnly(tau);
  }

  /** The distance matrixDist measures with, for the options whose primitive returns a
      bare number; 'LatLon' passes the given unit, or 'meter' when the key is absent. */
  function BareMetric(edges: string, kw: Kwargs, metrics: Metrics): DistFn
  {
    if edges == "Euclidean" then metrics.euclid
    else if edges == "Manhatten" then metrics.manhattan
    else
      var unit := if kw.distUnit.Some? then kw.distUnit.value else Some("meter");
      (a, b) => metrics.latLon(a, b, Some(unit))
  }

  /** A key of the given table the 'Dictionary' option cannot give a path for: it has no
      entry in the given paths or, with no 'path' key, names a node that is not in the
      dictionary. */
  predicate NoPathFor(nodes: Nodes, kw: Kwargs, p: (int, int))
  {
    match kw.path
    case Some(Some(paths)) => p !in paths
    case _ => p.0 !in nodes.loc || p.1 !in nodes.loc
  }

  /** The 'Dictionary' option: every given entry copied, with the given path or, with no
      'path' key, the straight one. A 'path' key holding None fails at the first entry;
      otherwise KeyError when a path is missing. */
  function DictionaryTables(nodes: Nodes, kw: Kwargs, given: map<(int, int), real>): (r: Result<(map<(int, int), real>, map<(int, int), seq<Point>>)>)
    ensures kw.path == Some(None) ==>
      (r.Err? <==> given != map[]) && (r.Err? ==> r.error == TypeError(NoneUnsubscriptable))
    ensures kw.path != Some(None) ==>
      (r.Err? <==> exists p :: p in given && NoPathFor(nodes, kw, p)) && (r.Err? ==> r.error == KeyError)
    ensures r.Ok? ==> r.value.0 == given && r.value.1.Keys == given.Keys
    ensures r.Ok? ==> forall p :: p in given ==>
      r.value.1[p] == (if kw.path.Some? then kw.path.value.value[p] else [nodes.loc[p.0], nodes.loc[p.1]])
  {
    if kw.path == Some(None) && given != map[] then Err(TypeError(NoneUnsubscriptable))
    else if kw.path != Some(None) && exists p :: p in given && NoPathFor(nodes, kw, p) then Err(KeyError)
    else
      var pathPt := map p | p in given :: if kw.path.Some? then kw.path.value.value[p] else [nodes.loc[p.0], nodes.loc[p.1]];
      Ok((given, pathPt))
  }

  /** matrixDist: the tables of the chosen option. The options whose primitive returns a
      bare number fail in detail mode once two different ids are selected, the grid
      option fails on the keyword it passes, and 'EuclideanBarrier' without polys fails
      on calling a warning function that does not exist. */
  method MatrixDist(nodes: Nodes, sel: NodeIDs, edges: string, detailFlag: bool, kw: Kwargs, metrics: Metrics)
    returns (r: Result<MatrixRes>)
    requires Known(nodes, IdsOf(nodes, sel)) && edges != "RoadNetwork"
    ensures edges !in {"Euclidean", "EuclideanBarrier", "LatLon", "Manhatten", "Dictionary", "Grid"} ==>
      r == Err(UnsupportedInputError(MissingEdges))
    ensures edges == "EuclideanBarrier" && kw.polys.None? ==> r == Err(AttributeError(NoWarning))
    ensures edges == "Dictionary" && kw.tau.None? ==> r == Err(MissingParameterError("ERROR: 'tau' is not specified"))
    ensures edges == "Grid" ==> r.Err? && (kw.grid.None? ==> r.error == MissingParameterError("ERROR: 'grid' is not specified"))
    ensures edges == "Grid" && kw.grid.Some? && !(kw.grid.value.hasColumn && kw.grid.value.hasRow) ==>
      r.error == MissingParameterError("'column' and 'row' need to be specified in 'grid'")
    ensures r.Ok? ==> (r.value.TauPath? <==> detailFlag)
    ensures r.Ok? && edges != "Dictionary" ==> Square(r.value.tau, IdsOf(nodes, sel))
    ensures edges in {"Euclidean", "LatLon", "Manhatten"} ==>
      (r.Err? <==> detailFlag && DistinctPair(IdsOf(nodes, sel))) && (r.Err? ==> r.error == TypeError(Unsubscriptable)) &&
      (r.Ok? && !detailFlag ==> TauPairs(r.value.tau, nodes, IdsOf(nodes, sel), BareMetric(edges, kw, metrics))) &&
      (r.Ok? && detailFlag ==> DiagonalOnly(r.value.tau, r.value.pathPt, IdsOf(nodes, sel)))
    ensures edges == "EuclideanBarrier" && kw.polys.Some? ==>
      (r.Ok? &&
       (detailFlag ==> PathPairs(r.value.tau, r.value.pathPt, nodes, IdsOf(nodes, sel), (a, b) => metrics.btwPolys(a, b, kw.polys.value))) &&
       (!detailFlag ==> TauPairs(r.value.tau, nodes, IdsOf(nodes, sel), (a, b) => metrics.btwPolys(a, b, kw.polys.value).dist)))
    ensures edges == "Dictionary" && kw.tau.Some? ==>
      (r.Err? <==> DictionaryTables(nodes, kw, kw.tau.value).Err?) &&
      (r.Err? ==> r.error == DictionaryTables(nodes, kw, kw.tau.value).error) &&
      (r.Ok? ==> r.value.tau == kw.tau.value) &&
      (r.Ok? && detailFlag ==> r.value.pathPt == DictionaryTables(nodes, kw, kw.tau.value).value.1)
  {
    var ids := IdsOf(nodes, sel);
    if edges == "Euclidean" || edges == "LatLon" || edges == "Manhatten" {
      r := BareTables(nodes, ids, BareMetric(edges, kw, metrics), detailFlag);
    } else if edges == "EuclideanBarrier" {
      if kw.polys.None? {
        return Err(AttributeError(NoWarning));
      }
      var polys := kw.polys.value;
      var v := PolyTables(nodes, ids, (a, b) => metrics.btwPolys(a, b, polys), detailFlag);
      r := Ok(v);
    } else if edges == "Dictionary" {
      if kw.tau.None? {
        return Err(MissingParameterError("ERROR: 'tau' is not specified"));
      }
      var tables := DictionaryTables(nodes, kw, kw.tau.value);
      if tables.Err? {
        return Err(tables.error);
      }
      if detailFlag {
        return Ok(TauPath(tables.value.0, tables.value.1));
      }
      return Ok(TauOnly(tables.value.0));
    } else if edges == "Grid" {
      if kw.grid.None? {
        return Err(MissingParameterError("ERROR: 'grid' is not specified"));
      }
      if !(kw.grid.value.hasColumn && kw.grid.value.hasRow) {
        return Err(MissingParameterError("'column' and 'row' need to be specified in 'grid'"));
      }
      return Err(TypeError("_matrixDistGrid() got an unexpected keyword argument 'grids'"));
    } else {
      return Err(UnsupportedInputError(MissingEdges));
    }
  }

  // ---- vectorDist ----

  /** _vectorDist* without detail: every id's distance from pt. */
  method VectorTau(pt: Point, nodes: Nodes, ids: seq<int>, d: DistFn) returns (tau: map<int, real>)
    requires Known(nodes, ids)
    ensures tau.Keys == set i | i in ids
    ensures forall i :: i in tau ==> i in nodes.loc && tau[i] == d(pt, nodes.loc[i])
  {
    tau := map[];
    for a := 0 to |ids|
      invariant tau.Keys == set i | i in ids[..a]
      invariant forall i :: i in tau ==> i in nodes.loc && tau[i] == d(pt, nodes.loc[i])
    {
      assert ids[..a + 1] == ids[..a] + [ids[a]];
      tau := tau[ids[a] := d(pt, nodes.loc[ids[a]])];
    }
    assert ids[..|ids|] == ids;
  }

  datatype VectorRes =
    | VTau(tau: map<int, real>)
    | VDetail(tau: map<int, real>, revTau: map<int, real>, pathPt: map<int, seq<Point>>, revPathPt: map<int, seq<Point>>)

  /** The detail tables are the measured distance and path from pt to each node, the
      way back of the same length along the reversed path. */
  ghost predicate VectorDetailed(v: VectorRes, pt: Point, nodes: Nodes, ids: seq<int>, m: (Point, Point) -> Measured)
    requires v.VDetail?
  {
    v.tau.Keys == (set i | i in ids) && v.revTau.Keys == v.tau.Keys && v.pathPt.Keys == v.tau.Keys &&
    v.revPathPt.Keys == v.tau.Keys &&
    forall i :: i in v.tau ==>
      i in nodes.loc && Measured(v.tau[i], v.pathPt[i]) == m(pt, nodes.loc[i]) &&
      v.revTau[i] == v.tau[i] && v.revPathPt[i] == Reverse(v.pathPt[i])
  }

  /** _vectorDist* with detail. */
  method VectorDetail(pt: Point, nodes: Nodes, ids: seq<int>, m: (Point, Point) -> Measured) returns (v: VectorRes)
    requires Known(nodes, ids)
    ensures v.VDetail? && VectorDetailed(v, pt, nodes, ids, m)
  {
    var tau: map<int, real> := map[];
    var revTau: map<int, real> := map[];
    var pathPt: map<int, seq<Point>> := map[];
    var revPathPt: map<int, seq<Point>> := map[];
    for a := 0 to |ids|
      invariant VectorDetailed(VDetail(tau, revTau, pathPt, revPathPt), pt, nodes, ids[..a], m)
    {
      assert ids[..a + 1] == ids[..a] + [ids[a]];
      var i := ids[a];
      var d := m(pt, nodes.loc[i]);
      tau := tau[i := d.dist];
      revTau := revTau[i := d.dist];
      pathPt := pathPt[i := d.path];
      revPathPt := revPathPt[i := Reverse(d.path)];
    }
    assert ids[..|ids|] == ids;
    v := VDetail(tau, revTau, pathPt, revPathPt);
  }

  /** The plain table: every id's distance from pt. */
  ghost predicate VectorPlain(tau: map<int, real>, pt: Point, nodes: Nodes, ids: seq<int>, d: DistFn)
  {
    tau.Keys == (set i | i in ids) && forall i :: i in tau ==> i in nodes.loc && tau[i] == d(pt, nodes.loc[i])
  }

  /** _vectorDist*: the detailed tables in detail mode, the distances alone otherwise. */
  method VectorTables(pt: Point, nodes: Nodes, ids: seq<int>, d: DistFn, m: (Point, Point) -> Measured, detailFlag: bool)
    returns (v: VectorRes)
    requires Known(nodes, ids)
    ensures v.VDetail? <==> detailFlag
    ensures !detailFlag ==> VectorPlain(v.tau, pt, nodes, ids, d)
    ensures detailFlag ==> VectorDetailed(v, pt, nodes, ids, m)
  {
    if detailFlag {
      v := VectorDetail(pt, nodes, ids, m);
    } else {
      var tau := VectorTau(pt, nodes, ids, d);
      v := VTau(tau);
    }
  }

  /** The options vectorDist can answer, given the keyword arguments. */
  predicate VectorServed(edges: string, kw: Kwargs)
  {
    edges in {"Euclidean", "LatLon", "Manhatten"} || (edges == "EuclideanBarrier" && kw.polys.Some?)
  }

  /** The distance the plain vector holds for each served option: 'LatLon' leaves the
      unit to `_vectorDistLatLon`, whose default is 'meter', and 'EuclideanBarrier' reads
      the distance between polygons. */
  function VectorMetric(edges: string, kw: Kwargs, metrics: Metrics): DistFn
    requires VectorServed(edges, kw)
  {
    if edges == "Euclidean" then metrics.euclid
    else if edges == "LatLon" then (a, b) => metrics.latLon(a, b, Some(Some("meter")))
    else if edges == "Manhatten" then metrics.manhattan
    else (a, b) => metrics.btwPolys(a, b, kw.polys.value).dist
  }

  /** The measured distance and path of each served option in detail mode: the straight
      path for the Euclidean and lat/lon distances, the primitive's own path for the
      Manhattan one and between polygons. */
  function VectorMeasure(edges: string, kw: Kwargs, metrics: Metrics): (Point, Point) -> Measured
    requires VectorServed(edges, kw)
  {
    if edges == "Euclidean" then (a, b) => Straight(a, b, metrics.euclid)
    else if edges == "LatLon" then (a, b) => Straight(a, b, (c, e) => metrics.latLon(c, e, Some(Some("meter"))))
    else if edges == "Manhatten" then metrics.manhattanPath
    else (a, b) => metrics.btwPolys(a, b, kw.polys.value)
  }

  /** vectorDist: the tables from pt for the chosen option. */
  method VectorDist(pt: Point, nodes: Nodes, sel: NodeIDs, edges: string, detailFlag: bool, kw: Kwargs, metrics: Metrics)
    returns (r: Result<VectorRes>)
    requires Known(nodes, IdsOf(nodes, sel))
    ensures r.Ok? <==> VectorServed(edges, kw)
    ensures edges !in {"Euclidean", "EuclideanBarrier", "LatLon", "Manhatten", "Grid"} ==>
      r == Err(UnsupportedInputError(MissingEdges))
    ensures edges == "EuclideanBarrier" && kw.polys.None? ==> r == Err(AttributeError(NoWarning))
    ensures edges == "Grid" && kw.grid.None? ==> r == Err(MissingParameterError("'grid' is not specified"))
    ensures edges == "Grid" && kw.grid.Some? && !(kw.grid.value.hasColumn && kw.grid.value.hasRow) ==>
      r == Err(MissingParameterError("'column' and 'row' need to be specified in 'grid'"))
    ensures r.Ok? ==> (r.value.VDetail? <==> detailFlag)
    ensures r.Ok? && !detailFlag ==> VectorPlain(r.value.tau, pt, nodes, IdsOf(nodes, sel), VectorMetric(edges, kw, metrics))
    ensures r.Ok? && detailFlag ==> VectorDetailed(r.value, pt, nodes, IdsOf(nodes, sel), VectorMeasure(edges, kw, metrics))
  {
    var ids := IdsOf(nodes, sel);
    if VectorServed(edges, kw) {
      var v := VectorTables(pt, nodes, ids, VectorMetric(edges, kw, metrics), VectorMeasure(edges, kw, metrics), detailFlag);
      return Ok(v);
    } else if edges == "EuclideanBarrier" {
      return Err(AttributeError(NoWarning));
    } else if edges == "Grid" {
      if kw.grid.None? {
        return Err(MissingParameterError("'grid' is not specified"));
      }
      if !(kw.grid.value.hasColumn && kw.grid.value.hasRow) {
        return Err(MissingParameterError("'column' and 'row' need to be specified in 'grid'"));
      }
      return Err(TypeError("_vectorDistGrid() got an unexpected keyword argument 'grids'"));
    }
    return Err(UnsupportedInputError(MissingEdges));
  }

  // ---- scaleDist ----

  datatype ScaleRes =
    | Plain(dist: real)
    | Detailed(dist: real, revDist: real, pathPt: seq<Point>, revPathPt: seq<Point>)

  /** The options scaleDist can answer, given the keyword arguments. */
  predicate ScaleServed(edges: string, kw: Kwargs)
  {
    edges in {"Euclidean", "LatLon", "Manhatten"} || (edges == "EuclideanBarrier" && kw.polys.Some?) ||
    (edges == "Grid" && kw.grid.Some? && kw.grid.value.hasColumn && kw.grid.value.hasRow)
  }

  /** The distance and path of each served option: the straight path for the Euclidean
      and lat/lon distances (the latter with distLatLon's own default unit), the corner
      path for the Manhattan one, and the primitive's path between polygons and on the
      grid. */
  function ScaleMeasure(pt1: Point, pt2: Point, edges: string, kw: Kwargs, metrics: Metrics): Measured
    requires ScaleServed(edges, kw)
  {
    if edges == "Euclidean" then Straight(pt1, pt2, metrics.euclid)
    else if edges == "LatLon" then Measured(metrics.latLon(pt1, pt2, None), [pt1, pt2])
    else if edges == "Manhatten" then Measured(metrics.manhattan(pt1, pt2), [pt1, Point(pt1.x, pt2.y), pt2])
    else if edges == "EuclideanBarrier" then metrics.btwPolys(pt1, pt2, kw.polys.value)
    else metrics.onGrid(pt1, pt2, kw.grid.value)
  }

  /** scaleDist: the distance between two points for the chosen option; in detail mode
      the way back has the same length and runs along the reversed path. */
  function ScaleDist(pt1: Point, pt2: Point, edges: string, detailFlag: bool, kw: Kwargs, metrics: Metrics): (r: Result<ScaleRes>)
    ensures r.Ok? <==> ScaleServed(edges, kw)
    ensures edges !in {"Euclidean", "EuclideanBarrier", "LatLon", "Manhatten", "Grid"} ==>
      r == Err(UnsupportedInputError(MissingEdges))
    ensures edges == "EuclideanBarrier" && kw.polys.None? ==> r == Err(AttributeError(NoWarning))
    ensures edges == "Grid" && kw.grid.None? ==> r == Err(MissingParameterError("'grid' is not specified"))
    ensures edges == "Grid" && kw.grid.Some? && !(kw.grid.value.hasColumn && kw.grid.value.hasRow) ==>
      r == Err(MissingParameterError("'column' and 'row' need to be specified in 'grid'"))
    ensures r.Ok? ==> (r.value.Detailed? <==> detailFlag) && r.value.dist == ScaleMeasure(pt1, pt2, edges, kw, metrics).dist
    ensures r.Ok? && detailFlag ==>
      r.value.pathPt == ScaleMeasure(pt1, pt2, edges, kw, metrics).path &&
      r.value.revDist == r.value.dist && r.value.revPathPt == Reverse(r.value.pathPt)
    ensures r.Ok? && detailFlag && edges in {"Euclidean", "LatLon", "Manhatten"} ==>
      |r.value.pathPt| >= 2 && r.value.pathPt[0] == pt1 && r.value.pathPt[|r.value.pathPt| - 1] == pt2
  {
    if ScaleServed(edges, kw) then
      var m := ScaleMeasure(pt1, pt2, edges, kw, metrics);
      if detailFlag then Ok(Detailed(m.dist, m.dist, m.path, Reverse(m.path))) else Ok(Plain(m.dist))
    else if edges == "EuclideanBarrier" then Err(AttributeError(NoWarning))
    else if edges == "Grid" then
      if kw.grid.None? then Err(MissingParameterError("'grid' is not specified"))
      else Err(MissingParameterError("'column' and 'row' need to be specified in 'grid'"))
    else Err(UnsupportedInputError(MissingEdges))
  }

  /** scaleDist as its 'EuclideanBarrier' branch evidently means it: without polys it
      warns and measures the straight Euclidean way, so every option but 'Grid' and an
      unknown one succeeds. */
  function ScaleDistIntended(pt1: Point, pt2: Point, edges: string, detailFlag: bool, kw: Kwargs, metrics: Metrics): (r: Result<ScaleRes>)
    ensures r.Ok? <==> ScaleServed(edges, kw) || edges == "EuclideanBarrier"
    ensures edges == "EuclideanBarrier" && kw.polys.None? ==>
      r.Ok? && r.value.dist == metrics.euclid(pt1, pt2) && (r.value.Detailed? <==> detailFlag) &&
      (detailFlag ==> r.value.pathPt == [pt1, pt2])
    ensures edges != "EuclideanBarrier" || kw.polys.Some? ==> r == ScaleDist(pt1, pt2, edges, detailFlag, kw, metrics)
  {
    if edges == "EuclideanBarrier" && kw.polys.None? then ScaleDist(pt1, pt2, "Euclidean", detailFlag, kw, metrics)
    else ScaleDist(pt1, pt2, edges, detailFlag, kw, metrics)
  }
}
