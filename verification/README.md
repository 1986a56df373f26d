# geoVeRoPy core, modelled in Dafny

geoVeRoPy plans vehicle routes that visit geometric regions. This project models its
core: the adaptive sample-and-refine search for a short route from a start point,
through an ordered list of regions, to an end point. The search exists in three
versions: polygons and circles (`_poly2PolyPathAdaptIter` and `_circle2CirclePathAdaptIter`
in geoVeRoPy/obj2Obj.py), and circular arcs under a time-then-distance weight
(`curveArc2CurveArcPath` in geoVeRoPy/stPath.py). Each version does four things:

1. It seeds a ring or chain of boundary samples per region.
2. It builds a layered graph 's' -> region 0 -> ... -> 'e' and memoises edge lengths in `tau`.
3. It takes a shortest path.
4. It splices midpoint samples around every waypoint, rebuilds the graph and repeats
   until the cost changes by no more than `adaptErr`.

The model proves four kinds of fact about this search:
- the search keeps the ring keys fresh and the `tau` memo true;
- every route it takes is shortest among the routes of the graph it searched that visit the regions in order, one sample each;
- the previous route survives into the next graph, so the cost never rises;
- the result has the shape [start, one sample per region, end], each sample on its polygon's edges, its circle or its arc, and reports that polyline's length.

The model also covers the library's sequential helpers:
- path simplification and the enter/leave sweeps of geoVeRoPy/polyTour.py;
- the travel tables of geoVeRoPy/travel.py and vrpSolver/geometry.py;
- the list, interval and settings helpers of geoVeRoPy/common.py;
- the triangulated time surface of geoVeRoPy/gridSurface.py;
- the visit bookkeeping around the CTPST cone programme in geoVeRoPy/ctpst.py;
- the hex colour helpers of geoVeRoPy/color.py.

Imperative code stays imperative:
- The ring, the configuration table and the triangulated surface are classes whose
  methods update their fields.
- Loops are methods with invariants, each proved against a specification function.

Distances, trigonometry and the geometric primitives of geoVeRoPy/geometry.py are
passed in as function values. geoVeRoPy/geometry.py is not part of this model.
`Geom.IsDist` states the two facts the proofs need: distances are non-negative and
symmetric. networkx's `dijkstra_path` is modelled as a dynamic programme over the
layered graph, proved to return a least-weight route among those that visit the layers in order.

| file | module |
|---|---|
| wrappers.dfy | `Wrappers`: Option, Result and the library's error classes |
| geom.dfy, sorting.dfy | points, polyline length; heap drains and stable sorting |
| rings.dfy, layered.dfy, routes.dfy | the sample ring, the layered shortest path, and what graph weights mean |
| polyadapt.dfy, circleadapt.dfy, arcadapt.dfy, curvearcs.dfy | the three adaptive searches and CurveArc |
| polytour.dfy, polytour_example.dfy, ptset.dfy, sweep.dfy, segpoly.dfy, segcircle.dfy | polyTour.py |
| vrpgeometry.dfy, travel.dfy | travel tables, orders and headings |
| common.dfy, color.dfy, gridsurface.dfy, ctpst.dfy | the remaining helpers |

## Model

| member | source | states |
|---|---|---|
| Geom.MidOfLerps | geoVeRoPy/obj2Obj.py:151-153 | the midpoint a + (b - a)/2 of two points of a segment is the point of that segment halfway between their parameters |
| Geom.PathLengthNonNeg | geoVeRoPy/obj2Obj.py:132-135 | under a distance the length of a polyline is never negative |
| Geom.PathLengthCons | geoVeRoPy/obj2Obj.py:132-135 | a polyline's length is its first leg plus the length of the rest |
| Geom.PathLengthSnoc | geoVeRoPy/obj2Obj.py:132-135 | appending a point adds exactly the last leg to the length |
| Geom.LegSum | geoVeRoPy/obj2Obj.py:552-557 | the leg-by-leg summing loop computes the polyline's length |
| Sorting.MinIndex | vrpSolver/geometry.py:488 | a least element of a non-empty heap exists and is no greater than any other |
| Sorting.PopMin | vrpSolver/geometry.py:488 | heappop yields a least element and leaves the other elements, one fewer |
| Sorting.DrainHeap | vrpSolver/geometry.py:484-490 | popping the heap until it is empty lists its contents in order: sorted and a permutation of the heap |
| Sorting.InsertBySorted | geoVeRoPy/polyTour.py:292 | inserting into a sorted sequence keeps it sorted |
| Sorting.SortBy | geoVeRoPy/polyTour.py:292 | sorted(..., key) gives a sorted permutation of its input |
| Sorting.TiesAppend | geoVeRoPy/polyTour.py:292 | the elements tied with y in a concatenation are those of the first part followed by those of the second |
| Sorting.NoTies | geoVeRoPy/polyTour.py:292 | a sequence with no element tied with y has no ties with y |
| Sorting.InsertByTiesFrom | geoVeRoPy/polyTour.py:292 | inserting x, when x is tied with y, after every tie of y already present, appends x to the ties of y and keeps their order |
| Sorting.BelowTiesTail | geoVeRoPy/polyTour.py:292 | x placed after every tie of y in a sequence is also after every tie in its tail |
| Sorting.PassTie | geoVeRoPy/polyTour.py:292 | stepping past a head no greater than x keeps the ties of y in order |
| Sorting.InsertBefore | geoVeRoPy/polyTour.py:292 | inserting x in front of a greater head keeps the ties of y in order, x last |
| Sorting.InsertByTies | geoVeRoPy/polyTour.py:292 | inserting into a sorted sequence places x after every element tied with it |
| Sorting.SortByStable | geoVeRoPy/polyTour.py:292 | sorted(..., key) is stable: the elements of any one key appear in the result in their input order |
| Sorting.HeadIsLeast | geoVeRoPy/polyTour.py:292 | the head of a sorted sequence is no greater than any of its elements |
| Sorting.SameHead | geoVeRoPy/common.py:404-408 | two sorted sequences with the same elements under an order without ties start alike |
| Sorting.SortedUnique | geoVeRoPy/common.py:404-408 | under an order without ties a sorted permutation is unique, so any two sorts of the same elements agree |
| Rings.Ring.constructor | geoVeRoPy/obj2Obj.py:89 | Ring() is an empty ring of the chosen kind with no keys handed out |
| Rings.Ring.Append | geoVeRoPy/obj2Obj.py:90-91 | append makes the new sample the tail, records its value and counts it, keeping the ring well formed |
| Rings.Ring.Insert | geoVeRoPy/obj2Obj.py:156-157 | insert(after, node) splices the new sample directly after `after`, records its value and counts it |
| Rings.Ring.Traverse | geoVeRoPy/obj2Obj.py:95-102 | following next from the head until it returns to the head visits every sample once, in ring order |
| Rings.Ring.Next | geoVeRoPy/obj2Obj.py:148-149 | next of a sample is a sample of the ring and always exists in a closed ring |
| Rings.Ring.Prev | geoVeRoPy/obj2Obj.py:148-149 | prev of a sample is a sample of the ring and always exists in a closed ring |
| Rings.WalkVisitsInOrder | geoVeRoPy/obj2Obj.py:95-102 | steps links after the head of a closed ring lands on the sample at that position, and back at the head after a full round |
| Rings.SpliceShape | geoVeRoPy/obj2Obj.py:156-157 | a splice puts the new key right after `after`, shifts the rest by one and keeps keys distinct |
| Rings.SpliceNext | geoVeRoPy/obj2Obj.py:156-157 | a splice redirects only after's next link to the new key, whose next is after's old next; every other link stays |
| Rings.Window | geoVeRoPy/stPath.py:294-305 | thisStage holds n and lies within the chain, 1 to 5 samples |
| Rings.WindowSteps | geoVeRoPy/stPath.py:294-305 | thisStage holds exactly the samples at most two links before or after n |
| Rings.WindowByLinks | geoVeRoPy/stPath.py:294-305 | thisStage is n.prev.prev and n.prev when not nil, n, then n.next and n.next.next when not nil |
| Rings.AroundNext | geoVeRoPy/stPath.py:289-290 | after insertAround(n) the chain runs n.prev, a new key, n, a second new key, old n.next; new keys appear only where a neighbour exists and all other links stay |
| LayeredGraph.RouteInLayers | geoVeRoPy/obj2Obj.py:94-130 | every waypoint of a route is one of its layer's candidate keys |
| LayeredGraph.RouteWhole | geoVeRoPy/stPath.py:267-269 | a route weighs its prefix plus its edge into 'e' |
| LayeredGraph.SumRoute | geoVeRoPy/stPath.py:267-269 | summing an edge attribute from 's' to 'e' along the route gives the route's weight |
| LayeredGraph.AsNodes | geoVeRoPy/obj2Obj.py:130-135 | the route as a node list: 's', then (layer i, key i) for each layer, then 'e' |
| LayeredGraph.RelaxFrom | geoVeRoPy/obj2Obj.py:130 | relaxing the edges out of one key never worsens an entry and makes each reached key at most as costly as through that key |
| LayeredGraph.Relax | geoVeRoPy/obj2Obj.py:130 | one layer of the programme keeps a cheapest prefix for every reachable key |
| LayeredGraph.ShortestRoute | geoVeRoPy/obj2Obj.py:130 | the returned route is of least weight among the layer-monotone s..e routes (one node per layer, in layer order), and there is none exactly when no such route exists |
| Routes.FaithfulGrows | geoVeRoPy/obj2Obj.py:141-157 | memoised edge lengths stay true when samples are only added |
| Routes.PrefixLength | geoVeRoPy/obj2Obj.py:130-135 | in a faithful graph a route prefix weighs the length of its polyline |
| Routes.RouteLength | geoVeRoPy/obj2Obj.py:130-135 | in a faithful graph a route weighs exactly the length of the polyline returned for it |
| Routes.CompleteRoute | geoVeRoPy/obj2Obj.py:94-128 | the first graph, with an edge between every pair of samples of adjacent layers, has a route through any choice of samples |
| Routes.WaypointsGrow | geoVeRoPy/obj2Obj.py:141-157 | a key choice picks the same points after samples are added |
| PolyAdapt.SeedRing | geoVeRoPy/obj2Obj.py:89-91 | a fresh closed ring holding vertex x of the polygon under key x, for every x; count is the number of vertices; each sample and the next one lie on one edge of the polygon |
| PolyAdapt.SeedRings | geoVeRoPy/obj2Obj.py:88-92 | one fresh, separate ring per polygon; key j of region i holds vertex j of polygon i, and consecutive samples of every ring lie on one edge of its polygon |
| PolyAdapt.RefineAt | geoVeRoPy/obj2Obj.py:147-157 | two new samples keyed count and count+1: the midpoint of (p.prev, p) spliced after p.prev, the midpoint of (p, p.next) spliced after p; every old key keeps its value |
| PolyAdapt.RefineRing | geoVeRoPy/obj2Obj.py:147-157 | refining one ring around p keeps it sound, keeps every old sample and keeps consecutive samples on one polygon edge |
| PolyAdapt.MidOnEdge | geoVeRoPy/obj2Obj.py:151-154 | when u and v lie on one polygon edge, so does the midpoint with each of them |
| PolyAdapt.PrevThenNext | geoVeRoPy/obj2Obj.py:148-149 | in a ring, p.prev.next is p |
| PolyAdapt.VertexPair | geoVeRoPy/obj2Obj.py:88-91 | each vertex and the next one, cyclically, lie on one edge of the polygon |
| PolyAdapt.SeedPair | geoVeRoPy/obj2Obj.py:88-91 | in the seeded ring each key's sample and its successor's lie on one polygon edge |
| PolyAdapt.SeedEdges | geoVeRoPy/obj2Obj.py:88-91 | the seeded ring links every sample to the next along a polygon edge |
| PolyAdapt.RefineNext | geoVeRoPy/obj2Obj.py:156-157 | after the two inserts, p.prev is followed by pPrevMid, pPrevMid by p, p by pNextMid and pNextMid by the old p.next; every other successor is unchanged |
| PolyAdapt.RefinePair | geoVeRoPy/obj2Obj.py:151-157 | after the inserts each key's sample and its successor's still lie on one polygon edge |
| PolyAdapt.RefineEdges | geoVeRoPy/obj2Obj.py:151-157 | the two midpoint inserts keep every consecutive pair of samples on one polygon edge |
| PolyAdapt.LinkedOnEdges | geoVeRoPy/obj2Obj.py:151-157 | a ring whose consecutive samples share a polygon edge has every sample on the polygon's boundary |
| PolyAdapt.SamplesOnEdges | geoVeRoPy/obj2Obj.py:209-213 | every sample of every ring, and so every point of the returned path between its ends, lies on an edge of its polygon |
| PolyAdapt.RefineAll | geoVeRoPy/obj2Obj.py:141-157 | refining around every waypoint keeps every ring sound, every old sample unchanged and consecutive samples on one edge of their polygon |
| PolyAdapt.Near5 | geoVeRoPy/obj2Obj.py:164 | the neighbourhood [p.prev.prev, p.prev, p, p.next, p.next.next] has five entries, p in the middle, all in the ring |
| PolyAdapt.NearOf | geoVeRoPy/obj2Obj.py:176-179 | the five keys read off the ring's links are Near5 of its key order |
| PolyAdapt.Neighbourhoods | geoVeRoPy/obj2Obj.py:163-192 | every waypoint of the previous route lies in its own neighbourhood, and every listed key is a sample |
| PolyAdapt.NearRoute | geoVeRoPy/obj2Obj.py:163-195 | the previous route is a route of any graph holding the neighbourhood edges |
| PolyAdapt.InitStartFan | geoVeRoPy/obj2Obj.py:94-102 | 's' is joined to every sample of region 0 with its true length, and the memo holds the same entries |
| PolyAdapt.InitPairBlock | geoVeRoPy/obj2Obj.py:105-118 | every sample of region i is joined to every sample of region i+1 with its true length, recorded in the memo too |
| PolyAdapt.InitEndFan | geoVeRoPy/obj2Obj.py:120-128 | every sample of the last region is joined to 'e' with its true length |
| PolyAdapt.InitialGraph | geoVeRoPy/obj2Obj.py:94-128 | the first graph holds exactly the layered edges among all samples, each carrying its true length, and the memo equals it |
| PolyAdapt.NearStartFan | geoVeRoPy/obj2Obj.py:162-167 | 's' is joined to the five samples around the first waypoint with their true lengths |
| PolyAdapt.NearPairBlock | geoVeRoPy/obj2Obj.py:169-188 | every pair of neighbourhood samples of regions i and i+1 is joined; the weight is read from the memo when present and otherwise computed and stored, so no memo entry is overwritten |
| PolyAdapt.NearEndFan | geoVeRoPy/obj2Obj.py:190-195 | the five samples around the last waypoint are joined to 'e' with their true lengths |
| PolyAdapt.RebuildGraph | geoVeRoPy/obj2Obj.py:159-195 | the rebuilt graph holds exactly the edges among the neighbourhoods, all with true lengths; the memo only grows and covers every middle edge |
| PolyAdapt.RouteDist | geoVeRoPy/obj2Obj.py:132-135 | start leg plus memoised middle legs plus end leg is the route's graph weight and the length of the returned polyline |
| PolyAdapt.LegsDist | geoVeRoPy/obj2Obj.py:132-134 | the start leg plus the memoised middle legs is the weight of the route's prefix |
| PolyAdapt.LegStep | geoVeRoPy/obj2Obj.py:133-134 | each memoised leg is an edge of the route and adds its weight to the prefix |
| PolyAdapt.SearchAll | geoVeRoPy/obj2Obj.py:94-130 | the first shortest route is no heavier than any choice of one sample per region |
| PolyAdapt.SearchWithin | geoVeRoPy/obj2Obj.py:159-197 | the later shortest route is no heavier than any choice within the neighbourhoods, and the memo only grows |
| PolyAdapt.FirstRoute | geoVeRoPy/obj2Obj.py:88-135 | the first route's length is the shortest over all choices of one vertex per polygon |
| PolyAdapt.BestOverVertices | geoVeRoPy/obj2Obj.py:94-130 | a route shortest among all key choices is shortest among all vertex choices |
| PolyAdapt.NextRoute | geoVeRoPy/obj2Obj.py:159-202 | a later route is shortest within the neighbourhoods and never longer than the previous route |
| PolyAdapt.NearSearch | geoVeRoPy/obj2Obj.py:159-202 | the search over the neighbourhoods returns a route within them that is no longer than the previous one or any other choice within them, with its length and a memo that only grows |
| PolyAdapt.BuildPath | geoVeRoPy/obj2Obj.py:209-213 | path is startPt, the sample of each waypoint in region order, endPt |
| PolyAdapt.RefineRings | geoVeRoPy/obj2Obj.py:141-157 | after refinement the rings' samples extend the previous samples, and consecutive samples still lie on one edge of their polygon |
| PolyAdapt.AdaptStep | geoVeRoPy/obj2Obj.py:141-207 | one pass keeps the loop state and the samples on their polygons' edges, only adds samples and memo entries, never lengthens the route, and the new route is no longer than any choice within the neighbourhoods, which hold both the previous and the new route |
| PolyAdapt.Seed | geoVeRoPy/obj2Obj.py:82-135 | the loop starts with the best vertex route and its length, each ring pairing consecutive vertices on one polygon edge |
| PolyAdapt.CostsStep | geoVeRoPy/obj2Obj.py:204-207 | recording a new cost keeps the cost trail non-increasing, and the loop continues exactly when the change exceeds adaptErr |
| PolyAdapt.RefineLoop | geoVeRoPy/obj2Obj.py:138-207 | the loop ends exactly when the last change is at most adaptErr; every earlier pass shortened the route by more than adaptErr; the final dist is the final polyline's length and is no longer than any choice within the last neighbourhoods |
| PolyAdapt.Poly2PolyPathAdaptIter | geoVeRoPy/obj2Obj.py:67-218 | path is startPt, the sample of the chosen key of each ring in order, endPt; every sample lies on an edge of its polygon; dist is the path's length and no choice within the last neighbourhoods is shorter; the first cost is the best vertex route, costs never rise, and the last change is at most adaptErr |
| PolyAdapt.Orders | geoVeRoPy/obj2Obj.py:94-128 | walking each ring from its head, as the edge loops do, lists exactly that ring's keys in ring order |
| CircleAdapt.SeedDegRange | geoVeRoPy/obj2Obj.py:436 | the seed degree i*360/initLod of every seed sample i < initLod lies in [0, 360) |
| CircleAdapt.SeedCircleRing | geoVeRoPy/obj2Obj.py:434-440 | a fresh closed ring of initLod samples; key i sits at degree i*360/initLod and its point is the circle's point at that degree |
| CircleAdapt.SeedCircleRings | geoVeRoPy/obj2Obj.py:433-441 | one fresh ring per circle, each seeded as above and lying on its own circle |
| CircleAdapt.PrevMidHalves | geoVeRoPy/obj2Obj.py:513-518 | with p.prev's degree unwrapped first, the new previous-side degree lies in [0, 360) and halfway along the arc from p.prev to p |
| CircleAdapt.NextMidHalves | geoVeRoPy/obj2Obj.py:514-520 | with p.next's degree unwrapped first, the new next-side degree lies in [0, 360] and halfway along the arc from p to p.next |
| CircleAdapt.AsWrittenOffSeam | geoVeRoPy/obj2Obj.py:515-520 | away from the 0-degree seam the midpoints as written equal the intended ones |
| CircleAdapt.SeamMidpoints | geoVeRoPy/obj2Obj.py:515-520 | at the seam (p.prev at 270, p at 0) the written formula gives 135, on the far side of the circle, instead of 315 |
| CircleAdapt.MidDegsInRange | geoVeRoPy/obj2Obj.py:512-520 | for degrees in [0, 360] both the plain means the source computes and the unwrapped midpoints stay in [0, 360] |
| CircleAdapt.InsertPair | geoVeRoPy/obj2Obj.py:525-529 | pNextMid is spliced after p with key count+1 and pPrevMid after p.prev with key count; nothing else changes |
| CircleAdapt.RefineCircleAt | geoVeRoPy/obj2Obj.py:502-529 | the two new samples, keyed count and count+1, sit at the plain means of the degrees of (p.prev, p) and (p, p.next), as written, and on the circle; they are spliced after p.prev and after p; every old sample is kept |
| CircleAdapt.RefineCircles | geoVeRoPy/obj2Obj.py:496-529 | refining around every waypoint keeps every ring on its circle and every old sample unchanged |
| CircleAdapt.RingOrders | geoVeRoPy/obj2Obj.py:532-545 | traversing each ring from its head lists exactly its samples |
| CircleAdapt.CircleRoutePoints | geoVeRoPy/obj2Obj.py:566-570 | path is startPt, the point of each waypoint's sample, endPt |
| CircleAdapt.MissingStartFan | geoVeRoPy/obj2Obj.py:532-535 | 's' gets an edge to every sample of circle 0 it lacks; edges already present are kept as they are |
| CircleAdapt.MissingPairBlock | geoVeRoPy/obj2Obj.py:537-544 | every missing edge between samples of consecutive circles is added with its true length; present edges are kept |
| CircleAdapt.MissingEndFan | geoVeRoPy/obj2Obj.py:545-548 | every sample of the last circle gets its missing edge to 'e' |
| CircleAdapt.AddMissing | geoVeRoPy/obj2Obj.py:531-548 | afterwards the graph holds exactly the layered edges among all current samples, all with true lengths, and no old edge changed |
| CircleAdapt.ListsAreSamples | geoVeRoPy/obj2Obj.py:531-548 | with the key lists matching the samples, edges among the lists are exactly the live edges |
| CircleAdapt.CircleSearch | geoVeRoPy/obj2Obj.py:550 | the route is shortest over every choice of one current sample per circle |
| CircleAdapt.MeasureRoute | geoVeRoPy/obj2Obj.py:552-557 | start leg plus the legs between waypoints plus end leg is the route polyline's length |
| CircleAdapt.SearchAndMeasure | geoVeRoPy/obj2Obj.py:550-557 | the new route is never longer than the previous one measured over the same samples |
| CircleAdapt.RefineAndConnect | geoVeRoPy/obj2Obj.py:496-548 | after refining and adding edges the samples only grew and the graph is complete over them |
| CircleAdapt.CircleStep | geoVeRoPy/obj2Obj.py:496-562 | one pass keeps the loop state, only adds samples and edges, and never lengthens the route |
| CircleAdapt.SeedAndConnect | geoVeRoPy/obj2Obj.py:429-474 | seeded rings and the first graph, complete over every seeded sample with true lengths |
| CircleAdapt.CircleSeed | geoVeRoPy/obj2Obj.py:429-485 | the loop starts with a shortest route over the seeded samples and its length |
| CircleAdapt.CircleLoop | geoVeRoPy/obj2Obj.py:490-564 | the loop ends exactly when the last change is at most adaptErr; costs never rise; the final route is shortest over all current samples |
| CircleAdapt.Circle2CirclePathAdaptIter | geoVeRoPy/obj2Obj.py:421-576 | every sample lies on its circle, the seeds at i*360/initLod; path runs start, one sample per circle, end; dist is its length and no choice of samples is shorter |
| CircleAdapt.RefineAndSample | geoVeRoPy/obj2Obj.py:496-529 | after the refinement every ring stays on its circle and the sample points read back only grow |
| ArcAdapt.ScaleM | geoVeRoPy/stPath.py:205-211 | M is 1.2 times the largest centre distance plus both radii over pairs i < j (0 when no span is positive), so M >= 0, and M = 0 for a single arc |
| ArcAdapt.MinTimes | geoVeRoPy/stPath.py:200-201 | a given atLeastTimeBtw is used as is; a missing one becomes len(curveArcs)+1 zeros |
| ArcAdapt.LegInRange | geoVeRoPy/stPath.py:220 | the minimum-time entry an edge reads (0 out of 's', i+1 from arc i, the last into 'e') exists |
| ArcAdapt.AttributedPrefix | geoVeRoPy/stPath.py:267-269 | in a graph whose weight and time attributes are max(d/speed, atLeastTimeBtw[leg])*M + d and max(d/speed, atLeastTimeBtw[leg]), a route prefix's weight and time are the sums of those per-edge values |
| ArcAdapt.AttributedRoute | geoVeRoPy/stPath.py:267-269 | the same for a whole route: its summed time attribute is the route's time |
| ArcAdapt.RouteCostGrows | geoVeRoPy/stPath.py:289-290 | adding samples does not change the time or weight of a route over the old ones |
| ArcAdapt.Memo | geoVeRoPy/stPath.py:214-219 | a present tau entry is read back unchanged; a missing one is computed once, stored, and nothing else is added |
| ArcAdapt.AddEdge | geoVeRoPy/stPath.py:220 | the added edge carries weight time*M + d and time max(d/speed, atLeastTimeBtw[leg]); no other edge changes |
| ArcAdapt.Offer | geoVeRoPy/stPath.py:232-240 | a candidate edge goes through the memo and is added exactly when it is kept (arc-to-arc edges of the first graph only when d > 0.005) |
| ArcAdapt.StartFan | geoVeRoPy/stPath.py:212-224 | 's' is joined to every listed sample of the first arc, never filtered |
| ArcAdapt.PairRow | geoVeRoPy/stPath.py:230-244 | one sample of arc i is joined to every kept sample of arc i+1 |
| ArcAdapt.PairBlock | geoVeRoPy/stPath.py:227-247 | every kept pair between arc i and arc i+1 is joined |
| ArcAdapt.EndFan | geoVeRoPy/stPath.py:249-262 | every listed sample of the last arc is joined to 'e', never filtered |
| ArcAdapt.BuildGraph | geoVeRoPy/stPath.py:212-262 | the graph holds exactly the kept edges, each with its weight and time attributes; tau only grows and stays true |
| ArcAdapt.KeptLeg | geoVeRoPy/stPath.py:239-240 | in the first graph an arc-to-arc edge exists exactly when its length exceeds 0.005 |
| ArcAdapt.ClearPrefixOk | geoVeRoPy/stPath.py:212-262 | the route prefixes of the first graph are exactly the sample choices whose arc-to-arc legs all exceed 0.005 |
| ArcAdapt.ClearIsRoute | geoVeRoPy/stPath.py:212-264 | the routes of the first graph are exactly the clear choices |
| ArcAdapt.FirstSearch | geoVeRoPy/stPath.py:212-269 | no path exactly when no clear layer-monotone choice exists; otherwise the route's weight is least among clear choices and its time is its summed time |
| ArcAdapt.StageAround | geoVeRoPy/stPath.py:292-305 | thisStage lists n.prev.prev and n.prev when non-nil, n, n.next and n.next.next when non-nil: the chain window of n, 1 to 5 entries |
| ArcAdapt.InsertAround | geoVeRoPy/stPath.py:289-290 | one new sample is placed between n.prev and n (when n.prev exists) and one between n and n.next (when n.next exists), with fresh keys; old samples keep their values |
| ArcAdapt.RefineArcAt | geoVeRoPy/stPath.py:289-305 | after insertAround(n), the stage is the window of the new chain around n |
| ArcAdapt.StageAll | geoVeRoPy/stPath.py:284-305 | one stage per waypoint, each the window around that waypoint; old samples unchanged |
| ArcAdapt.RefineAndStage | geoVeRoPy/stPath.py:278-305 | samples only grow; every waypoint is in its own stage |
| ArcAdapt.SearchStage | geoVeRoPy/stPath.py:307-343 | the rebuilt graph over the stages has no filter; its route is least in weight among choices within the stages, and its summed time is newTime |
| ArcAdapt.ArcStep | geoVeRoPy/stPath.py:278-349 | one pass only adds samples and memo entries and never raises the route's weight |
| ArcAdapt.TimesStep | geoVeRoPy/stPath.py:345-348 | the loop continues exactly when the time changed by more than adaptErr |
| ArcAdapt.WeightsStep | geoVeRoPy/stPath.py:340 | recording a weight no larger than the last keeps the weights non-increasing |
| ArcAdapt.TrailsStep | geoVeRoPy/stPath.py:340-349 | the time and weight records after one more search |
| ArcAdapt.ArcPass | geoVeRoPy/stPath.py:274-349 | one pass and the stop test: continues exactly when abs(newTime - time) > adaptErr |
| ArcAdapt.ArcLoop | geoVeRoPy/stPath.py:272-349 | when the loop stops, the last time change was at most adaptErr and the route is least in weight among choices within the last stages |
| ArcAdapt.Collect | geoVeRoPy/stPath.py:352-359 | path is startPt, one sample per arc, endPt, and dist is the sum of consecutive distances along it |
| ArcAdapt.ArcSeed | geoVeRoPy/stPath.py:196-269 | M, the minimum leg times and the first search as above |
| ArcAdapt.CurveArc2CurveArcPath | geoVeRoPy/stPath.py:192-370 | no path exactly when no clear layer-monotone choice of samples exists; otherwise the path runs through one sample per arc, dist is its length, time its summed edge time, the weight never rose, and the last time change is at most adaptErr |
| CurveArcs.ArcNode.Nil | geoVeRoPy/curveArc.py:18-24 | a nil node: isNil is true and it has no links |
| CurveArcs.ArcNode.constructor | geoVeRoPy/curveArc.py:6-16 | a sample node: isNil is false, key, loc and deg as given, and each missing link becomes a new nil node |
| CurveArcs.EffectiveLod | geoVeRoPy/curveArc.py:35-36 | a lod below 2 is raised to 2; otherwise it is kept |
| CurveArcs.SampleDegEnds | geoVeRoPy/curveArc.py:40-41 | the first sample is at startDeg and the last at endDeg |
| CurveArcs.SampleDegMonotone | geoVeRoPy/curveArc.py:40-41 | for startDeg <= endDeg the sample degrees never decrease and stay within [startDeg, endDeg] |
| CurveArcs.MakeNodes | geoVeRoPy/curveArc.py:39-48 | lod+1 fresh distinct nodes, node i keyed i at degree startDeg + i*(endDeg-startDeg)/lod, at the point for that degree, with nil links |
| CurveArcs.LinkNext | geoVeRoPy/curveArc.py:50-51 | node i's next becomes node i+1; the last next and every prev are unchanged |
| CurveArcs.LinkPrev | geoVeRoPy/curveArc.py:52-53 | node i's prev becomes node i-1; the first prev and every next are unchanged |
| CurveArcs.CurveArc.constructor | geoVeRoPy/curveArc.py:27-56 | lod raised to at least 2; lod+1 nodes keyed 0..lod, linked both ways, head node 0, tail node lod, nil nodes before head and after tail, sampled evenly from startDeg to endDeg |
| CurveArcs.CurveArc.FollowFromHead | geoVeRoPy/curveArc.py:50-55 | following next k times from the head reaches node k |
| CurveArcs.CurveArc.HeadReachesTail | geoVeRoPy/curveArc.py:55-56 | the tail is reached after exactly lod links, not before, and its next is a nil node |
| CurveArcs.CurveArc.Traverse | geoVeRoPy/stPath.py:212-224 | walking from the head until a nil node lists keys 0..lod with their degrees and points |
| CurveArcs.SelectDegreesRange | geoVeRoPy/curveArc.py:136-152 | with headings in [0, 360): start < end <= start + 360; clockwise starts at the first heading, otherwise at the last; the other end is the other heading, plus 360 when it is not larger |
| CurveArcs.IntCurveArc2Circle | geoVeRoPy/curveArc.py:76-158 | None exactly when the intersection is empty; otherwise a new arc on the same circle, clockwise iff at least two of dir1, dir2, dir3 hold, with the selected degrees and lod 6 |
| PolyTour.Range | geoVeRoPy/polyTour.py:107 | the indices 0 to n-1 in order |
| PolyTour.AggFrom | geoVeRoPy/polyTour.py:60-79 | after reading points 0..i-1, the open group is non-empty and holds only indices below i |
| PolyTour.GroupedJoin | geoVeRoPy/polyTour.py:68-73 | an index that coincides with a point of the open group joins it: the groups stay consecutive runs and the flattened groups grow by that index |
| PolyTour.GroupedSplit | geoVeRoPy/polyTour.py:75-79 | any other index closes the open group and starts a new one: the groups stay consecutive runs and the flattened groups grow by that index |
| PolyTour.JoinOrdered | geoVeRoPy/polyTour.py:68-73 | joining the open group keeps every index below the next and the groups' first indices increasing |
| PolyTour.SplitOrdered | geoVeRoPy/polyTour.py:75-79 | opening a group keeps every index below the next and the groups' first indices increasing |
| PolyTour.AggFromGrouped | geoVeRoPy/polyTour.py:59-81 | the groups read so far are consecutive runs of coinciding points that, flattened, list 0..i-1 exactly once and in order |
| PolyTour.Groups | geoVeRoPy/polyTour.py:59-81 | aggNodeList is non-empty, each group is a run of coinciding points, the first indices increase, and the groups flattened are exactly 0..len(path)-1 |
| PolyTour.RemovedFlags | geoVeRoPy/polyTour.py:84-103 | removedFlag has one entry per group (two when there is one group), the first and last are False, and only middle groups can be removed |
| PolyTour.KeptLeads | geoVeRoPy/polyTour.py:106-112 | the first indices of the kept groups are strictly increasing, bounded by the last group read, and start with group 0's when it is kept |
| PolyTour.KeptPathIsSubsequence | geoVeRoPy/polyTour.py:106-112 | newPath is the path read at strictly increasing indices, one per kept group, namely each kept group's first point |
| PolyTour.KeptPathStart | geoVeRoPy/polyTour.py:85-112 | the first group is never removed, so newPath is non-empty and starts at path[0] |
| PolyTour.PrevKept | geoVeRoPy/polyTour.py:120-125 | pathPre[i] is the nearest kept index at or before i: it is kept and everything strictly between is removed |
| PolyTour.NextKept | geoVeRoPy/polyTour.py:126-130 | pathSuc[i] is the nearest kept index at or after i: it is kept and everything before it from i on is removed |
| PolyTour.NextKeptBelow | geoVeRoPy/polyTour.py:103-130 | since the last flag is False, the next kept index never runs past the groups |
| PolyTour.GroupsWell | geoVeRoPy/polyTour.py:59-81 | aggNodeList is a well-formed grouping: non-empty groups of in-range indices |
| PolyTour.DegenStart | geoVeRoPy/polyTour.py:8-155 | the reduced path of a non-empty path is non-empty and starts where the path starts |
| PolyTour.LocatedMeaning | geoVeRoPy/polyTour.py:132-147 | locatedSeg[i] is None exactly for a kept group; for a removed group it is the segment between the first points of the nearest kept groups on either side |
| PolyTour.FindSame | geoVeRoPy/polyTour.py:66-73 | the inner search finds a match exactly when some point of the open group coincides with the new point |
| PolyTour.AggregatePoints | geoVeRoPy/polyTour.py:59-81 | the loop builds aggNodeList, which equals the grouping Groups (and so has all its properties) |
| PolyTour.FlagTurns | geoVeRoPy/polyTour.py:84-103 | the loop builds removedFlag, equal to RemovedFlags: False at both ends, and for each middle group the turning-point test on its neighbours |
| PolyTour.KeepTurns | geoVeRoPy/polyTour.py:106-112 | the loop builds newPath, equal to KeptPath, the subsequence of first points of kept groups |
| PolyTour.NearestKept | geoVeRoPy/polyTour.py:117-130 | pathPre and pathSuc, filled from the front and from the back, hold the nearest kept index on each side of every group |
| PolyTour.LocateSegs | geoVeRoPy/polyTour.py:132-147 | the loop builds locatedSeg, equal to LocatedSegs |
| PolyTour.PathRemoveDegen | geoVeRoPy/polyTour.py:8-155 | an empty path fails with IndexError (path[0]); any other path yields the newPath, aggNodeList, removedFlag and locatedSeg of DegenOf |
| PolyTourExample.ExampleGroups | geoVeRoPy/polyTour.py:37-42 | for the documented example, aggNodeList is [[0], [1, 2], [3], [4], [5], [6], [7], [8]] |
| PolyTourExample.ExampleFlags | geoVeRoPy/polyTour.py:37-43 | for the documented example, removedFlag is [False, True, True, False, False, False, True, False] |
| PolyTourExample.ExampleKept | geoVeRoPy/polyTour.py:37-41 | for the documented example, newPath keeps the first points of groups 0, 3, 4, 5 and 7 |
| PolyTourExample.ExampleLocatedSegs | geoVeRoPy/polyTour.py:37-51 | for the documented example, locatedSeg names the segment each removed group lies on |
| PolyTourExample.PathRemoveDegenExample | geoVeRoPy/polyTour.py:34-53 | the documented example's whole result, as the docstring gives it |
| PolyTourExample.ExampleRemoval | geoVeRoPy/polyTour.py:37-43 | for the documented example, the turning-point test on each middle lead point and its neighbours gives the documented flag |
| PolyTourActions.PartActions | geoVeRoPy/polyTour.py:204-288 | one intersection part yields at most two actions, all carrying the polygon id and the mileage of their point: none for NoCross, one touch for a crossing point, and for a crossing segment a touch when its ends are within the point tolerance, otherwise an enter at the nearer end and/or a leave at the farther end, each only at an end outside the polygon's interior |
| PolyTourActions.PartsActions | geoVeRoPy/polyTour.py:197-204 | the actions of all parts of one intersection carry the polygon id and the mileage of their point |
| PolyTourActions.LegActions | geoVeRoPy/polyTour.py:192-288 | the actions of one leg against every polygon carry the id of one of the polygons and the mileage of their point |
| PolyTourActions.MileageStep | geoVeRoPy/polyTour.py:184-290 | the accumulated mileage grows by each leg's length |
| PolyTourActions.PathActionsOnLegs | geoVeRoPy/polyTour.py:183-290 | every action names one of the polygons and carries the mileage of a point on one of the legs: the mileage at that leg's start plus the point's distance from it |
| PolyTourActions.ByMileageOrders | geoVeRoPy/polyTour.py:292 | comparison by mileage is a total preorder, so sorting by it is well defined |
| PolyTourActions.ScanParts | geoVeRoPy/polyTour.py:197-288 | the loop over the parts of one intersection builds exactly their actions, in order |
| PolyTourActions.ScanLeg | geoVeRoPy/polyTour.py:192-288 | the loop over the polygons builds exactly the leg's actions, in dictionary order |
| PolyTourActions.ScanPath | geoVeRoPy/polyTour.py:183-290 | the loop over the legs, with the mileage accumulated leg by leg, builds exactly the path's actions |
| PolyTourActions.PtSetPath2Poly | geoVeRoPy/polyTour.py:156-294 | a missing polygon table raises MissingParameterError; an empty path to be reduced raises IndexError; otherwise the result is the actions of the (possibly reduced) path, sorted by mileage and a permutation of the unsorted actions |
| PolyTourSweep.EventLeOrders | geoVeRoPy/polyTour.py:388 | Python's tuple order on (mileage, id, point, kind) events is a total preorder |
| PolyTourSweep.EventLeAntisymmetric | geoVeRoPy/polyTour.py:388 | that order never ties two different events, so the sorted list is unique |
| PolyTourSweep.LegEvents | geoVeRoPy/polyTour.py:357-389 | a leg's event list is the start event and the crossing events, sorted, followed by the end event: two more entries than the crossings, a permutation of them before the end |
| PolyTourSweep.LegEventsStart | geoVeRoPy/polyTour.py:361-388 | the list begins with the start event exactly when no crossing event sorts below it |
| PolyTourSweep.LegEventsStartFirst | geoVeRoPy/polyTour.py:361-388 | the start event comes first when every crossing lies at or after the leg's start mileage |
| PolyTourSweep.SegEvents | geoVeRoPy/polyTour.py:370-380 | a crossing segment yields an enter event at the nearer end and a leave event at the farther end, both carrying the region id, offset by the leg's start mileage |
| PolyTourSweep.FirstIndex | geoVeRoPy/polyTour.py:422 | the index of the first occurrence of x in a list holding x |
| PolyTourSweep.RemoveFirstCounts | geoVeRoPy/polyTour.py:422 | list.remove drops exactly one occurrence: the length falls by one and the multiset loses one x |
| PolyTourSweep.SweepInside | geoVeRoPy/polyTour.py:393-422 | the sweep fails exactly when a leave event finds its region missing from the inside list (list.remove's ValueError), and the inside list it carries is the enter/leave fold of the events so far |
| PolyTourSweep.SweepChained | geoVeRoPy/polyTour.py:396-416 | the spans chain: the first starts at the leg's start, each next one where the previous ended, each longer than the tolerance, and the current point is where the last span ended |
| PolyTourSweep.ChainGrows | geoVeRoPy/polyTour.py:407-416 | closing a span that starts where the chain ends and is longer than the tolerance extends the chain |
| PolyTourSweep.SweepReachesEnd | geoVeRoPy/polyTour.py:389-416 | a leg's spans cover it: they chain from the start and the last ends at the end event or within the tolerance of its mileage |
| PolyTourSweep.SweepBelong | geoVeRoPy/polyTour.py:407-422 | every span ends at one of the events and belongs to exactly the regions the path is inside just before that event |
| PolyTourSweep.SweepErrSticks | geoVeRoPy/polyTour.py:401-422 | once a leave event has failed, the sweep's later state is that same error |
| PolyTourSweep.SweepLeg | geoVeRoPy/polyTour.py:394-422 | the loop over one leg's events computes the leg's spans, or the error, of LegSpans |
| PolyTourSweep.SpanPieces | geoVeRoPy/polyTour.py:408-414 | each span becomes one Segment entry with its points, regions, mileages and leg index |
| PolyTourSweep.RestoreLegs | geoVeRoPy/polyTour.py:392-424 | the result is the legs' pieces one after another (each leg's point piece, then its spans), and it fails exactly when some leg's sweep fails |
| PolyTourSweep.Restore | geoVeRoPy/polyTour.py:392-424 | the loop over the legs computes RestoreUpTo over all legs |
| PolyTourSweep.RestoreErrSticks | geoVeRoPy/polyTour.py:392-424 | the first failing leg's error is the result's error |
| PolyTourSegPoly.TurnFound | geoVeRoPy/polyTour.py:463-471 | the found flag is raised exactly when some polygon's boundary is within the tolerance, and exactly then is the touching list non-empty |
| PolyTourSegPoly.TurnTans | geoVeRoPy/polyTour.py:469-470 | tansPolys holds exactly the polygons whose boundary is within the tolerance of the point |
| PolyTourSegPoly.TurnIner | geoVeRoPy/polyTour.py:469-474 | inerPolys holds exactly the polygons whose boundary is within the tolerance or that contain the point |
| PolyTourSegPoly.TurnClosest | geoVeRoPy/polyTour.py:460-468 | closestIdx is None only with no polygons; otherwise it is the first polygon at the least boundary distance, and closestDist is that distance |
| PolyTourSegPoly.TurnPointMeaning | geoVeRoPy/polyTour.py:454-483 | a turning point's touching list is never empty: with a polygon within the tolerance it lists those polygons, else the first closest polygon alone, which is then added to the containing list (None for both when there are no polygons) |
| PolyTourSegPoly.TurnPoint | geoVeRoPy/polyTour.py:456-483 | the loop over the polygons computes one point's touching and containing lists |
| PolyTourSegPoly.TurnPoints | geoVeRoPy/polyTour.py:454-483 | Step 0 yields one turning point entry per path point |
| PolyTourSegPoly.PartEvents | geoVeRoPy/polyTour.py:516-554 | a part of an intersection yields enter, leave or touch events carrying the polygon id, never before the leg's start; a touch inside a list of parts is never at the leg's ends |
| PolyTourSegPoly.PartsEvents | geoVeRoPy/polyTour.py:516-536 | the events of a list of parts carry the polygon id, never before the leg's start |
| PolyTourSegPoly.RawEvents | geoVeRoPy/polyTour.py:513-554 | every crossing event of a leg names one of the polygons, lies at or after the leg's start mileage and is an enter, a leave or a touch |
| PolyTourSegPoly.PlansOf | geoVeRoPy/polyTour.py:486-558 | Steps 1 and 2 prepare one plan per leg |
| PolyTourSegPoly.ManyRaw | geoVeRoPy/polyTour.py:516-536 | the loop over a list of parts computes their events |
| PolyTourSegPoly.LegRaw | geoVeRoPy/polyTour.py:513-554 | the loop over the polygons computes the leg's unsorted events |
| PolyTourSegPoly.PlanLeg | geoVeRoPy/polyTour.py:489-558 | one leg's plan: its start mileage, its point piece and its sorted events ending with the end event |
| PolyTourSegPoly.PlanLegs | geoVeRoPy/polyTour.py:486-558 | the loop over the legs, with the mileage accumulated, computes every leg's plan |
| PolyTourSegPoly.SegSetPath2Poly | geoVeRoPy/polyTour.py:426-592 | an empty path to be reduced raises IndexError; otherwise the result is the sweep of the (possibly reduced) path's legs |
| PolyTourSegPoly.LegShape | geoVeRoPy/polyTour.py:495-590 | every leg of the result begins with a point piece at its start point and mileage and its spans chain from there to the leg's end, up to the tolerance |
| PolyTourSegPoly.LegStartsFirst | geoVeRoPy/polyTour.py:511-557 | with a true distance and non-negative polygon ids, every leg's sorted events begin with its start event |
| PolyTourSegCircle.CircleTurnMeaning | geoVeRoPy/polyTour.py:314-321 | a point's tangCircle lists exactly the circles whose rim it lies on, within the tolerance, and inerCircle exactly those it lies on or inside |
| PolyTourSegCircle.CircleTurnPoint | geoVeRoPy/polyTour.py:311-326 | the loop over the circles computes one interior point's lists |
| PolyTourSegCircle.CircleTurnPoints | geoVeRoPy/polyTour.py:303-331 | Step 0 yields one entry per path point; the two end points are on and in no circle |
| PolyTourSegCircle.CircleEvents | geoVeRoPy/polyTour.py:363-385 | a leg yields enter, leave or touch events carrying the circle id; a leg whose ends coincide touches each circle once at its start |
| PolyTourSegCircle.CircleRaw | geoVeRoPy/polyTour.py:363-385 | every crossing event names one of the circles |
| PolyTourSegCircle.DegenerateLegTouches | geoVeRoPy/polyTour.py:365-366 | a leg whose ends coincide yields one touch per circle, in the circles' order, at the leg's start |
| PolyTourSegCircle.ToSome | geoVeRoPy/polyTour.py:348 | the circle ids as present entries, in order |
| PolyTourSegCircle.PlansOf | geoVeRoPy/polyTour.py:334-389 | Steps 1 and 2 prepare one plan per leg |
| PolyTourSegCircle.LegRaw | geoVeRoPy/polyTour.py:363-385 | the loop over the circles computes the leg's unsorted events |
| PolyTourSegCircle.PlanLeg | geoVeRoPy/polyTour.py:337-389 | one leg's plan: its start mileage, its point piece and its sorted events ending with the end event |
| PolyTourSegCircle.PlanLegs | geoVeRoPy/polyTour.py:334-389 | the loop over the legs, with the mileage accumulated, computes every leg's plan |
| PolyTourSegCircle.SegSetPath2Circle | geoVeRoPy/polyTour.py:297-424 | an empty path raises IndexError (path[0]); otherwise the result is the sweep of the (possibly reduced) path's legs |
| PolyTourSegCircle.LegPiecesOfLeg | geoVeRoPy/polyTour.py:327-414 | the first leg has no point piece, since the path's ends are on no circle, and every piece of leg i carries segID i |
| Common.FlattenSnoc | geoVeRoPy/common.py:428-435 | gluing one more bin onto the bins glues its items onto the end |
| Common.MulMono | geoVeRoPy/common.py:423-424 | multiplying by a natural number keeps the order of the factors |
| Common.BinSizes | geoVeRoPy/common.py:422-427 | sizePerBin has binNum entries: the floor of n / binNum each, one more for the first n mod binNum bins |
| Common.CopyRange | geoVeRoPy/common.py:432-433 | the inner loop copies exactly the items from lo up to hi, in order |
| Common.BinStartStep | geoVeRoPy/common.py:429-434 | each bin starts where the one before it ends, no bin starts past the end of the list, and the last bin ends exactly at its end |
| Common.SplitList | geoVeRoPy/common.py:421-435 | binNum = 0 raises ZeroDivisionError; a negative binNum gives no bins for an empty list and IndexError otherwise; a positive binNum gives binNum bins whose sizes are the floor of n / binNum, one more for the first n mod binNum bins, and which together hold the whole list in order |
| Common.SplitBins | geoVeRoPy/common.py:423-435 | for binNum > 0 the two loops fill exactly binNum bins of those sizes, which concatenated give back the input |
| Common.CloseRun | geoVeRoPy/common.py:497-502 | closing the open run at an unselected item, or at the end, adds a maximal run of selected items after the earlier ones |
| Common.ScanSelected | geoVeRoPy/common.py:495-496 | a selected item joins the open run |
| Common.ScanUnselected | geoVeRoPy/common.py:497-500 | an unselected item closes the open run when there is one, and otherwise changes nothing |
| Common.ScanStep | geoVeRoPy/common.py:494-500 | one round of the loop keeps the scan's invariant: closed runs maximal and in order, the open run the selected items since the last gap |
| Common.ScanAll | geoVeRoPy/common.py:492-500 | after the loop every flag has been read under that invariant |
| Common.SplitIntoSubSeq | geoVeRoPy/common.py:489-503 | lists of different lengths raise UnsupportedInputError; otherwise the result is the maximal runs of consecutively selected items, in order, and together they are exactly the selected items |
| Common.IntervalOverlapMeaning | geoVeRoPy/common.py:453-466 | is2IntervalOverlap holds iff some point lies in both intervals, whatever the order of the intervals or of their ends |
| Common.TwOverlap | geoVeRoPy/common.py:480-487 | twOverlap raises UnsupportedInputError exactly when a window starts after it ends |
| Common.TwOverlapPointWindow | geoVeRoPy/common.py:483-487 | as written, twOverlap reports the disjoint windows (0, 1) and (2, 2) as overlapping |
| Common.TwOverlapIntended | geoVeRoPy/common.py:480-487 | the intended test raises on the same windows as twOverlap |
| Common.TwOverlapIntendedAgrees | geoVeRoPy/common.py:480-487 | on valid windows the intended test is the interval overlap, and it agrees with twOverlap whenever both windows have positive length |
| Common.Config.constructor | geoVeRoPy/common.py:12-27 | the tolerance and debug tables start with the library's default entries |
| Common.Config.SetError | geoVeRoPy/common.py:29-35 | configSetError overwrites an existing tolerance and reports an unknown name by changing nothing; the keys and the debug table never change |
| Common.Config.SetLog | geoVeRoPy/common.py:37-43 | configSetLog does the same for the debug table, leaving the tolerances alone |
| Common.Repeat | geoVeRoPy/common.py:412 | n times a one-character string is n copies of that character, none when n is not positive |
| Common.HyphenStrShape | geoVeRoPy/common.py:410-419 | an empty s gives a line of `length` symbols; a short s is framed to exactly `length` characters, the right run as long as the left or one longer; a long s comes back unchanged |
| Common.List2Tuple | geoVeRoPy/common.py:404-408 | list2Tuple returns the items sorted in ascending order, a permutation of the list |
| Common.List2TupleCanonical | geoVeRoPy/common.py:404-408 | two lists with the same items, counted with repetition, give the same tuple |
| Common.TimedPoly2Poly3D | geoVeRoPy/common.py:316-321 | the loops list every vertex of every polygon, polygon after polygon, each with its polygon's time |
| Common.StampedHolds | geoVeRoPy/common.py:316-321 | every vertex of polygon k appears at polygon k's time, and every listed point is such a vertex |
| Common.ArcPoints | geoVeRoPy/common.py:161-172 | an arc contributes its two-point arc field when present, else its start and end locations when both are present, else nothing |
| Common.MapValues | geoVeRoPy/common.py:157-160 | a loop over a dictionary's keys meets exactly its values |
| Common.AppendGroups | geoVeRoPy/common.py:177-186 | appending groups of points adds exactly the points of those groups |
| Common.GroupsOfValues | geoVeRoPy/common.py:182-186 | grouping a dictionary's point lists loses and adds no point |
| Common.ArcGroups | geoVeRoPy/common.py:161-172 | one group of points per arc record |
| Common.GroupsOfArcs | geoVeRoPy/common.py:161-172 | the arcs' groups hold exactly the points the arcs contribute |
| Common.CollectPoints | geoVeRoPy/common.py:153-186 | the loops collect exactly the points supplied as pts, nodes, arcs, poly, polys or polygons |
| Common.Given | geoVeRoPy/common.py:144-151 | the given bounds of a range, and nothing else |
| Common.SeqMin | geoVeRoPy/common.py:188-191 | min of a non-empty list is one of its items and at most every item |
| Common.SeqMax | geoVeRoPy/common.py:188-191 | max of a non-empty list is one of its items and at least every item |
| Common.Abs | geoVeRoPy/common.py:188-191 | the absolute value is non-negative and equals the value or its negation |
| Common.WidenEncloses | geoVeRoPy/common.py:188-191 | widening a range by a non-negative edgeWidth keeps the original range inside it |
| Common.CoordsOf | geoVeRoPy/common.py:141-186 | allX and allY hold exactly the given bounds and the x and y of every supplied point |
| Common.DefaultBoundingBox | geoVeRoPy/common.py:85-196 | with no x value or no y value at all, min() of an empty list raises ValueError; otherwise the box is the least and greatest supplied x and y, widened by edgeWidth times the span and swapped when latLonFlag is set, and with a non-negative edgeWidth it encloses every supplied value |
| Common.Ratio | geoVeRoPy/common.py:276-285 | float division fails with ZeroDivisionError exactly on a zero divisor, and otherwise times the divisor gives the dividend back |
| Common.DefaultFigSize | geoVeRoPy/common.py:267-288 | a given width or height is kept; a missing one follows the box's aspect ratio; with neither given the longer side gets 5; a zero span divides by zero |
| Common.FigSizeFits | geoVeRoPy/common.py:273-279 | for a box with positive spans and no size given, the figure fits in 5 by 5, one side is 5 and it keeps the box's proportions |
| Common.FractionBounds | geoVeRoPy/common.py:274-279 | the smaller span over the larger is a fraction in (0, 1] |
| Color.DigitValue | geoVeRoPy/color.py:26 | a hexadecimal digit of either case has a value below 16 |
| Color.HexDigit | geoVeRoPy/color.py:41 | '%x' writes a value below 16 as a lowercase digit that reads back as that value |
| Color.HexDigits | geoVeRoPy/color.py:41 | the digits of n are non-empty hexadecimal digits, at most two for a value below 256 |
| Color.Format02x | geoVeRoPy/color.py:41 | '%02x' writes at least two digits, exactly two for a value below 256 |
| Color.ValueOfDigits | geoVeRoPy/color.py:41 | reading back the digits of n gives n |
| Color.ValueLeadingZero | geoVeRoPy/color.py:41 | a leading zero does not change the value read |
| Color.ParseFormat | geoVeRoPy/color.py:26-41 | int('%02x' % n, 16) == n |
| Color.RGB2Hex | geoVeRoPy/color.py:40-41 | RGB2Hex gives '#' followed by hexadecimal digits, seven characters for components below 256 |
| Color.LStrip | geoVeRoPy/color.py:24 | lstrip removes exactly the leading run of the character: the rest is a suffix that does not start with it |
| Color.Chunks | geoVeRoPy/color.py:25-26 | the slices of width w are non-empty and at most w long |
| Color.ChunksConcat | geoVeRoPy/color.py:25-26 | the slices glued back together are the string |
| Color.ParseAll | geoVeRoPy/color.py:26 | the conversion succeeds exactly when every slice is a non-empty run of hexadecimal digits, and then yields each slice's value in base 16, in order |
| Color.StripHash | geoVeRoPy/color.py:24 | lstrip('#') removes the one leading '#' |
| Color.SixInPairs | geoVeRoPy/color.py:25-26 | six characters are cut into three pairs |
| Color.HexOfPieces | geoVeRoPy/color.py:23-26 | hex2RGB of '#' and three two-character slices parses exactly those slices |
| Color.RoundTrip | geoVeRoPy/color.py:23-41 | hex2RGB(RGB2Hex((r, g, b))) == (r, g, b) for components in 0 to 255 |
| Color.Hilo | geoVeRoPy/color.py:14-18 | hilo's three conditional swaps give the smallest plus the largest argument |
| Color.Complement | geoVeRoPy/color.py:19-20 | the complement keeps the smallest and the largest component, and each component plus its complement is hilo's sum |
| Color.ComplementInvolution | geoVeRoPy/color.py:12-21 | the complement of a colour stays in 0 to 255 and complementing again gives the colour back |
| Color.ColorComplementOf | geoVeRoPy/color.py:12-21 | colorComplement of a rendered colour renders its complement |
| Color.ComplementTwice | geoVeRoPy/color.py:12-21 | colorComplement applied twice to a rendered colour gives it back |
| Color.BWTextOfColour | geoVeRoPy/color.py:28-38 | getBWText of a rendered colour is black exactly when the luminance reaches 186; white gets black text, black gets white text |
| VrpGeometry.DistEuclidean2D | vrpSolver/geometry.py:169-178 | distEuclidean2D is 0 when either point is None and the norm of the two points otherwise |
| VrpGeometry.DistEuclidean2DIsDist | vrpSolver/geometry.py:169-178 | with a distance as its norm, distEuclidean2D is non-negative and symmetric |
| VrpGeometry.NormDegMeaning | vrpSolver/geometry.py:360-367 | the normalisation loops bring a heading into [0, 360] by whole turns, leave a heading already in range unchanged, and never reach 0 from above or 360 from below |
| VrpGeometry.NormalizeDeg | vrpSolver/geometry.py:360-367 | the two while loops compute the normalised heading |
| VrpGeometry.PerpendicularLine | vrpSolver/geometry.py:351-372 | getPerpendicularLine returns the points at distance 10 from pt in the headings 90 degrees either side of vec's heading, each normalised |
| VrpGeometry.PerpendicularHeadings | vrpSolver/geometry.py:356-367 | both normalised headings lie in [0, 360] and are exactly half a turn apart |
| VrpGeometry.TauRow | vrpSolver/geometry.py:305-312 | the inner loop adds, for ids[a] and every id, both ordered pairs with the table entry: CONST_EPSILON on the diagonal, distance over speed elsewhere, keeping every earlier key |
| VrpGeometry.TauTable | vrpSolver/geometry.py:283-349 | getTauEuclidean and getTauLatLon raise ZeroDivisionError exactly when speed is 0 and two distinct ids are selected; otherwise the table has an entry for exactly the ordered pairs of the ids, symmetric, CONST_EPSILON on the diagonal and distance over speed off it |
| VrpGeometry.TauFull | vrpSolver/geometry.py:303-313 | a table holding every pair of positions, each entry what the loops write, has exactly the ordered pairs of the ids, is symmetric, holds CONST_EPSILON on the diagonal and distance over speed off it |
| VrpGeometry.SortedNodesByDist | vrpSolver/geometry.py:451-490 | getSortedNodesByDist raises KeyError for 'Euclidean' or 'LatLon' exactly when refNodeID or a selected id has no location (refNodeID defaults to None), returns None for any other edges, and otherwise a permutation of the ids in non-decreasing (distance from refNodeID, id) order |
| VrpGeometry.CentreSplit | vrpSolver/geometry.py:518-537 | every node goes either to the heap or to the centre list |
| VrpGeometry.SplitStep | vrpSolver/geometry.py:518-537 | one more node goes to exactly one side of the split |
| VrpGeometry.NoCentreKeepsOrder | vrpSolver/geometry.py:519-522 | with no centre, distEuclidean2D is 0, so every node is at the centre and the ids come back in the order given |
| VrpGeometry.SplitAtCentre | vrpSolver/geometry.py:514-537 | the first loop puts the nodes within CONST_EPSILON of the centre aside, in order, and pushes the others with their normalised sweep angle |
| VrpGeometry.SweepSeq | vrpSolver/geometry.py:492-545 | getSweepSeq returns the nodes away from the centre in non-decreasing (angle, id) order, then the nodes at the centre in the order given: a permutation of the ids |
| VrpGeometry.ConvexHullCases | vrpSolver/geometry.py:581-648 | getConvexHull gives None for no nodes, every id for one to three nodes, and for more the Jarvis march with algo 'Jarvis' and None otherwise |
| Travel.Reverse | geoVeRoPy/travel.py:379 | the reversed path lists the same points from last to first |
| Travel.ReverseReverse | geoVeRoPy/travel.py:376-379 | reversing a path twice gives it back, so the stored path and its reverse describe the same route |
| Travel.TauRow | geoVeRoPy/travel.py:251-264 | the inner loop writes, for ids[a] and every id, both orders with the same value and 0 on the diagonal, keeping every earlier key |
| Travel.MatrixTau | geoVeRoPy/travel.py:247-274 | the plain builders have an entry for exactly the ordered pairs of the ids, symmetric, 0 on the diagonal and the distance between the two nodes off it |
| Travel.FilledSquare | geoVeRoPy/travel.py:250-251 | a table holding every pair of positions and only pairs of ids holds exactly the ordered pairs of the ids |
| Travel.TauExact | geoVeRoPy/travel.py:250-264 | with a symmetric distance every off-diagonal entry is the distance from its first node to its second |
| Travel.PathRow | geoVeRoPy/travel.py:371-387 | the inner loop of a detailed builder writes each pair's distance and path and the reverse pair's same distance and reversed path, with empty paths on the diagonal |
| Travel.PathPairsPut | geoVeRoPy/travel.py:376-379 | writing a pair and its reverse keeps the detailed tables consistent |
| Travel.MatrixTauPath | geoVeRoPy/travel.py:364-395 | the detailed builders have distance and path entries for exactly the ordered pairs of the ids, each reverse pair with the same distance and the reversed path |
| Travel.DictionaryTables | geoVeRoPy/travel.py:92-104 | the 'Dictionary' option copies every given entry, with the given path or else the straight path between the nodes, and fails exactly when a given path table lacks an entry |
| Travel.NoPairDiagonal | geoVeRoPy/travel.py:250-266 | with no two distinct ids, the detailed tables hold only the diagonal: distance 0 and an empty path for each id |
| Travel.BareTables | geoVeRoPy/travel.py:247-333 | the bare-number builders fail with TypeError exactly in detail mode with two distinct ids, because they read 'dist' from a number; otherwise they cover exactly the ordered pairs, with the distances in plain mode and only the diagonal in detail mode |
| Travel.PolyTables | geoVeRoPy/travel.py:364-395 | the barrier builder covers exactly the ordered pairs of the ids with the measured distances, and in detail mode each reverse pair has the same distance and the reversed path |
| Travel.MatrixDist | geoVeRoPy/travel.py:8-134 | matrixDist raises UnsupportedInputError for an unknown edges; AttributeError for 'EuclideanBarrier' without polys (the warnings.warning call); MissingParameterError for a missing tau, grid, column or row; fails for 'Grid'; and, for the bare-number options, TypeError exactly in detail mode with two distinct ids. Otherwise the table covers exactly the ordered pairs of the ids with the option's distance (the given table for 'Dictionary', with its paths or the straight ones, KeyError when a given path table lacks an entry), and detail mode adds the paths |
| Travel.VectorTau | geoVeRoPy/travel.py:492-513 | the plain vector builders have an entry for exactly the ids, each the distance from pt to the node |
| Travel.VectorDetail | geoVeRoPy/travel.py:588-615 | the detailed vector builders give each id the measured distance and path from pt and the same distance with the reversed path back |
| Travel.VectorTables | geoVeRoPy/travel.py:492-615 | the vector builders give every id the distance from pt, and in detail mode the measured path there and the reversed path back with the same distance |
| Travel.VectorDist | geoVeRoPy/travel.py:397-490 | vectorDist succeeds exactly for 'Euclidean', 'LatLon', 'Manhatten' and 'EuclideanBarrier' with polys; it raises UnsupportedInputError for an unknown edges, AttributeError for 'EuclideanBarrier' without polys, MissingParameterError for a missing grid, column or row; on success each id gets the chosen option's distance from pt, and in detail mode its path and the reversed path back |
| Travel.ScaleDist | geoVeRoPy/travel.py:617-704 | scaleDist succeeds exactly for 'Euclidean', 'LatLon', 'Manhatten', 'EuclideanBarrier' with polys and 'Grid' with a grid holding column and row; it raises AttributeError for 'EuclideanBarrier' without polys and UnsupportedInputError or MissingParameterError otherwise; dist is the chosen option's distance; in detail mode the way back has the same length along the reversed path, and the straight options' path runs from pt1 to pt2 |
| Travel.ScaleDistIntended | geoVeRoPy/travel.py:653-660 | with the warning call taken as a warning, 'EuclideanBarrier' without polys gives the Euclidean distance and the straight path; every other input behaves as scaleDist |
| GridSurface.RowCells | geoVeRoPy/gridSurface.py:106-108 | a row of sameMat counts at most one match per column |
| GridSurface.MatchRows | geoVeRoPy/gridSurface.py:105-108 | the first rows of sameMat sum to at most three per row |
| GridSurface.CountMatches | geoVeRoPy/gridSurface.py:101-109 | the nested loops fill sameMat and its sum is at most 9 |
| GridSurface.RowShared | geoVeRoPy/gridSurface.py:106-108 | with exact comparison, a vertex matches one vertex of a triangle with distinct vertices if it is one of them, and none otherwise |
| GridSurface.MatchCountShared | geoVeRoPy/gridSurface.py:101-110 | with exact comparison, sameMat sums to the number of vertices the two triangles share |
| GridSurface.Scan | geoVeRoPy/gridSurface.py:94-114 | the neighbour loop links the neighbours before the first one that fails a check, and reports that check's error, or none when all pass |
| GridSurface.BandKeysMembers | geoVeRoPy/gridSurface.py:57-84 | a band's keys are (m, c) for c below its count |
| GridSurface.BandKeysSize | geoVeRoPy/gridSurface.py:57-84 | a band of `count` facets has `count` distinct keys |
| GridSurface.FacetAdj | geoVeRoPy/gridSurface.py:28-84 | every neighbour buildFacets lists for a facet is a facet of the layout added before it |
| GridSurface.FacetKeysMembers | geoVeRoPy/gridSurface.py:22-86 | the layout's keys are (m, c) with m below the number of bands and c below 2n |
| GridSurface.FacetKeysSize | geoVeRoPy/gridSurface.py:22-86 | the layout has 2n facets per band, 2n(L-1) for L layers of n vertices |
| GridSurface.BandDisjoint | geoVeRoPy/gridSurface.py:57-84 | a new band shares no key with the bands below it |
| GridSurface.BandsStep | geoVeRoPy/gridSurface.py:57 | one more band adds 2n facets |
| GridSurface.LiftInjective | geoVeRoPy/gridSurface.py:23-25 | on a layout of distinct vertices at distinct times, two lifted vertices are equal only when they are the same vertex of the same layer |
| GridSurface.FacetNotDegenerate | geoVeRoPy/gridSurface.py:28-84 | on such a layout, compared exactly, no facet buildFacets adds has two coinciding vertices |
| GridSurface.BuiltStep | geoVeRoPy/gridSurface.py:89-114 | adding the next facet of the layout with its listed neighbours' edges moves the tables on by one facet |
| GridSurface.FacetsStep | geoVeRoPy/gridSurface.py:90-93 | storing the next facet keeps the facet and centre tables exactly the layout's facets so far |
| GridSurface.EdgesStep | geoVeRoPy/gridSurface.py:114 | linking the next facet to its listed neighbours keeps the edges exactly those of the facets so far |
| GridSurface.LiftInjectiveAll | geoVeRoPy/gridSurface.py:23-25 | the lifted vertices of a layout of distinct vertices are pairwise distinct |
| GridSurface.NeighbourSharesEdge | geoVeRoPy/gridSurface.py:94-112 | on such a layout, compared exactly, every listed neighbour shares exactly two vertices with the new facet, so both checks pass |
| GridSurface.DistinctLayoutFits | geoVeRoPy/gridSurface.py:22-114 | a layout of distinct vertices compared exactly passes every check buildFacets makes |
| GridSurface.EmptyBuilt | geoVeRoPy/gridSurface.py:9-14 | the empty tables are the state before the first facet |
| GridSurface.AllBuilt | geoVeRoPy/gridSurface.py:22-86 | once every band is added the facet keys are exactly the layout's keys |
| GridSurface.TriGridSurface.constructor | geoVeRoPy/gridSurface.py:7-14 | the tables start empty, with the layers and their first and last times |
| GridSurface.TriGridSurface.AddFacet | geoVeRoPy/gridSurface.py:89-114 | addFacet stores the facet and its centre and adds its node, then links the listed neighbours in turn until the first failed check, whose error it reports |
| GridSurface.TriGridSurface.CheckNeighbour | geoVeRoPy/gridSurface.py:96-112 | the checks for one neighbour: a degenerate facet or a neighbour not sharing exactly two vertices raise ZeroVectorError, and an unknown neighbour a KeyError |
| GridSurface.TriGridSurface.AddLayoutFacet | geoVeRoPy/gridSurface.py:28-84 | each addFacet call of buildFacets adds the next facet of the layout or fails with ZeroVectorError, and cannot fail on a layout that fits |
| GridSurface.TriGridSurface.BuildBand | geoVeRoPy/gridSurface.py:57-84 | the band between layers m and m+1 is added completely, or fails with ZeroVectorError, never on a layout that fits |
| GridSurface.TriGridSurface.BuildFacets | geoVeRoPy/gridSurface.py:22-86 | buildFacets fills the tables with the 2n(L-1) facets of the layout, their centres, nodes and edges, or fails with ZeroVectorError, never on a layout that fits |
| GridSurface.TriGridSurface.Create | geoVeRoPy/gridSurface.py:7-19 | __init__ raises IndexError with fewer than two layers or two vertices, ZeroVectorError only on a layout that does not fit, and otherwise yields the finished surface |
| GridSurface.TriGridSurface.BuildZProfile | geoVeRoPy/gridSurface.py:117-141 | buildZProfile computes the cut of the surface at time z |
| GridSurface.TriGridSurface.IsPtInside | geoVeRoPy/gridSurface.py:180-182 | isPtInside passes on buildZProfile's error, and otherwise tests the point against the cut |
| GridSurface.Segs | geoVeRoPy/gridSurface.py:129-133 | buildZProfile lays 2n segments between two layers of n vertices |
| GridSurface.Interp | geoVeRoPy/gridSurface.py:136-137 | one interpolated point per segment |
| GridSurface.SegsOf | geoVeRoPy/gridSurface.py:129-133 | the segment loop lays those segments |
| GridSurface.Interpolate | geoVeRoPy/gridSurface.py:135-137 | the interpolation loop computes the points at fraction sc along the segments |
| GridSurface.ProfileSkips | geoVeRoPy/gridSurface.py:123-138 | with layers spaced beyond the tolerance, no layer before one whose time is within the tolerance of z, or whose interval holds z, stops the search |
| GridSurface.ProfileAtLayerTime | geoVeRoPy/gridSurface.py:126-127 | at a layer's own time (any but the last) the cut is that layer's polygon |
| GridSurface.ProfileBetweenLayers | geoVeRoPy/gridSurface.py:128-138 | strictly between two layers, beyond the lower one's tolerance, the cut has 2n points, those at fraction sc = (z - t0) / (t1 - t0) in [0, 1) along the segments |
| GridSurface.InterpBetween | geoVeRoPy/gridSurface.py:136-137 | for sc in [0, 1] each point of the cut lies between the two ends of its segment on both axes |
| GridSurface.LerpBetween | geoVeRoPy/gridSurface.py:137 | interpolating at a fraction in [0, 1] stays between the two ends |
| GridSurface.DistTimedPt2TimedPt | geoVeRoPy/gridSurface.py:190-201 | distTimedPt2timedPt gives the distance of the two points and, when time moves forward, the speed that covers it in that time, and None otherwise |
| GridSurface.SpeedNonNegative | geoVeRoPy/gridSurface.py:190-201 | covering a non-negative distance forward in time takes a non-negative speed |
| Ctpst.RightMatchesMeaning | geoVeRoPy/ctpst.py:42-44 | the `right` loop for one `left` collects a copy of vs[left] exactly when that node is visited again in the scanned range |
| Ctpst.InsideUpToMeaning | geoVeRoPy/ctpst.py:41-44 | after the first `lefts` iterations, a node is in the entry exactly when it is visited among those positions and again after position k |
| Ctpst.InsideAtMeaning | geoVeRoPy/ctpst.py:39-45 | a node is in insideSet[k] exactly when it is visited both before and after position k |
| Ctpst.MatchRight | geoVeRoPy/ctpst.py:42-44 | the `right` loop computes the matches of vs[left] right of position k |
| Ctpst.InsideOf | geoVeRoPy/ctpst.py:40-45 | the double loop for one position computes insideSet[k] |
| Ctpst.InsideSet | geoVeRoPy/ctpst.py:37-46 | insideSet has one entry per visit (two when there are fewer than two visits), empty first and last entries, and the enclosing nodes of every interior position |
| Ctpst.InsideUpToLast | geoVeRoPy/ctpst.py:38-46 | nothing is visited after the last position, so its entry is empty whatever the left loop sees |
| Ctpst.InsideAtEnds | geoVeRoPy/ctpst.py:38-46 | the empty entries the source writes for the first and last positions agree with the meaning of insideSet |
| Ctpst.SeenBefore | geoVeRoPy/ctpst.py:92-96 | the flag loop reports a repeat exactly when node vs[k] occurs before position k |
| Ctpst.VarIndexOccurrences | geoVeRoPy/ctpst.py:134-144 | the first visit of a node uses the node's own variable, a later visit the shifted one, and the two differ |
| Ctpst.BuildLegs | geoVeRoPy/ctpst.py:88-117 | an empty visit sequence raises IndexError at `x[visitSeq[0]]`; otherwise the dx/dy constraints give one leg per gap: start point to visit 0, each visit to the next with own or shifted variables by the two flags, and the last visit's shifted variable to the end point |
| Ctpst.LegsChain | geoVeRoPy/ctpst.py:88-117 | when every node is visited twice, each visit's variable ends one leg and starts the next, so the legs form a path through the visits |
| Ctpst.CentreVars | geoVeRoPy/ctpst.py:130-144 | every visit constrains its own or shifted variable, by occurrence, to the circle of the visited node |
| Ctpst.OverlapsMeaning | geoVeRoPy/ctpst.py:154-173 | the overlap constraints pair a variable with a node exactly when some visit with that variable lists the node in its insideSet entry |
| Ctpst.OverlapsOfInsideSet | geoVeRoPy/ctpst.py:37-173 | with insideSet as built, a visit's variable is constrained to a node's circle exactly when that node is visited both before and after the visit |
| Ctpst.OverlapVars | geoVeRoPy/ctpst.py:154-173 | the overlap loop emits exactly the pairs of the overlap specification, in order |
| Ctpst.VisitPath | geoVeRoPy/ctpst.py:187-213 | the path is the start point, the solution point of each visit's variable in visit order, and the end point |
| Ctpst.PathDistances | geoVeRoPy/ctpst.py:218-221 | trueDistBtw holds the length of every leg of the path and dist is the path length, their sum |
| Ctpst.NodePts | geoVeRoPy/ctpst.py:205-211 | nodePts holds both the own and the shifted point of every node, with the solution's values, and nothing else |
| Ctpst.PostProcess | geoVeRoPy/ctpst.py:180-264 | an optimal or time-limited solve returns the full path, its objective and its length; only an optimal one fills nodePts; any other status returns only the start point and no values |

## Left out

- Plotting and animation (geoVeRoPy/plot.py, geoVeRoPy/animation.py) are side effects on figures and are not modelled.
- The commercial-solver formulations (`_poly2PolyPathGurobi`, `_seg2SegPathGurobi`, `_circle2CirclePathGurobi`, `_circle2CirclePathCOPT`, `curveArc2CurveArcPathBak`) and the Gurobi model inside `solveCTPST` are not modelled. Ctpst.PostProcess takes the solver's status, objective value and solution map as parameters.
- Ctpst.PostProcess does not model `timeStamp`, `distStamp`, `gap`, `lb`, `ub` or `runtime`, because they are solver outputs. It exposes `trueDistBtw`, which the source computes but does not return.
- Ctpst.BuildLegs: the final leg always uses the shifted variable of the last visit, as the source writes it. That agrees with the path read back only when the last visit is a repeat; LegsChain proves the agreement when every node is visited twice, which is the shape the source's comment states.
- Ctpst.InsideSet: with fewer than two visits the source still writes two empty entries, so insideSet then has length 2, not one entry per visit; the contract states this case.
- LayeredGraph.ShortestRoute searches only layer-monotone routes: 's', one node of each layer in layer order, 'e'. networkx's `dijkstra_path` searches every path of the undirected `nx.Graph`, which may step back to an earlier layer. In the polygon and circle searches consecutive layers are fully joined, so a back-tracking path is never shorter when distances obey the triangle inequality, as Euclidean ones do; Geom.IsDist does not assume that inequality, and the model makes no claim about back-tracking paths or about which of two equally light paths networkx returns.
- ArcAdapt.FirstSearch: the first arc graph drops arc-to-arc legs of length at most 0.005, so a back-tracking path can reach 'e' when no monotone one does. With layers {a}, {b, b'}, {c, c'}, {d} where only the legs a-b', b-c and c'-d are that short, no monotone route is clear and the model returns NoPath, while the source finds s, a, b, c', b', c, d, e.
- ArcAdapt.CurveArc2CurveArcPath: returns NoPath whenever FirstSearch does, so it inherits the monotone-only search above.
- ArcAdapt.CurveArc2CurveArcPath and ArcAdapt.ArcSeed require a given atLeastTimeBtw to have at least len(curveArcs) entries. A shorter one raises IndexError in the source: an empty list at `atLeastTimeBtw[0]` (geoVeRoPy/stPath.py:220), and a list of k < len(curveArcs) entries at `atLeastTimeBtw[i + 1]` for i + 1 >= k (geoVeRoPy/stPath.py:240), once a leg between those arcs is longer than 0.005 (or later, in the rebuilt graph at line 328). The model makes no claim about such lists.
- ArcAdapt.CurveArc2CurveArcPath requires speed > 0. With speed 0 the source raises ZeroDivisionError; with a negative speed every d / speed is at most 0, so each leg's time becomes its atLeastTimeBtw entry. The model makes no claim about either case.
- The ring class (ring.py) is not part of this model. Rings.Ring is an abstract ring with the operations its callers use (append, insert, query, traverse, next, prev, count, head as the first key). `CurveArc.insertAround` and `query` are used by geoVeRoPy/stPath.py but are not defined in geoVeRoPy/curveArc.py; ArcAdapt.InsertAround gives insertAround the behaviour its callers rely on. geoVeRoPy/stPath.py also reads every sample's location as `.pt` (lines 216, 234, 254, 311, 324, 334, 357), while `CurveArcNode` in geoVeRoPy/curveArc.py:9 stores it as `loc` and defines no `pt`. Run on curveArc.py's objects as written, `curveArc2CurveArcPath` raises AttributeError at line 216, on the first sample of the first arc. ArcAdapt reads each sample's location from its ring instead, so it models the search as its callers intend, not that failure.
- Distances, `sqrt`, trigonometry, the Mercator projection, `distLatLon`, the headings, `pointInDistXY`, `ptInDistXY`, `getPtByDeg` and the shapely-based primitives (`intSeg2Poly`, `intSeg2Circle`, `isPtInPoly`, `distPt2Seg`, `distPt2Path`, `is2PtsSame`, `distBtwPolysXY`, `distOnGrid`) are function parameters. Only non-negativity and symmetry of distances are assumed where a proof needs them.
- The tolerances (`ERRTOL`, `CONST_EPSILON`) live in a constants file that is not part of this model. They are parameters, except in Common, which models the `ERRTOL` table that common.py itself initialises.
- The name `warnings`: polyTour.py and travel.py do not import `warnings`, and neither does common.py. geoVeRoPy/geometry.py is not part of this model. The model assumes that geometry.py imports `warnings`, so that its star import passes the name on to both files. Under that one assumption:
  - `warnings.warn` at geoVeRoPy/polyTour.py:476 only prints, is not modelled, and the closest-polygon fallback after it runs (PolyTourSegPoly.TurnPointOf);
  - `warnings.warning` in travel.py raises AttributeError, since the module has no `warning` (Travel.MatrixDist, Travel.VectorDist, Travel.ScaleDist).
  Were the name not in scope, both calls would raise NameError instead: the travel functions would fail with a different error class, and segSetPath2Poly would fail at every turning point with no polygon within tolerance, where the model falls back to the closest polygon.
- Floating-point rounding is not modelled: coordinates and distances are `real`.
- PolyAdapt.Poly2PolyPathAdaptIter and CircleAdapt.Circle2CirclePathAdaptIter require adaptErr > 0. With adaptErr > 0 the loop provably ends, because every pass but the last shortens a non-negative length by more than adaptErr. The source has no iteration cap.
- PolyAdapt.Poly2PolyPathAdaptIter and CircleAdapt.Circle2CirclePathAdaptIter require at least one region (and, for polygons, at least one vertex each). The source reads `polyRings[0]` / `circleRings[0]` and fails on an empty list.
- CircleAdapt.Circle2CirclePathAdaptIter requires initLod >= 1. With initLod = 0 the source's ring is empty and its traversal fails.
- ArcAdapt.CurveArc2CurveArcPath takes a `fuel` bound on the number of refinement passes and returns `OutOfFuel` when it runs out. The source loop has no bound; the model makes no claim about runs longer than the fuel.
- The Jarvis march of `getConvexHull` has no evident termination and is not modelled. VrpGeometry.ConvexHullCases returns `JarvisMarch` in its place.
- `distPt2Seg` in vrpSolver/geometry.py uses an undefined name and is not modelled. The `getRnd*` functions return undefined names and are not modelled. `getScan`, `distPt2Line`, `getHeadingLatLon`, `twMovingPtInside*` and the Mercator conversions are not modelled.
- VrpGeometry.TauTable covers `getTauEuclidean` and `getTauLatLon` through the distance parameter; nodeIDs is either 'All' or a list.
- VrpGeometry.TauTable requires every selected id to have a location. The source raises KeyError on an unknown id; the model leaves that error out.
- Travel: the 'RoadNetwork' option and the Baidu requests (`_matrixBaidu`, `_matrixBaiduBlock`, `_shapepointBaidu*`) do network I/O and are not modelled. Travel.MatrixDist requires `edges != "RoadNetwork"`.
- Travel.MatrixDist and Travel.VectorDist require every selected id to be a key of `nodes`. The source raises KeyError on an unknown id; the model leaves that error out.
- Travel: the model keeps a keyword argument's presence apart from its value where the source does. `path` and `distUnit` are tested for presence only: `path=None` raises TypeError when the 'Dictionary' option reads it, and `distUnit=None` is passed on to `distLatLon` as None. For `polys`, `tau` and `grid` the source tests `'x' not in kwargs or kwargs['x'] == None`, so absent and None are the same value.
- Travel.ScaleDist: for 'Grid', `distOnGrid(pt1, pt2, grid)` is called without detailFlag and its result is read as a dictionary with 'dist' and 'path'. geoVeRoPy/geometry.py is not part of this model; the model assumes the call returns both, as `Metrics.onGrid` does.
- Travel: `distBtwPolysXY` receives `detailFlag` positionally in the source. The model takes its detailed result always and reads the plain distance as that result's `dist`.
- Travel: the text of ERROR_MISSING_EDGES lives in a message file that is not part of this model and is represented by the constant's name.
- Common: `defaultBoundingBox3D`, the lat/lon branch of `defaultFigSize`, `saveDictionary`, `loadDictionary`, `rndPick`, `rndPickFromDict`, `list2String`, `writeLog`, `printLog` and the `runtime` / `tellRuntime` decorators are file I/O, randomness, clocks or printing and are not modelled.
- Common: `sortListByList` calls `heapq`, which common.py does not import, and is not modelled.
- Color: `rndColor` and `rndRed` are random and are not modelled.
- Color.ParseHex and Color.ParseAll accept only a non-empty run of hexadecimal digits. Python's `int(s, 16)` also accepts surrounding whitespace, a sign, a 0x prefix and single underscores between digits: hex2RGB('#+f+f+f') gives (15, 15, 15) in the source and an error in the model, and a '-' sign gives negative components the model's `nat` results cannot hold.
- GridSurface: `fastestPt2Facet`, `fastestPt2Facet2Pt`, `isPtReachable`, `shortestPt2TriGridSurface` and `pt2TriGridSurface2Pt` are unfinished stubs and are not modelled. `z0Proj`, the union of all layers built by `polysUnion`, is not modelled.
- GridSurface.TriGridSurface.Create requires every layer to have as many vertices as the first. The source indexes the next layer by the current layer's vertex indices: a shorter layer raises IndexError and the extra vertices of a longer one are ignored. The model does not follow those cases.
- GridSurface.TriGridSurface.BuildFacets requires empty tables, as the constructor calls it right after creating them.
- GridSurface.TriGridSurface.AddFacet: the source's "invalid facet" error message formats the triangle. The model's message omits the triangle.
- GridSurface.TriGridSurface.BuildZProfile: the source only matches a layer time inside the loop over layer pairs, so the last layer's time is never matched exactly. When no pair of consecutive layers brackets z, the source returns an empty profile. The model does the same.
- CurveArcs: `getLineString` and the shapely intersection half of `intCurveArc2Circle` (geoVeRoPy/curveArc.py lines 72-113) are not modelled. CurveArcs.IntCurveArc2Circle takes the intersection, already joined into one polyline, as input.
- Polyline simplification and the segment sweeps take the geometric tests as parameters. Their correctness (for example that `intSeg2Poly` finds every crossing) is not modelled.
- Concurrency does not arise: the library is single-threaded.

## Findings

| source | as written | input that shows it | evidently intended | confidence | as-written member | corrected member |
|---|---|---|---|---|---|---|
| geoVeRoPy/obj2Obj.py:513-520 | the new degrees are the plain means of p.prev.deg, p.deg and p.next.deg; the unwrapped pPrevDeg and pNextDeg are computed but never used | a circle ring with initLod = 4 (degrees 0, 90, 180, 270) and a waypoint at degree 0: its previous sample is at 270, and the new sample lands at 135, on the far side of the circle | the midpoint of the arc from p.prev to p, i.e. 315, using the unwrapped degree | not executed | CircleAdapt.SeamMidpoints | CircleAdapt.PrevMidHalves |
| geoVeRoPy/common.py:483-487 | twOverlap returns False only when tw1[0] < tw1[1] < tw2[0] < tw2[1] or the mirrored chain holds | the windows (0, 1) and (2, 2): they are disjoint, but the point window fails the strict chain, so twOverlap returns True | windows overlap exactly when they share a time, as is2IntervalOverlap decides | not executed | Common.TwOverlapPointWindow | Common.TwOverlapIntendedAgrees |
| geoVeRoPy/travel.py:653-660 | for 'EuclideanBarrier' without polys (here, and likewise at lines 63-72 and 444-452) the code calls `warnings.warning(...)` and then computes the Euclidean result; the module `warnings` has no `warning`, so the call raises AttributeError (or NameError, were `warnings` not in scope) | scaleDist(pt1, pt2, edges = 'EuclideanBarrier') with no polys argument | print a warning and fall back to the straight Euclidean distance and path | not executed | Travel.ScaleDist | Travel.ScaleDistIntended |
