/**
 * Antimeridian splitting of great-circle routes: GreatCircle.Arc and Arc.json
 * of the bundled app/static/js/arc.js.
 *
 * Numbers are reals and the spherical interpolation is any function from the
 * fraction of the route to a point whose longitude lies in [-180, 180].
 */
module GreatCircle {

  datatype Point = Point(lon: real, lat: real)

  type Route = real -> Point

  // The longitudes atan2 can produce.
  ghost predicate OnMap(f: Route) {
    forall x :: -180.0 <= f(x).lon <= 180.0
  }

  const BISECTIONS: nat := 50

  function Abs(x: real): real {
    if x < 0.0 then -x else x
  }

  function Pow2(n: nat): (p: real)
    ensures p >= 1.0
  {
    if n == 0 then 1.0 else 2.0 * Pow2(n - 1)
  }

  // ---- Bisection ----

  // Before the crossing at c. The crossing point itself lies on either side: the
  // longitudes of atan2 give it 180, so it is near on an eastbound route and far
  // on a westbound one.
  predicate Near(y: real, c: real, closed: bool) {
    y < c || (closed && y == c)
  }

  // The route crosses the antimeridian once on [lo, hi], at c: points on the
  // same side are closer than 180 degrees in longitude and points on different
  // sides are not.
  ghost predicate CrossesAt(f: Route, lo: real, hi: real, c: real, closed: bool) {
    && Near(lo, c, closed) && !Near(hi, c, closed)
    && forall x, y | lo <= x <= hi && Near(x, c, closed) && lo <= y <= hi ::
         Abs(f(y).lon - f(x).lon) < 180.0 <==> Near(y, c, closed)
  }

  ghost predicate Brackets(f: Route, lo: real, hi: real, m: real, w: real) {
    && lo <= m < w <= hi
    && forall c, closed | CrossesAt(f, lo, hi, c, closed) :: Near(m, c, closed) && !Near(w, c, closed)
  }

  // Fifty halvings of [lo, hi] around a crossing.
  method Bisect(f: Route, lo: real, hi: real) returns (m: real, w: real)
    requires lo < hi
    ensures Brackets(f, lo, hi, m, w)
    ensures w - m == (hi - lo) / 1125899906842624.0
  {
    m, w := lo, hi;
    var i := 0;
    assert Halved(hi - lo, 0, w - m);
    while i < BISECTIONS
      invariant 0 <= i <= BISECTIONS
      invariant Brackets(f, lo, hi, m, w)
      invariant Halved(hi - lo, i, w - m)
    {
      var x := (m + w) / 2.0;
      Halve(hi - lo, i, w - m);
      BracketHalf(f, lo, hi, m, w);
      if Abs(f(x).lon - f(m).lon) < 180.0 {
        m := x;
      } else {
        w := x;
      }
      i := i + 1;
    }
    Fifty();
    Quotient(w - m, 1125899906842624.0, hi - lo);
  }

  lemma Fifty()
    ensures Pow2(BISECTIONS) == 1125899906842624.0
  {
    assert Pow2(10) == 1024.0;
    Pow2Plus(10, 10);
    Pow2Plus(20, 10);
    Pow2Plus(30, 10);
    Pow2Plus(40, 10);
  }

  lemma {:induction false} Pow2Plus(a: nat, b: nat)
    ensures Pow2(a + b) == Pow2(a) * Pow2(b)
  {
    if b > 0 {
      Pow2Plus(a, b - 1);
    }
  }

  lemma BracketHalf(f: Route, lo: real, hi: real, m: real, w: real)
    requires Brackets(f, lo, hi, m, w)
    ensures var x := (m + w) / 2.0;
            if Abs(f(x).lon - f(m).lon) < 180.0 then Brackets(f, lo, hi, x, w) else Brackets(f, lo, hi, m, x)
  {
    var x := (m + w) / 2.0;
    forall c, closed | CrossesAt(f, lo, hi, c, closed)
      ensures Abs(f(x).lon - f(m).lon) < 180.0 <==> Near(x, c, closed)
    {
    }
  }

  ghost predicate Halved(whole: real, i: nat, width: real) {
    width * Pow2(i) == whole
  }

  lemma Halve(whole: real, i: nat, width: real)
    requires Halved(whole, i, width)
    ensures Halved(whole, i + 1, width / 2.0)
  {
    var p := Pow2(i);
    assert (width / 2.0) * (2.0 * p) == width * p;
  }

  lemma Quotient(a: real, p: real, b: real)
    requires p > 0.0 && a * p == b
    ensures a == b / p
  {
  }

  // A route that keeps running east on both sides of the antimeridian at c.
  ghost predicate RunsEast(f: Route, lo: real, hi: real, c: real, closed: bool) {
    && Near(lo, c, closed) && !Near(hi, c, closed)
    && (forall x, y | lo <= x <= y <= hi && Near(y, c, closed) :: f(x).lon <= f(y).lon)
    && (forall x, y | lo <= x <= y <= hi && !Near(x, c, closed) :: f(x).lon <= f(y).lon)
  }

  ghost predicate RunsWest(f: Route, lo: real, hi: real, c: real, closed: bool) {
    && Near(lo, c, closed) && !Near(hi, c, closed)
    && (forall x, y | lo <= x <= y <= hi && Near(y, c, closed) :: f(x).lon >= f(y).lon)
    && (forall x, y | lo <= x <= y <= hi && !Near(x, c, closed) :: f(x).lon >= f(y).lon)
  }

  // Between two samples that the split loop tells apart, a route that keeps its
  // direction meets the condition of the bisection, whichever side the crossing
  // point counts to.
  lemma DirectedRouteCrosses(f: Route, lo: real, hi: real, c: real, closed: bool)
    requires OnMap(f)
    requires || (RunsEast(f, lo, hi, c, closed) && f(hi).lon - f(lo).lon < -180.0)
             || (RunsWest(f, lo, hi, c, closed) && f(hi).lon - f(lo).lon > 180.0)
    ensures CrossesAt(f, lo, hi, c, closed)
  {
    var east := f(hi).lon < f(lo).lon;
    forall x, y | lo <= x <= hi && Near(x, c, closed) && lo <= y <= hi
      ensures Abs(f(y).lon - f(x).lon) < 180.0 <==> Near(y, c, closed)
    {
      assert if east then 0.0 < f(lo).lon <= f(x).lon <= 180.0 else -180.0 <= f(x).lon <= f(lo).lon < 0.0;
      if Near(y, c, closed) {
        assert if east then f(lo).lon <= f(y).lon <= 180.0 else -180.0 <= f(y).lon <= f(lo).lon;
      } else {
        assert if east then f(y).lon <= f(hi).lon else f(hi).lon <= f(y).lon;
      }
    }
  }

  // An eastbound route along the equator, from 170 degrees over 180 to -170.
  function Eastbound(): Route {
    (x: real) =>
      if x < 0.0 then Point(170.0, 0.0)
      else if x <= 0.5 then Point(170.0 + 20.0 * x, 0.0)
      else if x <= 1.0 then Point(20.0 * x - 190.0, 0.0)
      else Point(-170.0, 0.0)
  }

  lemma EastboundCrosses()
    ensures OnMap(Eastbound()) && Jump(Eastbound()(0.0), Eastbound()(1.0)) && Eastbound()(0.5).lon == 180.0
    ensures CrossesAt(Eastbound(), 0.0, 1.0, 0.5, true)
  {
    forall x: real, y: real | 0.0 <= x <= y <= 1.0 && (y <= 0.5 || x > 0.5)
      ensures Eastbound()(x).lon <= Eastbound()(y).lon
    {
      EastboundRises(x, y);
    }
    DirectedRouteCrosses(Eastbound(), 0.0, 1.0, 0.5, true);
  }

  lemma EastboundRises(x: real, y: real)
    requires 0.0 <= x <= y <= 1.0 && (y <= 0.5 || x > 0.5)
    ensures Eastbound()(x).lon <= Eastbound()(y).lon
  {
  }

  // ---- Splitting ----

  predicate Jump(a: Point, b: Point) {
    Abs(b.lon - a.lon) > 180.0
  }

  function Jumps(s: seq<Point>): nat {
    if |s| < 2 then 0
    else Jumps(s[..|s| - 1]) + if Jump(s[|s| - 2], s[|s| - 1]) then 1 else 0
  }

  // No line segment of the part spans more than half the map.
  ghost predicate Tame(part: seq<Point>) {
    forall i | 0 < i < |part| :: -180.0 <= part[i].lon - part[i - 1].lon <= 180.0
  }

  // The part at index k starts with an inserted end, unless it is the first.
  function Opening(k: nat): nat {
    if k == 0 then 0 else 1
  }

  ghost predicate Filled(parts: seq<seq<Point>>) {
    forall k: nat | k < |parts| :: |parts[k]| > Opening(k)
  }

  // The samples in the part at index k: in a last part, and in one that was cut.
  function SamplesIn(k: nat, part: seq<Point>): seq<Point> {
    if part == [] then [] else part[Opening(k)..]
  }

  function SamplesBeforeCut(k: nat, part: seq<Point>): seq<Point> {
    if |part| <= Opening(k) then [] else part[Opening(k)..|part| - 1]
  }

  function Joined(parts: seq<seq<Point>>): seq<Point> {
    if parts == [] then []
    else
      var k := |parts| - 1;
      Joined(parts[..k]) + SamplesBeforeCut(k, parts[k])
  }

  // The route with the inserted ends removed and the parts put together again.
  function Restored(parts: seq<seq<Point>>): seq<Point> {
    if parts == [] then []
    else
      var k := |parts| - 1;
      Joined(parts[..k]) + SamplesIn(k, parts[k])
  }

  // One part ends on the antimeridian where the next begins, on the other side.
  predicate Meet(a: seq<Point>, b: seq<Point>)
    requires a != [] && b != []
  {
    var p, q := a[|a| - 1], b[0];
    (p.lon == 180.0 || p.lon == -180.0) && q.lon == -p.lon && p.lat == q.lat
  }

  ghost predicate Chained(parts: seq<seq<Point>>) {
    && (forall k | 0 <= k < |parts| :: parts[k] != [])
    && forall k | 0 < k < |parts| :: Meet(parts[k - 1], parts[k])
  }

  // A cut in front of sample `index`, at fraction `at` of the route.
  datatype Cut = Cut(index: nat, at: real)

  // Wherever the route crosses on [lo, hi], `at` is that place up to half of
  // what fifty bisections leave of the interval.
  ghost predicate WellPlaced(f: Route, lo: real, hi: real, at: real) {
    forall c, closed | CrossesAt(f, lo, hi, c, closed) :: Abs(at - c) <= (hi - lo) / 1125899906842624.0 / 2.0
  }

  // The fraction of the route at which sample o is taken.
  function Fraction(n: nat, o: int): (x: real)
    requires n > 2
    ensures x * (n - 1) as real == o as real
  {
    1.0 / (n - 1) as real * o as real
  }

  function Samples(f: Route, n: nat): seq<Point>
    requires n > 2
  {
    seq(n, (o: nat) => f(Fraction(n, o)))
  }

  // Where a cut falls, which way the route leaves the map there, and its latitude.
  ghost predicate CutOff(f: Route, n: nat, cut: Cut, part: seq<Point>)
    requires n > 2
  {
    && 0 < cut.index < n
    && part != []
    && var d, h := f(Fraction(n, cut.index - 1)), f(Fraction(n, cut.index));
       && Jump(d, h)
       && part[|part| - 1] == Point(Edge(d), f(cut.at).lat)
       && WellPlaced(f, Fraction(n, cut.index - 1), Fraction(n, cut.index), cut.at)
  }

  ghost predicate Located(f: Route, n: nat, cuts: seq<Cut>, parts: seq<seq<Point>>)
    requires n > 2
  {
    |cuts| <= |parts| && forall k | 0 <= k < |cuts| :: CutOff(f, n, cuts[k], parts[k]) && InFront(cuts[k], parts, k)
  }

  // The parts up to index k hold the samples in front of the cut.
  ghost predicate InFront(cut: Cut, parts: seq<seq<Point>>, k: nat) {
    k < |parts| && cut.index == |Joined(parts[..k + 1])|
  }

  lemma LocatedStep(f: Route, n: nat, cuts: seq<Cut>, done: seq<seq<Point>>, cut: Cut, part: seq<Point>)
    requires n > 2 && |cuts| == |done| && Located(f, n, cuts, done) && CutOff(f, n, cut, part)
    requires cut.index == |Joined(done + [part])|
    ensures Located(f, n, cuts + [cut], done + [part])
  {
    LocatedLast(f, n, cuts, done, part);
    assert (done + [part])[..|done| + 1] == done + [part];
  }

  // A part that is not cut changes nothing.
  lemma LocatedLast(f: Route, n: nat, cuts: seq<Cut>, done: seq<seq<Point>>, part: seq<Point>)
    requires n > 2 && |cuts| == |done| && Located(f, n, cuts, done)
    ensures Located(f, n, cuts, done + [part])
  {
    forall k | 0 <= k < |cuts|
      ensures InFront(cuts[k], done + [part], k)
    {
      assert InFront(cuts[k], done, k);
      assert (done + [part])[..k + 1] == done[..k + 1];
    }
  }

  // The cut parts hold the samples in front of the cut.
  lemma SamplesBefore(s: seq<Point>, o: nat, done: seq<seq<Point>>, part: seq<Point>, p: Point)
    requires Cutting(s, o, done, part)
    ensures |Joined(done + [part + [p]])| == o
  {
    JoinedStep(done, part + [p]);
    assert SamplesBeforeCut(|done|, part + [p]) == SamplesIn(|done|, part);
  }

  // The side of the map on which the route leaves after the point d.
  function Edge(d: Point): real {
    if d.lon > 0.0 then 180.0 else -180.0
  }

  // The parts are the route s cut at its jumps.
  ghost predicate IsSplit(s: seq<Point>, parts: seq<seq<Point>>) {
    && Filled(parts)
    && (forall part | part in parts :: Tame(part))
    && Chained(parts)
    && |parts| == 1 + Jumps(s)
    && Restored(parts) == s
  }

  // The same with the last part still growing, after the samples s[..o].
  ghost predicate Cutting(s: seq<Point>, o: nat, done: seq<seq<Point>>, part: seq<Point>) {
    && 0 < o <= |s|
    && Shaped(done, part)
    && |done| == Jumps(s[..o])
    && Joined(done) + SamplesIn(|done|, part) == s[..o]
  }

  ghost predicate Shaped(done: seq<seq<Point>>, part: seq<Point>) {
    && Filled(done) && |part| > Opening(|done|)
    && (forall ended | ended in done :: Tame(ended)) && Tame(part)
    && Chained(done)
    && (done != [] ==> Meet(done[|done| - 1], part))
  }

  lemma JumpsStep(s: seq<Point>, o: nat)
    requires 0 < o < |s|
    ensures Jumps(s[..o + 1]) == Jumps(s[..o]) + if Jump(s[o - 1], s[o]) then 1 else 0
    ensures s[..o + 1] == s[..o] + [s[o]]
  {
    assert s[..o + 1][..o] == s[..o];
  }

  lemma LastPoint(s: seq<Point>, o: nat, done: seq<seq<Point>>, part: seq<Point>)
    requires Cutting(s, o, done, part)
    ensures part[|part| - 1] == s[o - 1]
  {
    assert s[o - 1] == s[..o][o - 1];
    var own := SamplesIn(|done|, part);
    assert own != [] && own[|own| - 1] == part[|part| - 1];
  }

  // The next sample joins the growing part when there is no jump.
  lemma Extend(s: seq<Point>, o: nat, done: seq<seq<Point>>, part: seq<Point>)
    requires Cutting(s, o, done, part) && o < |s| && !Jump(s[o - 1], s[o])
    ensures Cutting(s, o + 1, done, part + [s[o]])
  {
    JumpsStep(s, o);
    LastPoint(s, o, done, part);
    ExtendShape(done, part, s[o]);
    assert SamplesIn(|done|, part + [s[o]]) == SamplesIn(|done|, part) + [s[o]];
  }

  lemma ExtendShape(done: seq<seq<Point>>, part: seq<Point>, h: Point)
    requires Shaped(done, part) && !Jump(part[|part| - 1], h)
    ensures Shaped(done, part + [h])
  {
  }

  lemma ChainedStep(done: seq<seq<Point>>, part: seq<Point>)
    requires Filled(done) && |part| > Opening(|done|) && Chained(done)
    requires done != [] ==> Meet(done[|done| - 1], part)
    ensures Filled(done + [part]) && Chained(done + [part])
  {
    var parts := done + [part];
    forall k | 0 < k < |parts|
      ensures Meet(parts[k - 1], parts[k])
    {
      if k < |done| {
        assert Meet(done[k - 1], done[k]);
      }
    }
  }

  lemma JoinedStep(done: seq<seq<Point>>, part: seq<Point>)
    ensures Joined(done + [part]) == Joined(done) + SamplesBeforeCut(|done|, part)
    ensures Restored(done + [part]) == Joined(done) + SamplesIn(|done|, part)
  {
    assert (done + [part])[..|done|] == done;
  }

  lemma RouteContinues(done: seq<seq<Point>>, part: seq<Point>, so: seq<Point>, p: Point, q: Point, h: Point)
    requires |part| > Opening(|done|)
    requires Joined(done) + SamplesIn(|done|, part) == so
    ensures Joined(done + [part + [p]]) + SamplesIn(|done| + 1, [q, h]) == so + [h]
  {
    JoinedStep(done, part + [p]);
    assert SamplesBeforeCut(|done|, part + [p]) == SamplesIn(|done|, part);
    assert SamplesIn(|done| + 1, [q, h]) == [h];
  }

  // Neither inserted end makes a segment that spans more than half the map.
  lemma TameEnds(part: seq<Point>, h: Point, lat: real)
    requires part != [] && Tame(part) && Jump(part[|part| - 1], h)
    requires -180.0 <= part[|part| - 1].lon <= 180.0 && -180.0 <= h.lon <= 180.0
    ensures var edge := Edge(part[|part| - 1]);
            Tame(part + [Point(edge, lat)]) && Tame([Point(-edge, lat), h])
  {
  }

  lemma DivideShape(done: seq<seq<Point>>, part: seq<Point>, h: Point, lat: real)
    requires Shaped(done, part) && Jump(part[|part| - 1], h)
    requires -180.0 <= part[|part| - 1].lon <= 180.0 && -180.0 <= h.lon <= 180.0
    ensures var edge := Edge(part[|part| - 1]);
            Shaped(done + [part + [Point(edge, lat)]], [Point(-edge, lat), h])
  {
    TameEnds(part, h, lat);
    ChainedStep(done, part + [Point(Edge(part[|part| - 1]), lat)]);
  }

  // At a jump the part is closed at the map's edge and a new one opened on the
  // other side, at the same latitude.
  lemma Divide(s: seq<Point>, o: nat, done: seq<seq<Point>>, part: seq<Point>, lat: real)
    requires Cutting(s, o, done, part) && o < |s| && Jump(s[o - 1], s[o])
    requires forall p | p in s :: -180.0 <= p.lon <= 180.0
    ensures Cutting(s, o + 1, done + [part + [Point(Edge(s[o - 1]), lat)]],
                    [Point(-Edge(s[o - 1]), lat)] + [s[o]])
  {
    assert [Point(-Edge(s[o - 1]), lat)] + [s[o]] == [Point(-Edge(s[o - 1]), lat), s[o]];
    JumpsStep(s, o);
    LastPoint(s, o, done, part);
    DivideShape(done, part, s[o], lat);
    RouteContinues(done, part, s[..o], Point(Edge(s[o - 1]), lat), Point(-Edge(s[o - 1]), lat), s[o]);
  }

  lemma Finish(s: seq<Point>, done: seq<seq<Point>>, part: seq<Point>)
    requires Cutting(s, |s|, done, part)
    ensures IsSplit(s, done + [part])
  {
    ChainedStep(done, part);
    JoinedStep(done, part);
    assert s[..|s|] == s;
  }

  // The sampling loop of Arc.
  method Sample(f: Route, n: nat) returns (s: seq<Point>)
    requires n > 2
    ensures s == Samples(f, n)
  {
    s := [];
    for o := 0 to n
      invariant |s| == o
      invariant forall k: nat | k < o :: s[k] == f(Fraction(n, k))
    {
      s := s + [f(Fraction(n, o))];
    }
  }

  // The route starts at fraction 0 and ends at fraction 1 of the great circle, and
  // its samples are spaced evenly between.
  ghost predicate RunsThrough(f: Route, n: nat, parts: seq<seq<Point>>)
    requires n > 2
  {
    && Filled(parts) && parts != []
    && parts[0][0] == f(0.0)
    && parts[|parts| - 1][|parts[|parts| - 1]| - 1] == f(1.0)
    && |Restored(parts)| == n
    && forall o: nat | o < n :: Restored(parts)[o] == f(Fraction(n, o))
  }

  // GreatCircle.Arc: the route through n points, cut where it leaves the map.
  method Arc(f: Route, n: nat, start: Point, end: Point)
    returns (parts: seq<seq<Point>>, ghost cuts: seq<Cut>)
    requires OnMap(f)
    ensures n <= 2 ==> parts == [[start, end]] && cuts == []
    ensures n > 2 ==> IsSplit(Samples(f, n), parts) && RunsThrough(f, n, parts)
    ensures n > 2 ==> |cuts| == |parts| - 1 && Located(f, n, cuts, parts)
  {
    if n <= 2 {
      parts, cuts := [[start, end]], [];
      return;
    }
    var s := Sample(f, n);
    var done, part;
    done, part, cuts := Split(f, n, s);
    Finish(s, done, part);
    Ends(f, n, s, done, part);
    LocatedLast(f, n, cuts, done, part);
    parts := done + [part];
  }

  lemma Ends(f: Route, n: nat, s: seq<Point>, done: seq<seq<Point>>, part: seq<Point>)
    requires n > 2 && s == Samples(f, n)
    requires Cutting(s, n, done, part) && FirstPoint(done, part) == s[0] && IsSplit(s, done + [part])
    ensures RunsThrough(f, n, done + [part])
  {
    LastPoint(s, n, done, part);
    SampleEnds(f, n);
    assert Restored(done + [part]) == s;
    assert (done + [part])[|done|] == part;
  }

  lemma SampleEnds(f: Route, n: nat)
    requires n > 2
    ensures Samples(f, n)[0] == f(0.0) && Samples(f, n)[n - 1] == f(1.0)
  {
    SameFraction(Fraction(n, 0), 0.0, (n - 1) as real);
    SameFraction(Fraction(n, n - 1), 1.0, (n - 1) as real);
  }

  lemma SameFraction(a: real, b: real, p: real)
    requires p > 0.0 && a * p == b * p
    ensures a == b
  {
    assert (a - b) * p == 0.0;
  }

  function FirstPoint(done: seq<seq<Point>>, part: seq<Point>): Point
    requires part != [] && (done != [] ==> done[0] != [])
  {
    if done == [] then part[0] else done[0][0]
  }

  // The loop's state in front of sample o.
  ghost predicate Growing(
    f: Route, n: nat, s: seq<Point>, o: nat, done: seq<seq<Point>>, part: seq<Point>, cuts: seq<Cut>)
    requires n > 2
  {
    && Cutting(s, o, done, part) && FirstPoint(done, part) == s[0]
    && |cuts| == |done| && Located(f, n, cuts, done)
  }

  lemma CutStep(
    f: Route, n: nat, s: seq<Point>, o: nat, done: seq<seq<Point>>, part: seq<Point>, cuts: seq<Cut>,
    at: real, ended: seq<Point>)
    requires n > 2 && o < |s| && Growing(f, n, s, o, done, part, cuts) && Jump(s[o - 1], s[o])
    requires forall p | p in s :: -180.0 <= p.lon <= 180.0
    requires ended == part + [Point(Edge(s[o - 1]), f(at).lat)] && CutOff(f, n, Cut(o, at), ended)
    ensures Growing(f, n, s, o + 1, done + [ended], [Point(-Edge(s[o - 1]), f(at).lat)] + [s[o]], cuts + [Cut(o, at)])
  {
    SamplesBefore(s, o, done, part, Point(Edge(s[o - 1]), f(at).lat));
    LocatedStep(f, n, cuts, done, Cut(o, at), ended);
    Divide(s, o, done, part, f(at).lat);
  }

  // The splitting loop of Arc.
  method Split(f: Route, n: nat, s: seq<Point>)
    returns (done: seq<seq<Point>>, part: seq<Point>, ghost cuts: seq<Cut>)
    requires n > 2 && |s| == n
    requires forall o: nat | o < n :: s[o] == f(Fraction(n, o))
    requires forall p | p in s :: -180.0 <= p.lon <= 180.0
    ensures Growing(f, n, s, n, done, part, cuts)
  {
    done, part, cuts := [], [s[0]], [];
    assert s[..1] == [s[0]];
    for o := 1 to n
      invariant Growing(f, n, s, o, done, part, cuts)
    {
      var d, h := s[o - 1], s[o];
      if Jump(d, h) {
        var at, ended := CloseAt(f, n, o, part);
        CutStep(f, n, s, o, done, part, cuts, at, ended);
        done, cuts := done + [ended], cuts + [Cut(o, at)];
        part := [Point(if d.lon > 0.0 then -180.0 else 180.0, f(at).lat)];
      } else {
        Extend(s, o, done, part);
      }
      part := part + [h];
    }
  }

  // The bisection between two samples, and the part closed where it settles.
  method CloseAt(f: Route, n: nat, o: nat, part: seq<Point>) returns (at: real, ended: seq<Point>)
    requires n > 2 && 0 < o < n && Jump(f(Fraction(n, o - 1)), f(Fraction(n, o)))
    ensures ended == part + [Point(Edge(f(Fraction(n, o - 1))), f(at).lat)]
    ensures CutOff(f, n, Cut(o, at), ended)
  {
    var lo, hi := Fraction(n, o - 1), Fraction(n, o);
    FractionsGrow(n, o);
    var m, w := Bisect(f, lo, hi);
    at := (m + w) / 2.0;
    assert WellPlaced(f, lo, hi, at);
    ended := part + [Point(if f(lo).lon > 0.0 then 180.0 else -180.0, f(at).lat)];
  }

  lemma FractionsGrow(n: nat, o: nat)
    requires n > 2
    ensures Fraction(n, o - 1) < Fraction(n, o)
  {
    var r := 1.0 / (n - 1) as real;
    assert r > 0.0;
    assert r * o as real == r * (o - 1) as real + r;
  }

  // ---- Output shape ----

  datatype Geometry = NoCoordinates | LineString(line: seq<Point>) | MultiLineString(lines: seq<seq<Point>>)

  // Arc.json, before rounding.
  function Json(parts: seq<seq<Point>>): Geometry {
    if |parts| == 0 then NoCoordinates
    else if |parts| == 1 then LineString(parts[0])
    else MultiLineString(parts)
  }

  // A route comes out as one line exactly when no two consecutive samples lie
  // more than 180 degrees apart, and then it is the sampled route itself.
  lemma OneLineIffNoJump(s: seq<Point>, parts: seq<seq<Point>>)
    requires IsSplit(s, parts)
    ensures Json(parts).LineString? <==> Tame(s)
    ensures Tame(s) ==> Json(parts) == LineString(s)
    ensures !Tame(s) ==> Json(parts) == MultiLineString(parts)
  {
    NoJumpsMeansTame(s);
    if |parts| == 1 {
      assert Restored(parts) == Joined([]) + parts[0][0..];
    }
  }

  lemma {:induction false} NoJumpsMeansTame(s: seq<Point>)
    ensures Jumps(s) == 0 <==> Tame(s)
  {
    if |s| >= 2 {
      var init := s[..|s| - 1];
      NoJumpsMeansTame(init);
      if Tame(init) && !Jump(s[|s| - 2], s[|s| - 1]) {
        forall i | 0 < i < |s|
          ensures !Jump(s[i - 1], s[i])
        {
          if i < |s| - 1 {
            assert !Jump(init[i - 1], init[i]);
          }
        }
      }
      if Tame(s) {
        forall i | 0 < i < |init|
          ensures !Jump(init[i - 1], init[i])
        {
          assert !Jump(s[i - 1], s[i]);
        }
      }
    }
  }
}
