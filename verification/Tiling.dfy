/** The tile layout of the desktop page: one large tile, and a recursive halving of the remaining region.

    Lengths are reals; rounding is to the nearest whole number, halves up. The input is the ordered list of a
    workspace's tiles, the windows shown maximized, and the viewport.
 */
module Tiling {
  import opened Wrappers

  type Id = string

  datatype Rect = Rect(x: real, y: real, width: real, height: real)

  const GAP := 10.0
  const MIN_WIDTH := 240.0
  const MIN_HEIGHT := 180.0

  function Max(a: real, b: real): real { if a >= b then a else b }
  function Min(a: real, b: real): real { if a <= b then a else b }
  function Round(x: real): real { (x + 0.5).Floor as real }

  // ---------------------------------------------------------------------------------------------------------------
  // Splitting
  // ---------------------------------------------------------------------------------------------------------------

  function Share(length: real, ratio: real): real {
    Round(length * ratio)
  }

  function FirstLength(dimension: real, minimum: real, ratio: real): real {
    var length := Max(0.0, dimension - GAP);
    var least := Min(minimum, length / 2.0);
    Min(length - least, Max(least, Share(length, ratio)))
  }

  function Split(r: Rect, horizontal: bool, ratio: real): (Rect, Rect) {
    if horizontal then
      var first := FirstLength(r.width, MIN_WIDTH, ratio);
      (r.(width := first), r.(x := r.x + first + GAP, width := Max(0.0, r.width - GAP) - first))
    else
      var first := FirstLength(r.height, MIN_HEIGHT, ratio);
      (r.(height := first), r.(y := r.y + first + GAP, height := Max(0.0, r.height - GAP) - first))
  }

  /** Both parts of a length are at least the minimum, or half of what is left after the gap. */
  lemma FirstLengthIsWithin(dimension: real, minimum: real, ratio: real)
    requires minimum >= 0.0
    ensures var length := Max(0.0, dimension - GAP);
      Min(minimum, length / 2.0) <= FirstLength(dimension, minimum, ratio) <= length - Min(minimum, length / 2.0)
  {
  }

  // The nearest whole number; of two, the larger.
  predicate IsRounded(n: int, x: real) {
    x - 0.5 < n as real <= x + 0.5
  }

  lemma NotLess(a: int, b: int)
    requires a as real < b as real + 1.0
    ensures a <= b
  {
  }

  lemma RoundIs(n: int, x: real)
    requires IsRounded(n, x)
    ensures Round(x) == n as real
  {
    var k := (x + 0.5).Floor;
    assert k as real <= x + 0.5 < k as real + 1.0;
    NotLess(n, k);
    NotLess(k, n);
  }

  lemma ShareIs(length: real, ratio: real, share: int)
    requires IsRounded(share, length * ratio)
    ensures Share(length, ratio) == share as real
  {
    RoundIs(share, length * ratio);
  }

  /** The first part is the rounded share of the length without the gap, moved as far as needed for both parts to have the
      minimum, or half. */
  lemma FirstLengthIs(dimension: real, minimum: real, ratio: real, length: real, share: int)
    requires length == if dimension > 10.0 then dimension - 10.0 else 0.0
    requires minimum >= 0.0 && IsRounded(share, length * ratio)
    ensures var least := if minimum < length / 2.0 then minimum else length / 2.0;
      FirstLength(dimension, minimum, ratio)
        == if share as real < least then least else if share as real > length - least then length - least
           else share as real
  {
    ShareIs(length, ratio, share);
    assert Max(0.0, dimension - GAP) == length;
  }

  // The direction in which a region is divided.
  predicate Horizontal(r: Rect) {
    r.width >= MIN_WIDTH * 2.0 + GAP && (!(r.height >= MIN_HEIGHT * 2.0 + GAP) || r.width >= r.height)
  }

  function Halves(r: Rect): (Rect, Rect) {
    Split(r, Horizontal(r), 0.5)
  }

  // The larger half of a group of tiles goes first.
  function FirstHalf(n: nat): nat {
    (n + 1) / 2
  }

  // The places of n tiles in a region, in tile order.
  function Places(n: nat, r: Rect): (places: seq<Rect>)
    requires n > 0
    ensures |places| == n
  {
    if n == 1 then [r]
    else Places(FirstHalf(n), Halves(r).0) + Places(n - FirstHalf(n), Halves(r).1)
  }

  /** A region is divided beside each other if two parts of 240 and a gap fit into its width, unless two of 180 and a gap
      fit into its height and that is longer; otherwise one below the other. Both parts get the same length, up to
      rounding. */
  lemma HalvesAre(r: Rect)
    ensures var (a, b) := Halves(r);
      if r.width >= 490.0 && (r.height < 370.0 || r.width >= r.height) then
        && a == Rect(r.x, r.y, a.width, r.height) && b == Rect(r.x + a.width + 10.0, r.y, b.width, r.height)
        && a.width + b.width == r.width - 10.0 && -1.0 <= a.width - b.width <= 1.0
      else
        && a == Rect(r.x, r.y, r.width, a.height) && b == Rect(r.x, r.y + a.height + 10.0, r.width, b.height)
        && a.height + b.height == (if r.height > 10.0 then r.height - 10.0 else 0.0)
        && -1.0 <= a.height - b.height <= 1.0
  {
    var length := Max(0.0, (if Horizontal(r) then r.width else r.height) - GAP);
    assert length * 0.5 - 0.5 < Share(length, 0.5) <= length * 0.5 + 0.5;
  }

  /** One tile fills the region. Of more, the first half, with the odd one, fills the first part of the region and the
      others the second. */
  lemma PlacesAre(n: nat, r: Rect)
    requires n > 0
    ensures n == 1 ==> Places(n, r) == [r]
    ensures n > 1 ==>
      var second := n / 2;
      && Places(n, r)[..n - second] == Places(n - second, Halves(r).0)
      && Places(n, r)[n - second..] == Places(second, Halves(r).1)
  {
    if n > 1 {
      PlacesSplit(n, r);
      assert FirstHalf(n) == n - n / 2;
    }
  }

  // ---------------------------------------------------------------------------------------------------------------
  // Disjointness
  // ---------------------------------------------------------------------------------------------------------------

  predicate Interior(r: Rect, x: real, y: real) {
    r.x < x < r.x + r.width && r.y < y < r.y + r.height
  }

  ghost predicate Disjoint(a: Rect, b: Rect) {
    forall x: real, y: real :: !(Interior(a, x, y) && Interior(b, x, y))
  }

  predicate Proper(r: Rect) {
    r.width >= 0.0 && r.height >= 0.0
  }

  predicate Flat(r: Rect) {
    r.width == 0.0 || r.height == 0.0
  }

  predicate Inside(a: Rect, b: Rect) {
    b.x <= a.x && a.x + a.width <= b.x + b.width && b.y <= a.y && a.y + a.height <= b.y + b.height
  }

  // At least one gap between two rectangles, in some direction.
  predicate Apart(a: Rect, b: Rect) {
    || a.x + a.width + GAP <= b.x || b.x + b.width + GAP <= a.x
    || a.y + a.height + GAP <= b.y || b.y + b.height + GAP <= a.y
  }

  ghost predicate AllDisjoint(rects: seq<Rect>) {
    forall i, j :: 0 <= i < j < |rects| ==> Disjoint(rects[i], rects[j])
  }

  predicate AllApart(rects: seq<Rect>) {
    forall i, j :: 0 <= i < j < |rects| ==> Apart(rects[i], rects[j])
  }

  // Inside a region, or without an interior.
  predicate Confined(a: Rect, r: Rect) {
    Proper(a) && (Flat(a) || Inside(a, r))
  }

  predicate AllFlat(rects: seq<Rect>) {
    forall i :: 0 <= i < |rects| ==> Flat(rects[i])
  }

  predicate LongEnough(r: Rect, horizontal: bool) {
    (if horizontal then r.width else r.height) >= GAP
  }

  /** A split of a region at least one gap long keeps its parts inside and one gap apart, and loses no length. */
  lemma SplitIsExact(r: Rect, horizontal: bool, ratio: real)
    requires Proper(r) && LongEnough(r, horizontal)
    ensures var (a, b) := Split(r, horizontal, ratio);
      && Proper(a) && Proper(b) && Inside(a, r) && Inside(b, r) && Apart(a, b)
      && (if horizontal then a.width + GAP + b.width == r.width && a.height == b.height == r.height
          else a.height + GAP + b.height == r.height && a.width == b.width == r.width)
  {
    FirstLengthIsWithin(r.width, MIN_WIDTH, ratio);
    FirstLengthIsWithin(r.height, MIN_HEIGHT, ratio);
  }

  // Whatever the region, the parts are proper; of a region too short for a gap nothing but flat parts is left.
  lemma SplitIsProper(r: Rect, horizontal: bool, ratio: real)
    requires Proper(r)
    ensures var (a, b) := Split(r, horizontal, ratio);
      && Proper(a) && Proper(b)
      && (Flat(r) || !LongEnough(r, horizontal) ==> Flat(a) && Flat(b))
  {
    FirstLengthIsWithin(r.width, MIN_WIDTH, ratio);
    FirstLengthIsWithin(r.height, MIN_HEIGHT, ratio);
  }

  lemma FlatIsDisjoint(a: Rect, b: Rect)
    requires Proper(a) && Flat(a)
    ensures Disjoint(a, b) && Disjoint(b, a)
  {
  }

  lemma InsideApartIsDisjoint(a: Rect, b: Rect, p: Rect, q: Rect)
    requires Apart(p, q) && Inside(a, p) && Inside(b, q)
    ensures Disjoint(a, b)
  {
    forall x: real, y: real
      ensures !(Interior(a, x, y) && Interior(b, x, y))
    {
      assert Interior(a, x, y) ==> Interior(p, x, y);
      assert Interior(b, x, y) ==> Interior(q, x, y);
    }
  }

  lemma {:induction false} FlatPlaces(n: nat, r: Rect)
    requires n > 0 && Proper(r) && Flat(r)
    ensures AllFlat(Places(n, r))
  {
    if n > 1 {
      SplitIsProper(r, Horizontal(r), 0.5);
      FlatPlaces(FirstHalf(n), Halves(r).0);
      FlatPlaces(n - FirstHalf(n), Halves(r).1);
    }
  }

  lemma {:induction false} PlacesAreDisjoint(n: nat, r: Rect)
    requires n > 0 && Proper(r)
    ensures forall i :: 0 <= i < n ==> Confined(Places(n, r)[i], r)
    ensures AllDisjoint(Places(n, r))
  {
    if n > 1 {
      var (a, b) := Halves(r);
      var m := FirstHalf(n);
      SplitIsProper(r, Horizontal(r), 0.5);
      var left, right := Places(m, a), Places(n - m, b);
      PlacesAreDisjoint(m, a);
      PlacesAreDisjoint(n - m, b);
      HalvesAreConfined(n, r);
      CrossDisjoint(left, right, a, b);
      CrossConfined(left, right, a, b, r);
      assert Places(n, r) == left + right;
    }
  }

  lemma CrossConfined(left: seq<Rect>, right: seq<Rect>, a: Rect, b: Rect, r: Rect)
    requires forall i :: 0 <= i < |left| ==> Confined(left[i], a)
    requires forall i :: 0 <= i < |right| ==> Confined(right[i], b)
    requires (Inside(a, r) && Inside(b, r)) || (AllFlat(left) && AllFlat(right))
    ensures forall i :: 0 <= i < |left + right| ==> Confined((left + right)[i], r)
  {
  }

  // The halves of a region are apart, or everything placed in them is flat.
  lemma HalvesAreConfined(n: nat, r: Rect)
    requires n > 1 && Proper(r)
    ensures var (a, b) := Halves(r);
      if LongEnough(r, Horizontal(r)) then Apart(a, b) && Inside(a, r) && Inside(b, r)
      else
        AllFlat(Places(FirstHalf(n), a)) && AllFlat(Places(n - FirstHalf(n), b))
  {
    var (a, b) := Halves(r);
    SplitIsProper(r, Horizontal(r), 0.5);
    if LongEnough(r, Horizontal(r)) {
      SplitIsExact(r, Horizontal(r), 0.5);
    } else {
      FlatPlaces(FirstHalf(n), a);
      FlatPlaces(n - FirstHalf(n), b);
    }
  }

  // Places confined to the two parts of a split do not meet across the parts.
  lemma CrossDisjoint(left: seq<Rect>, right: seq<Rect>, a: Rect, b: Rect)
    requires forall i :: 0 <= i < |left| ==> Confined(left[i], a)
    requires forall i :: 0 <= i < |right| ==> Confined(right[i], b)
    requires Apart(a, b) || AllFlat(left)
    requires AllDisjoint(left) && AllDisjoint(right)
    ensures AllDisjoint(left + right)
  {
    var all := left + right;
    forall i, j | 0 <= i < j < |all|
      ensures Disjoint(all[i], all[j])
    {
      if j < |left| || i >= |left| {
        assert i >= |left| ==> Disjoint(right[i - |left|], right[j - |left|]);
      } else if Flat(all[i]) {
        FlatIsDisjoint(all[i], all[j]);
      } else if Flat(all[j]) {
        FlatIsDisjoint(all[j], all[i]);
      } else {
        InsideApartIsDisjoint(all[i], all[j], a, b);
      }
    }
  }

  // Every region that is split is at least one gap long in its split direction.
  predicate SplitsFit(n: nat, r: Rect)
    requires n > 0
  {
    n == 1 ||
    (LongEnough(r, Horizontal(r)) && SplitsFit(FirstHalf(n), Halves(r).0) && SplitsFit(n - FirstHalf(n), Halves(r).1))
  }

  lemma InsideTrans(a: Rect, b: Rect, c: Rect)
    requires Inside(a, b) && Inside(b, c)
    ensures Inside(a, c)
  {
  }

  lemma InsideApart(a: Rect, b: Rect, p: Rect, q: Rect)
    requires Apart(p, q) && Inside(a, p) && Inside(b, q)
    ensures Apart(a, b)
  {
  }

  lemma {:induction false} PlacesAreApart(n: nat, r: Rect)
    requires n > 0 && Proper(r) && SplitsFit(n, r)
    ensures forall i :: 0 <= i < n ==> Inside(Places(n, r)[i], r)
    ensures AllApart(Places(n, r))
  {
    if n > 1 {
      var (a, b) := Halves(r);
      var m := FirstHalf(n);
      var left, right := Places(m, a), Places(n - m, b);
      SplitIsExact(r, Horizontal(r), 0.5);
      PlacesAreApart(m, a);
      PlacesAreApart(n - m, b);
      CrossApart(left, right, a, b, r);
    }
  }

  lemma CrossApart(left: seq<Rect>, right: seq<Rect>, a: Rect, b: Rect, r: Rect)
    requires (forall i :: 0 <= i < |left| ==> Inside(left[i], a)) && (forall i :: 0 <= i < |right| ==> Inside(right[i], b))
    requires Apart(a, b) && Inside(a, r) && Inside(b, r) && AllApart(left) && AllApart(right)
    ensures AllApart(left + right) && forall i :: 0 <= i < |left + right| ==> Inside((left + right)[i], r)
  {
    var all := left + right;
    forall i | 0 <= i < |all|
      ensures Inside(all[i], r)
    {
      InsideTrans(all[i], if i < |left| then a else b, r);
    }
    forall i, j | 0 <= i < j < |all|
      ensures Apart(all[i], all[j])
    {
      if j < |left| || i >= |left| {
        assert i >= |left| ==> Apart(right[i - |left|], right[j - |left|]);
      } else {
        InsideApart(all[i], all[j], a, b);
      }
    }
  }

  // ---------------------------------------------------------------------------------------------------------------
  // The layout of a workspace
  // ---------------------------------------------------------------------------------------------------------------

  function Area(width: real, height: real): Rect {
    Rect(10.0, 46.0, Max(0.0, width - 20.0), Max(0.0, height - 94.0))
  }

  // A ratio that is no finite number counts as one half.
  function SafeRatio(ratio: Option<real>): real {
    if ratio.None? then 0.5 else Max(0.3, Min(0.7, ratio.value))
  }

  function StackHeight(n: nat, area: Rect): real {
    Max(300.0, (area.height - GAP * (n as real - 1.0)) / (if n == 0 then 1.0 else n as real))
  }

  // How far below the top of a stack its i-th tile starts.
  function Offset(i: nat, height: real): real {
    i as real * (height + GAP)
  }

  function StackPlaces(n: nat, area: Rect): (places: seq<Rect>)
    ensures |places| == n
  {
    var height := StackHeight(n, area);
    seq(n, i requires 0 <= i < n => area.(y := area.y + Offset(i, height), height := height))
  }

  function Single(id: Id, area: Rect, width: real, height: real): Rect {
    var w := if id == "welcome" then Min(area.width, Max(760.0, Round(width * 0.5)))
             else if width >= 1200.0 then Round(area.width * 0.7) else area.width;
    var h := if id == "welcome" then Min(area.height, Max(660.0, Round(height * 0.48))) else area.height;
    Rect(area.x + (area.width - w) / 2.0, area.y + (area.height - h) / 2.0, w, h)
  }

  // The places of the tiles of a workspace, before any window is maximized.
  function TilePlaces(tiles: seq<Id>, width: real, height: real, ratio: Option<real>): (places: seq<Rect>)
    ensures |places| == |tiles|
  {
    var area, n := Area(width, height), |tiles|;
    if width < 760.0 then StackPlaces(n, area)
    else if n == 0 then []
    else if n == 1 then [Single(tiles[0], area, width, height)]
    else
      var (first, rest) := Split(area, true, SafeRatio(ratio));
      [first] + Places(n - 1, rest)
  }

  /** The area leaves 10 at the sides, 46 above and 48 below. */
  lemma AreaIs(width: real, height: real)
    ensures var area := Area(width, height);
      && area.x == 10.0 && area.y == 46.0
      && (if width >= 20.0 then area.x + area.width == width - 10.0 else area.width == 0.0)
      && (if height >= 94.0 then area.y + area.height == height - 48.0 else area.height == 0.0)
  {
  }

  // The ratio that counts: between 0.3 and 0.7, and one half if none is given.
  predicate IsRatio(given: Option<real>, ratio: real) {
    if given == None then ratio == 0.5
    else if given.value < 0.3 then ratio == 0.3
    else if given.value > 0.7 then ratio == 0.7
    else ratio == given.value
  }

  /** On a wide viewport the first of several tiles has the left share of the area in its whole height, and the others
      divide the rest, 10 beside it. */
  lemma FirstTileIsLeft(tiles: seq<Id>, width: real, height: real, given: Option<real>, ratio: real)
    requires width >= 760.0 && |tiles| > 1 && IsRatio(given, ratio)
    ensures var area, places := Area(width, height), TilePlaces(tiles, width, height, given);
      var first := FirstLength(area.width, 240.0, ratio);
      && places[0] == Rect(area.x, area.y, first, area.height)
      && places[1..] == Places(|tiles| - 1, Rect(area.x + first + 10.0, area.y, area.width - 10.0 - first, area.height))
  {
    var area := Area(width, height);
    var (first, rest) := Split(area, true, ratio);
    assert SafeRatio(given) == ratio;
    assert TilePlaces(tiles, width, height, given) == [first] + Places(|tiles| - 1, rest);
  }

  /** A single tile is in the middle of the area. The welcome is half as wide as the viewport and 48 percent as high, but
      at least 760 by 660 where the area allows; another one is as high as the area and, from 1200 on, 70 percent as
      wide. */
  lemma SingleIs(id: Id, width: real, height: real, given: Option<real>, half: int, lower: int, share: int)
    requires width >= 760.0 && IsRounded(half, width * 0.5) && IsRounded(lower, height * 0.48)
    requires IsRounded(share, Area(width, height).width * 0.7)
    ensures var area, r := Area(width, height), TilePlaces([id], width, height, given)[0];
      && r.x - area.x == area.x + area.width - (r.x + r.width)
      && r.y - area.y == area.y + area.height - (r.y + r.height)
      && (id == "welcome" ==>
            && r.width == Min(area.width, if half > 760 then half as real else 760.0)
            && r.height == Min(area.height, if lower > 660 then lower as real else 660.0))
      && (id != "welcome" ==>
            r.height == area.height && r.width == if width < 1200.0 then area.width else share as real)
  {
    RoundIs(half, width * 0.5);
    RoundIs(lower, height * 0.48);
    RoundIs(share, Area(width, height).width * 0.7);
  }

  /** On a narrow viewport the tiles are one below the other, as wide as the area and all of one height: that at which
      they fill the area, but at least 300. */
  lemma StackIs(tiles: seq<Id>, width: real, height: real, given: Option<real>, i: nat)
    requires width < 760.0 && i < |tiles|
    ensures var area, n, places := Area(width, height), |tiles| as real, TilePlaces(tiles, width, height, given);
      && places[i] == Rect(area.x, area.y + i as real * (places[0].height + 10.0), area.width, places[0].height)
      && places[0].height >= 300.0 && n * places[0].height + (n - 1.0) * 10.0 >= area.height
      && (places[0].height > 300.0 ==> n * places[0].height + (n - 1.0) * 10.0 == area.height)
  {
    var area, n := Area(width, height), |tiles| as real;
    EqualShare(area.height - GAP * (n - 1.0), n);
  }

  lemma EqualShare(length: real, n: real)
    requires n > 0.0
    ensures n * (length / n) == length
    ensures length / n <= 300.0 ==> length <= n * 300.0
  {
  }

  // The record that a list of tiles and their places fills.
  function Assigned(tiles: seq<Id>, places: seq<Rect>): map<Id, Rect>
    requires |tiles| == |places|
  {
    if tiles == [] then map[]
    else Assigned(tiles[..|tiles| - 1], places[..|tiles| - 1])[tiles[|tiles| - 1] := places[|tiles| - 1]]
  }

  predicate Distinct(tiles: seq<Id>) {
    forall i, j :: 0 <= i < j < |tiles| ==> tiles[i] != tiles[j]
  }

  lemma {:induction false} AssignedAppend(a: seq<Id>, p: seq<Rect>, b: seq<Id>, q: seq<Rect>)
    requires |a| == |p| && |b| == |q|
    ensures Assigned(a + b, p + q) == Assigned(a, p) + Assigned(b, q)
  {
    if b == [] {
      assert a + b == a && p + q == p;
    } else {
      var n := |b| - 1;
      assert (a + b)[..|a + b| - 1] == a + b[..n] && (p + q)[..|a + b| - 1] == p + q[..n];
      AssignedAppend(a, p, b[..n], q[..n]);
    }
  }

  lemma {:induction false} AssignedAt(tiles: seq<Id>, places: seq<Rect>)
    requires |tiles| == |places| && Distinct(tiles)
    ensures Assigned(tiles, places).Keys == set id | id in tiles
    ensures forall i :: 0 <= i < |tiles| ==> Assigned(tiles, places)[tiles[i]] == places[i]
  {
    if tiles != [] {
      var n := |tiles| - 1;
      AssignedAt(tiles[..n], places[..n]);
      AssignLast(tiles[..n], places[..n], Assigned(tiles[..n], places[..n]), tiles[n], places[n]);
      assert tiles == tiles[..n] + [tiles[n]] && places == places[..n] + [places[n]];
    }
  }

  lemma AssignLast(tiles: seq<Id>, places: seq<Rect>, known: map<Id, Rect>, id: Id, place: Rect)
    requires |tiles| == |places| && id !in tiles
    requires known.Keys == set t | t in tiles
    requires forall i :: 0 <= i < |tiles| ==> known[tiles[i]] == places[i]
    ensures var next, all, at := known[id := place], tiles + [id], places + [place];
      next.Keys == (set t | t in all) && forall i :: 0 <= i < |all| ==> next[all[i]] == at[i]
  {
    assert forall t :: t in tiles + [id] <==> t in tiles || t == id;
  }

  lemma AssignedOne(id: Id, r: Rect)
    ensures Assigned([id], [r]) == map[id := r]
  {
    assert [id][..0] == [] && [r][..0] == [];
  }

  lemma PlusAssociates(a: map<Id, Rect>, b: map<Id, Rect>, c: map<Id, Rect>)
    ensures a + b + c == a + (b + c)
  {
  }

  lemma PlacesSplit(n: nat, r: Rect)
    requires n > 1
    ensures Places(n, r) == Places(FirstHalf(n), Halves(r).0) + Places(n - FirstHalf(n), Halves(r).1)
  {
  }

  method Divide(r: Rect) returns (first: Rect, second: Rect)
    ensures (first, second) == Halves(r)
  {
    var horizontalRoom := r.width >= MIN_WIDTH * 2.0 + GAP;
    var verticalRoom := r.height >= MIN_HEIGHT * 2.0 + GAP;
    var horizontal := horizontalRoom && (!verticalRoom || r.width >= r.height);
    var parts := Split(r, horizontal, 0.5);
    first, second := parts.0, parts.1;
  }

  method Partition(group: seq<Id>, r: Rect, before: map<Id, Rect>) returns (result: map<Id, Rect>)
    requires |group| > 0
    ensures result == before + Assigned(group, Places(|group|, r))
    decreases |group|
  {
    if |group| == 1 {
      AssignedOne(group[0], r);
      assert group == [group[0]];
      return before[group[0] := r];
    }
    var first, second := Divide(r);
    var half := (|group| + 1) / 2;
    ghost var left, right := Places(half, first), Places(|group| - half, second);
    PlacesSplit(|group|, r);
    result := Partition(group[..half], first, before);
    assert result == before + Assigned(group[..half], left);
    result := Partition(group[half..], second, result);
    assert result == before + Assigned(group[..half], left) + Assigned(group[half..], right);
    AssignedSplit(before, group, half, left, right);
  }

  lemma AssignedSplit(before: map<Id, Rect>, group: seq<Id>, half: nat, left: seq<Rect>, right: seq<Rect>)
    requires half <= |group| && |left| == half && |right| == |group| - half
    ensures before + Assigned(group[..half], left) + Assigned(group[half..], right)
         == before + Assigned(group, left + right)
  {
    AssignedAppend(group[..half], left, group[half..], right);
    assert group == group[..half] + group[half..];
    PlusAssociates(before, Assigned(group[..half], left), Assigned(group[half..], right));
  }

  method Stack(tiles: seq<Id>, area: Rect) returns (result: map<Id, Rect>)
    ensures result == Assigned(tiles, StackPlaces(|tiles|, area))
  {
    ghost var places := StackPlaces(|tiles|, area);
    var height := StackHeight(|tiles|, area);
    result := map[];
    for index := 0 to |tiles|
      invariant result == Assigned(tiles[..index], places[..index])
    {
      assert tiles[..index + 1][..index] == tiles[..index] && places[..index + 1][..index] == places[..index];
      result := result[tiles[index] := area.(y := area.y + Offset(index, height), height := height)];
    }
    assert tiles[..|tiles|] == tiles && places[..|tiles|] == places;
  }

  method Maximize(maximized: set<Id>, area: Rect, before: map<Id, Rect>) returns (result: map<Id, Rect>)
    ensures result == before + map id | id in maximized :: area
  {
    result := before;
    var left := maximized;
    while left != {}
      invariant left <= maximized
      invariant result == before + map id | id in maximized - left :: area
      decreases |left|
    {
      var id :| id in left;
      left := left - {id};
      result := result[id := area];
    }
    assert maximized - {} == maximized;
  }

  /** The layout: every tile gets its place, then every maximized window the whole area. */
  method LayoutWorkspace(tiles: seq<Id>, maximized: set<Id>, width: real, height: real, ratio: Option<real>)
    returns (result: map<Id, Rect>)
    ensures result == Assigned(tiles, TilePlaces(tiles, width, height, ratio))
                    + map id | id in maximized :: Area(width, height)
  {
    var area := Area(width, height);
    result := map[];
    if width < 760.0 {
      result := Stack(tiles, area);
    } else if |tiles| == 1 {
      result := result[tiles[0] := Single(tiles[0], area, width, height)];
      AssignedOne(tiles[0], Single(tiles[0], area, width, height));
      assert tiles == [tiles[0]];
    } else if |tiles| > 1 {
      var (first, rest) := Split(area, true, SafeRatio(ratio));
      result := result[tiles[0] := first];
      result := Partition(tiles[1..], rest, result);
      FirstTile(tiles, first, Places(|tiles| - 1, rest));
    }
    result := Maximize(maximized, area, result);
  }

  lemma FirstTile(tiles: seq<Id>, first: Rect, rest: seq<Rect>)
    requires |tiles| == |rest| + 1
    ensures Assigned(tiles, [first] + rest) == map[tiles[0] := first] + Assigned(tiles[1..], rest)
  {
    AssignedOne(tiles[0], first);
    AssignedAppend([tiles[0]], [first], tiles[1..], rest);
    assert tiles == [tiles[0]] + tiles[1..];
  }

  lemma SingleIsInside(id: Id, width: real, height: real)
    requires width >= 760.0
    ensures Inside(Single(id, Area(width, height), width, height), Area(width, height))
    ensures Proper(Single(id, Area(width, height), width, height))
  {
    var area := Area(width, height);
    assert area.width * 0.7 + 0.5 <= area.width;
  }

  lemma RestIsDisjoint(n: nat, first: Rect, rest: Rect, area: Rect)
    requires n > 0 && Proper(first) && Proper(rest)
    requires Apart(first, rest) && Inside(first, area) && Inside(rest, area)
    ensures AllDisjoint([first] + Places(n, rest))
    ensures forall i :: 0 <= i <= n ==> Confined(([first] + Places(n, rest))[i], area)
  {
    PlacesAreDisjoint(n, rest);
    CrossDisjoint([first], Places(n, rest), first, rest);
    CrossConfined([first], Places(n, rest), first, rest, area);
  }

  lemma RestIsApart(n: nat, first: Rect, rest: Rect, area: Rect)
    requires n > 0 && Proper(first) && Proper(rest) && SplitsFit(n, rest)
    requires Apart(first, rest) && Inside(first, area) && Inside(rest, area)
    ensures AllApart([first] + Places(n, rest))
    ensures forall i :: 0 <= i <= n ==> Inside(([first] + Places(n, rest))[i], area)
  {
    PlacesAreApart(n, rest);
    CrossApart([first], Places(n, rest), first, rest, area);
  }

  /** On a viewport at least 760 wide the places of any number of tiles have pairwise disjoint interiors. */
  lemma TilesAreDisjoint(tiles: seq<Id>, width: real, height: real, ratio: Option<real>)
    requires width >= 760.0
    ensures var places := TilePlaces(tiles, width, height, ratio);
      AllDisjoint(places) && forall i :: 0 <= i < |tiles| ==> Confined(places[i], Area(width, height))
  {
    var area, n := Area(width, height), |tiles|;
    if n == 1 {
      SingleIsInside(tiles[0], width, height);
    } else if n > 1 {
      var (first, rest) := Split(area, true, SafeRatio(ratio));
      SplitIsExact(area, true, SafeRatio(ratio));
      RestIsDisjoint(n - 1, first, rest, area);
    }
  }

  lemma OneTileIsInside(tiles: seq<Id>, width: real, height: real, ratio: Option<real>)
    requires width >= 760.0 && |tiles| == 1
    ensures Inside(TilePlaces(tiles, width, height, ratio)[0], Area(width, height))
  {
    SingleIsInside(tiles[0], width, height);
  }

  lemma ManyTilesAreApart(tiles: seq<Id>, width: real, height: real, ratio: Option<real>, first: Rect, rest: Rect)
    requires width >= 760.0 && |tiles| > 1
    requires (first, rest) == Split(Area(width, height), true, SafeRatio(ratio)) && SplitsFit(|tiles| - 1, rest)
    ensures var places := TilePlaces(tiles, width, height, ratio);
      AllApart(places) && forall i :: 0 <= i < |tiles| ==> Inside(places[i], Area(width, height))
  {
    SplitIsExact(Area(width, height), true, SafeRatio(ratio));
    RestIsApart(|tiles| - 1, first, rest, Area(width, height));
  }

  /** While every split region is at least one gap long, all tiles lie in the area, at least one gap apart. */
  lemma TilesAreApart(tiles: seq<Id>, width: real, height: real, ratio: Option<real>)
    requires width >= 760.0
    requires |tiles| > 1 ==> SplitsFit(|tiles| - 1, Split(Area(width, height), true, SafeRatio(ratio)).1)
    ensures var places := TilePlaces(tiles, width, height, ratio);
      AllApart(places) && forall i :: 0 <= i < |tiles| ==> Inside(places[i], Area(width, height))
  {
    if |tiles| == 1 {
      OneTileIsInside(tiles, width, height, ratio);
    } else if |tiles| > 1 {
      var parts := Split(Area(width, height), true, SafeRatio(ratio));
      ManyTilesAreApart(tiles, width, height, ratio, parts.0, parts.1);
    }
  }

  /** On a narrower viewport the tiles form a stack with one gap between neighbours. */
  lemma StackIsApart(tiles: seq<Id>, width: real, height: real, ratio: Option<real>)
    requires width < 760.0
    ensures AllApart(TilePlaces(tiles, width, height, ratio))
  {
    var area, n := Area(width, height), |tiles|;
    var h, places := StackHeight(n, area), TilePlaces(tiles, width, height, ratio);
    forall i, j | 0 <= i < j < n
      ensures Apart(places[i], places[j])
    {
      Spacing(i, j, h);
    }
  }

  lemma {:induction false} Spacing(i: nat, j: nat, height: real)
    requires i < j && height >= 0.0
    ensures Offset(i, height) + height + GAP <= Offset(j, height)
  {
    assert Offset(j, height) == Offset(j - 1, height) + (height + GAP);
    if i < j - 1 {
      Spacing(i, j - 1, height);
    }
  }

  /** In the layout every tile and every maximized window has exactly one rectangle, and two tiles that are not
      maximized never overlap. */
  lemma LayoutIsSound(tiles: seq<Id>, maximized: set<Id>, width: real, height: real, ratio: Option<real>, i: nat, j: nat)
    requires width >= 760.0 && Distinct(tiles) && i < j < |tiles|
    requires tiles[i] !in maximized && tiles[j] !in maximized
    ensures var result := Assigned(tiles, TilePlaces(tiles, width, height, ratio))
                        + map id | id in maximized :: Area(width, height);
      && result.Keys == (set id | id in tiles) + maximized
      && Disjoint(result[tiles[i]], result[tiles[j]])
  {
    var places := TilePlaces(tiles, width, height, ratio);
    AssignedAt(tiles, places);
    TilesAreDisjoint(tiles, width, height, ratio);
    assert Disjoint(places[i], places[j]);
  }
}
