/** Slices of a timeline: closed ranges and single events in order, cut to a window by binary
    search, and the boxes of the legend above it. */
module Timeline {

  datatype Range = Range(start: real, end: real)

  /** Sorted and strictly disjoint. */
  ghost predicate Separated(rs: seq<Range>) {
    && (forall i :: 0 <= i < |rs| ==> rs[i].start <= rs[i].end)
    && forall i, j :: 0 <= i < j < |rs| ==> rs[i].end < rs[j].start
  }

  predicate Contains(r: Range, key: real) {
    r.start <= key <= r.end
  }

  predicate Meets(r: Range, start: real, end: real) {
    r.start <= end && start <= r.end
  }

  /** The index of the range that contains the key, or -1. */
  method SearchRange(ranges: seq<Range>, key: real) returns (r: int)
    requires Separated(ranges)
    ensures -1 <= r < |ranges|
    ensures r >= 0 ==> Contains(ranges[r], key)
    ensures forall i :: 0 <= i < |ranges| && Contains(ranges[i], key) ==> i == r
  {
    var l, u := 0, |ranges| - 1;
    while l <= u
      invariant 0 <= l <= u + 1 <= |ranges|
      invariant forall i :: 0 <= i < l ==> ranges[i].end < key
      invariant forall i :: u < i < |ranges| ==> key < ranges[i].start
    {
      var i := (l + u) / 2;
      if key >= ranges[i].start && key <= ranges[i].end {
        return i;
      } else if key < ranges[i].start {
        u := i - 1;
      } else {
        l := i + 1;
      }
    }
    return -1;
  }

  /** Whether the key lies in some range, and in which. */
  ghost predicate Found(ranges: seq<Range>, key: real, s: int) {
    if s == -1 then forall i :: 0 <= i < |ranges| ==> !Contains(ranges[i], key)
    else 0 <= s < |ranges| && Contains(ranges[s], key)
  }

  /** The bounds of the slice for given search results. */
  function Bounds(n: nat, s: int, e: int): (int, int) {
    if s == -1 && e == -1 then (0, 0)
    else if s == -1 then (0, e + 1)
    else if e == -1 then (s, n)
    else (s, e + 1)
  }

  ghost predicate InSlice(b: (int, int), i: int) {
    b.0 <= i < b.1
  }

  /** The slice is exactly the ranges that meet the window. */
  ghost predicate Exact(ranges: seq<Range>, start: real, end: real, b: (int, int)) {
    forall i :: 0 <= i < |ranges| ==> (InSlice(b, i) <==> Meets(ranges[i], start, end))
  }

  ghost predicate Covers(ranges: seq<Range>, start: real, end: real, b: (int, int)) {
    forall i :: 0 <= i < |ranges| && Meets(ranges[i], start, end) ==> InSlice(b, i)
  }

  /** Some range lies between the ends of the window and touches neither. */
  ghost predicate Encloses(ranges: seq<Range>, start: real, end: real) {
    exists i :: 0 <= i < |ranges| && start < ranges[i].start && ranges[i].end < end
  }

  /** The key lies in some range. */
  ghost predicate InSome(ranges: seq<Range>, key: real) {
    exists i :: 0 <= i < |ranges| && Contains(ranges[i], key)
  }

  method GetRangesBounds(ranges: seq<Range>, start: real, end: real) returns (lo: int, hi: int)
    requires Separated(ranges)
    ensures exists s, e :: Found(ranges, start, s) && Found(ranges, end, e) && (lo, hi) == Bounds(|ranges|, s, e)
    ensures Covers(ranges, start, end, (lo, hi))
            <==> InSome(ranges, start) || InSome(ranges, end) || !Encloses(ranges, start, end)
    ensures InSome(ranges, start) && InSome(ranges, end) ==> Exact(ranges, start, end, (lo, hi))
  {
    var s := SearchRange(ranges, start);
    var e := SearchRange(ranges, end);
    assert Found(ranges, start, s) && Found(ranges, end, e);
    CoversIff(ranges, start, end, s, e);
    ExactIff(ranges, start, end, s, e);
    if s == -1 && e == -1 {
      return 0, 0;
    } else if s == -1 {
      return 0, e + 1;
    } else if e == -1 {
      return s, |ranges|;
    } else {
      return s, e + 1;
    }
  }

  /** The list slice of the same bounds; empty when they cross.  It holds every range that meets
      the window exactly when the bounds cover them, and only those when both ends are in ranges. */
  method GetRanges(ranges: seq<Range>, start: real, end: real) returns (r: seq<Range>)
    requires Separated(ranges)
    ensures exists s, e :: Found(ranges, start, s) && Found(ranges, end, e)
              && var b := Bounds(|ranges|, s, e); r == if b.0 <= b.1 then ranges[b.0..b.1] else []
    ensures (forall x :: x in ranges && Meets(x, start, end) ==> x in r)
            <==> InSome(ranges, start) || InSome(ranges, end) || !Encloses(ranges, start, end)
    ensures InSome(ranges, start) && InSome(ranges, end) ==> forall x :: x in r ==> Meets(x, start, end)
  {
    var s := SearchRange(ranges, start);
    var e := SearchRange(ranges, end);
    assert Found(ranges, start, s) && Found(ranges, end, e);
    CoversIff(ranges, start, end, s, e);
    ExactIff(ranges, start, end, s, e);
    SliceMembers(ranges, Bounds(|ranges|, s, e), start, end);
    if s == -1 && e == -1 {
      return [];
    } else if s == -1 {
      return ranges[0..e + 1];
    } else if e == -1 {
      return ranges[s..];
    } else {
      return if s <= e + 1 then ranges[s..e + 1] else [];
    }
  }

  /** What the bounds say of the positions, said of the ranges in the slice. */
  lemma SliceMembers(ranges: seq<Range>, b: (int, int), start: real, end: real)
    requires Separated(ranges) && 0 <= b.0 <= |ranges| && 0 <= b.1 <= |ranges|
    ensures var r := if b.0 <= b.1 then ranges[b.0..b.1] else [];
      && ((forall x :: x in ranges && Meets(x, start, end) ==> x in r) <==> Covers(ranges, start, end, b))
      && (Exact(ranges, start, end, b) ==> forall x :: x in r ==> Meets(x, start, end))
  {
    var r := if b.0 <= b.1 then ranges[b.0..b.1] else [];
    forall i | 0 <= i < |ranges| ensures ranges[i] in r <==> InSlice(b, i) {
      if InSlice(b, i) { assert r[i - b.0] == ranges[i]; }
      if ranges[i] in r {
        var k :| 0 <= k < |r| && r[k] == ranges[i];
        assert ranges[b.0 + k] == ranges[i];
      }
    }
    if forall x :: x in ranges && Meets(x, start, end) ==> x in r {
      forall i | 0 <= i < |ranges| && Meets(ranges[i], start, end) ensures InSlice(b, i) {
        assert ranges[i] in ranges;
      }
    }
  }

  /** With an end of the window inside a range nothing is missed; with none inside, the slice is
      empty and misses exactly the ranges the window encloses. */
  lemma CoversIff(ranges: seq<Range>, start: real, end: real, s: int, e: int)
    requires Separated(ranges) && Found(ranges, start, s) && Found(ranges, end, e)
    ensures Covers(ranges, start, end, Bounds(|ranges|, s, e))
            <==> s >= 0 || e >= 0 || !Encloses(ranges, start, end)
  {
  }

  /** The slice has nothing too much either exactly when an end that is in no range lies beyond
      all ranges on its side. */
  lemma ExactIff(ranges: seq<Range>, start: real, end: real, s: int, e: int)
    requires Separated(ranges) && Found(ranges, start, s) && Found(ranges, end, e)
    ensures Exact(ranges, start, end, Bounds(|ranges|, s, e)) <==>
      if s >= 0 && e >= 0 then true
      else if s >= 0 then ranges[|ranges| - 1].end < end
      else if e >= 0 then start < ranges[0].start
      else !Encloses(ranges, start, end)
  {
  }

  const TWO_RANGES := [Range(1.0, 2.0), Range(4.0, 5.0)]

  /** A window that starts and ends in gaps yields nothing though a range lies inside it. */
  lemma WindowBetweenGaps()
    ensures Separated(TWO_RANGES) && Found(TWO_RANGES, 3.0, -1) && Found(TWO_RANGES, 6.0, -1)
    ensures Meets(TWO_RANGES[1], 3.0, 6.0) && !Covers(TWO_RANGES, 3.0, 6.0, Bounds(2, -1, -1))
  {
  }

  // ---------------------------------------------------------------- Events

  ghost predicate Increasing(events: seq<real>) {
    forall i, j :: 0 <= i < j < |events| ==> events[i] < events[j]
  }

  /** The index of the event at the key, or of the first event after it. */
  method SearchEvent(events: seq<real>, key: real) returns (r: int)
    requires Increasing(events)
    ensures 0 <= r <= |events|
    ensures forall i :: 0 <= i < |events| ==> (i < r <==> events[i] < key)
  {
    var l, u := 0, |events| - 1;
    while l <= u
      invariant 0 <= l <= u + 1 <= |events|
      invariant forall i :: 0 <= i < l ==> events[i] < key
      invariant forall i :: u < i < |events| ==> key < events[i]
    {
      var i := (l + u) / 2;
      if key == events[i] {
        return i;
      } else if key < events[i] {
        u := i - 1;
      } else {
        l := i + 1;
      }
    }
    return l;
  }

  /** All events of the window are in the slice; the only other one it may hold is the first
      event after the window, and it holds that one exactly when no event is at the window's end. */
  method GetEventsBounds(events: seq<real>, start: real, end: real) returns (lo: int, hi: int)
    requires Increasing(events)
    ensures 0 <= lo <= |events| && 0 < hi <= |events| + 1 && (start <= end ==> lo < hi)
    ensures forall i :: 0 <= i < |events| && start <= events[i] <= end ==> lo <= i < hi
    ensures forall i :: 0 <= i < |events| ==> (i < lo <==> events[i] < start)
    ensures forall i :: lo <= i < hi - 1 ==> start <= events[i] <= end
    ensures if end in events then hi - 1 < |events| && events[hi - 1] == end
            else hi - 1 < |events| ==> events[hi - 1] > end
  {
    lo := SearchEvent(events, start);
    var e := SearchEvent(events, end);
    if end in events {
      var k :| 0 <= k < |events| && events[k] == end;
      assert e <= k && e < |events| && events[e] <= events[k];
    }
    assert lo > 0 ==> events[lo - 1] < start;
    hi := e + 1;
  }

  ghost predicate IsSlice(events: seq<real>, lo: nat, r: seq<real>) {
    lo + |r| <= |events| && r == events[lo..lo + |r|]
  }

  /** The slice of these bounds: the events of the window, in order, and at most one after it. */
  method GetEvents(events: seq<real>, start: real, end: real) returns (r: seq<real>)
    requires Increasing(events)
    ensures exists lo: nat :: IsSlice(events, lo, r)
    ensures forall x :: x in events && start <= x <= end ==> x in r
    ensures forall i :: 0 <= i < |r| ==> start <= r[i] && (i < |r| - 1 ==> r[i] <= end)
  {
    var lo, hi := GetEventsBounds(events, start, end);
    if hi > |events| { hi := |events|; }
    r := if lo <= hi then events[lo..hi] else [];
    assert IsSlice(events, if r == [] then 0 else lo, r);
    forall x | x in events && start <= x <= end ensures x in r {
      var i :| 0 <= i < |events| && events[i] == x;
      assert r[i - lo] == x;
    }
  }

  // ---------------------------------------------------------------- The legend

  /** Width and height of a legend's text. */
  datatype Extents = Extents(width: real, height: real)

  /** The cell of one legend: the padding, its box, its text. */
  datatype Cell = Cell(x: real, y: real, width: real, height: real)

  function ItemWidth(padding: real, t: Extents): real {
    padding + padding + t.width + padding
  }

  function ItemHeight(padding: real, t: Extents): real {
    t.height + padding
  }

  /** The variables of the layout loop. */
  datatype Cursor = Cursor(lineHeight: real, totalHeight: real, lineUsed: real)

  function Next(padding: real, width: real, c: Cursor, t: Extents): Cursor {
    var lineHeight := if ItemHeight(padding, t) > c.lineHeight then ItemHeight(padding, t) else c.lineHeight;
    if c.lineUsed + ItemWidth(padding, t) > width then
      Cursor(lineHeight, c.totalHeight + lineHeight, padding + ItemWidth(padding, t))
    else
      Cursor(lineHeight, c.totalHeight, c.lineUsed + ItemWidth(padding, t))
  }

  function CursorAfter(padding: real, width: real, ts: seq<Extents>): Cursor {
    if ts == [] then Cursor(0.0, padding, padding)
    else Next(padding, width, CursorAfter(padding, width, ts[..|ts| - 1]), ts[|ts| - 1])
  }

  function CellOf(padding: real, width: real, ts: seq<Extents>, i: nat): Cell
    requires i < |ts|
  {
    var c := CursorAfter(padding, width, ts[..i + 1]);
    Cell(c.lineUsed - ItemWidth(padding, ts[i]), c.totalHeight, ItemWidth(padding, ts[i]), ItemHeight(padding, ts[i]))
  }

  predicate Fits(padding: real, width: real, ts: seq<Extents>) {
    padding > 0.0 && forall i :: 0 <= i < |ts| ==>
      ts[i].width >= 0.0 && ts[i].height >= 0.0 && padding + ItemWidth(padding, ts[i]) <= width
  }

  predicate Disjoint(a: Cell, b: Cell) {
    a.x + a.width <= b.x || b.x + b.width <= a.x || a.y + a.height <= b.y || b.y + b.height <= a.y
  }

  /** A later cell is to the right in the same line, or in a lower line. */
  predicate After(a: Cell, b: Cell) {
    (b.y == a.y && a.x + a.width <= b.x) || a.y + a.height <= b.y
  }

  /** The loop's position lies after cell i and inside the page. */
  lemma {:induction false} CursorBeyond(padding: real, width: real, ts: seq<Extents>, i: nat, n: nat)
    requires Fits(padding, width, ts) && i < n <= |ts|
    ensures var c := CursorAfter(padding, width, ts[..n]); var cell := CellOf(padding, width, ts, i);
      && ((c.totalHeight == cell.y && cell.x + cell.width <= c.lineUsed)
          || cell.y + cell.height <= c.totalHeight)
      && cell.height <= c.lineHeight && cell.y <= c.totalHeight && c.lineUsed <= width
      && padding <= cell.x && padding <= cell.y && cell.x + cell.width <= width
    decreases n
  {
    assert ts[..n][..n - 1] == ts[..n - 1];
    if n > i + 1 {
      CursorBeyond(padding, width, ts, i, n - 1);
    } else {
      CursorInside(padding, width, ts, n - 1);
    }
  }

  lemma {:induction false} CursorInside(padding: real, width: real, ts: seq<Extents>, n: nat)
    requires Fits(padding, width, ts) && n <= |ts|
    ensures var c := CursorAfter(padding, width, ts[..n]);
      c.lineHeight >= 0.0 && c.totalHeight >= padding && c.lineUsed >= padding
  {
    if n > 0 {
      assert ts[..n][..n - 1] == ts[..n - 1];
      CursorInside(padding, width, ts, n - 1);
    }
  }

  /** The height that the layout pass reports. */
  function Height(padding: real, width: real, ts: seq<Extents>): real {
    CursorAfter(padding, width, ts).totalHeight + CursorAfter(padding, width, ts).lineHeight
  }

  /** No two cells overlap, and each is inside the width and inside the height reported by the
      separate layout pass. */
  lemma LegendFits(padding: real, width: real, ts: seq<Extents>, i: nat, j: nat)
    requires Fits(padding, width, ts) && i < j < |ts|
    ensures var a, b := CellOf(padding, width, ts, i), CellOf(padding, width, ts, j); After(a, b) && Disjoint(a, b)
  {
    CursorBeyond(padding, width, ts, i, j);
    CursorBeyond(padding, width, ts, i, j + 1);
    assert ts[..j + 1][..j] == ts[..j];
  }

  /** The drawn box, `padding` wide and high, is inside its cell. */
  lemma CellInside(padding: real, width: real, ts: seq<Extents>, i: nat)
    requires Fits(padding, width, ts) && i < |ts|
    ensures var a := CellOf(padding, width, ts, i);
      && padding <= a.x && a.x + a.width <= width && padding <= a.y && a.y + a.height <= Height(padding, width, ts)
      && padding <= a.width && padding <= a.height
  {
    CursorBeyond(padding, width, ts, i, |ts|);
    assert ts[..|ts|] == ts;
  }

  /** The largest item height, at least zero. */
  function Tallest(padding: real, ts: seq<Extents>): (h: real)
    ensures h >= 0.0 && forall i :: 0 <= i < |ts| ==> ts[i].height + padding <= h
    ensures h == 0.0 || exists i :: 0 <= i < |ts| && h == ts[i].height + padding
  {
    if ts == [] then 0.0
    else
      var h := Tallest(padding, ts[..|ts| - 1]);
      if ts[|ts| - 1].height + padding > h then ts[|ts| - 1].height + padding else h
  }

  /** Corner b follows corner a of a legend of width w: on the line of a if legend t still fits
      there, and otherwise at the start of a line that is lower by h. */
  predicate Follows(padding: real, width: real, a: (real, real), w: real, b: (real, real), t: Extents, h: real) {
    var right := a.0 + (w + 3.0 * padding);
    if right + (t.width + 3.0 * padding) <= width then b == (right, a.1) else b == (padding, a.1 + h)
  }

  /** The corner of the first legend: at the padding, on a lower line when it does not fit. */
  function First(padding: real, width: real, t: Extents): (real, real) {
    if padding + (t.width + 3.0 * padding) <= width then (padding, padding)
    else (padding, padding + Tallest(padding, [t]))
  }

  /** Where the boxes of the legends have their corners. */
  predicate Placed(padding: real, width: real, ts: seq<Extents>, corners: seq<(real, real)>) {
    && |corners| == |ts|
    && (ts != [] ==> corners[0] == First(padding, width, ts[0]))
    && (forall i :: 0 <= i < |ts| - 1 ==>
          Follows(padding, width, corners[i], ts[i].width, corners[i + 1], ts[i + 1], Tallest(padding, ts[..i + 2])))
  }

  lemma {:induction false} LineHeightIsTallest(padding: real, width: real, ts: seq<Extents>)
    ensures CursorAfter(padding, width, ts).lineHeight == Tallest(padding, ts)
  {
    if ts != [] { LineHeightIsTallest(padding, width, ts[..|ts| - 1]); }
  }

  ghost function Corners(padding: real, width: real, ts: seq<Extents>): seq<(real, real)> {
    seq(|ts|, i requires 0 <= i < |ts| => (CellOf(padding, width, ts, i).x, CellOf(padding, width, ts, i).y))
  }

  lemma CellFollows(padding: real, width: real, ts: seq<Extents>, i: nat)
    requires i + 1 < |ts|
    ensures var a, b := CellOf(padding, width, ts, i), CellOf(padding, width, ts, i + 1);
      Follows(padding, width, (a.x, a.y), ts[i].width, (b.x, b.y), ts[i + 1], Tallest(padding, ts[..i + 2]))
  {
    hide Tallest;
    LineHeightIsTallest(padding, width, ts[..i + 2]);
    assert ts[..i + 2][..i + 1] == ts[..i + 1] && ts[..i + 2][i + 1] == ts[i + 1];
  }

  lemma FirstCell(padding: real, width: real, ts: seq<Extents>)
    requires ts != []
    ensures var a := CellOf(padding, width, ts, 0); (a.x, a.y) == First(padding, width, ts[0])
  {
    LineHeightIsTallest(padding, width, ts[..1]);
    assert ts[..1][..0] == [] && ts[..1] == [ts[0]];
  }

  /** For all widths and legends the cells are where they should be. */
  lemma CellsArePlaced(padding: real, width: real, ts: seq<Extents>)
    ensures Placed(padding, width, ts, Corners(padding, width, ts))
  {
    hide Follows, First, CellOf, Tallest;
    if ts != [] { FirstCell(padding, width, ts); }
    var corners := Corners(padding, width, ts);
    forall i | 0 <= i < |ts| - 1
      ensures Follows(padding, width, corners[i], ts[i].width, corners[i + 1], ts[i + 1], Tallest(padding, ts[..i + 2]))
    {
      CellFollows(padding, width, ts, i);
    }
  }

  /** Placement leaves no choice. */
  lemma {:induction false} PlacedOnce(padding: real, width: real, ts: seq<Extents>, a: seq<(real, real)>,
                                      b: seq<(real, real)>, i: nat)
    requires Placed(padding, width, ts, a) && Placed(padding, width, ts, b) && i < |ts|
    ensures a[i] == b[i]
    decreases i
  {
    hide Follows, Tallest;
    if i > 0 {
      PlacedOnce(padding, width, ts, a, b, i - 1);
      var k := i - 1;
      FollowsOnce(padding, width, a[k], ts[k].width, a[k + 1], b[k + 1], ts[k + 1], Tallest(padding, ts[..k + 2]));
    }
  }

  lemma FollowsOnce(padding: real, width: real, a: (real, real), w: real, b: (real, real), c: (real, real),
                    t: Extents, h: real)
    requires Follows(padding, width, a, w, b, t, h) && Follows(padding, width, a, w, c, t, h)
    ensures b == c
  {
  }

  /** The height down to the foot of the lowest line. */
  ghost predicate Ends(padding: real, ts: seq<Extents>, corners: seq<(real, real)>, height: real) {
    |corners| == |ts|
    && height == (if ts == [] then padding else corners[|ts| - 1].1) + Tallest(padding, ts)
  }

  lemma HeightBelowLast(padding: real, width: real, ts: seq<Extents>, corners: seq<(real, real)>)
    requires Placed(padding, width, ts, corners)
    ensures Ends(padding, ts, corners, Height(padding, width, ts))
  {
    LineHeightIsTallest(padding, width, ts);
    if ts != [] {
      CellsArePlaced(padding, width, ts);
      PlacedOnce(padding, width, ts, corners, Corners(padding, width, ts), |ts| - 1);
      assert ts[..|ts|] == ts;
    }
  }

  class TopLegendRenderer {
    const padding: real
    var width: real
    var height: real

    constructor (padding: real)
      ensures this.padding == padding
    {
      this.padding, width, height := padding, 0.0, 0.0;
    }

    method Layout(width: real, legends: seq<Extents>)
      modifies this
      ensures this.width == width && height == Height(padding, width, legends)
      ensures forall corners :: Placed(padding, width, legends, corners) ==> Ends(padding, legends, corners, height)
    {
      this.width := width;
      var lineHeight, totalHeight, lineUsed := 0.0, padding, padding;
      for i := 0 to |legends|
        invariant this.width == width
        invariant Cursor(lineHeight, totalHeight, lineUsed) == CursorAfter(padding, width, legends[..i])
      {
        assert legends[..i + 1][..i] == legends[..i];
        var itemWidth := padding + padding + legends[i].width + padding;
        var itemHeight := legends[i].height + padding;
        if itemHeight > lineHeight { lineHeight := itemHeight; }
        if lineUsed + itemWidth > this.width {
          lineUsed := padding + itemWidth;
          totalHeight := totalHeight + lineHeight;
        } else {
          lineUsed := lineUsed + itemWidth;
        }
      }
      assert legends[..|legends|] == legends;
      totalHeight := totalHeight + lineHeight;
      height := totalHeight;
      forall corners | Placed(padding, width, legends, corners) ensures Ends(padding, legends, corners, height) {
        HeightBelowLast(padding, width, legends, corners);
      }
    }

    /** The boxes, each `padding` wide and high, at the corner of its cell. */
    method Draw(legends: seq<Extents>) returns (corners: seq<(real, real)>)
      ensures |corners| == |legends|
      ensures forall i :: 0 <= i < |legends| ==>
        var cell := CellOf(padding, width, legends, i); corners[i] == (cell.x, cell.y)
      ensures Placed(padding, width, legends, corners)
    {
      corners := [];
      var lineHeight, totalHeight, lineUsed := 0.0, padding, padding;
      for i := 0 to |legends|
        invariant |corners| == i
        invariant Cursor(lineHeight, totalHeight, lineUsed) == CursorAfter(padding, width, legends[..i])
        invariant forall k :: 0 <= k < i ==>
          var cell := CellOf(padding, width, legends, k); corners[k] == (cell.x, cell.y)
      {
        assert legends[..i + 1][..i] == legends[..i];
        var itemWidth := padding + padding + legends[i].width + padding;
        var itemHeight := legends[i].height + padding;
        if itemHeight > lineHeight { lineHeight := itemHeight; }
        if lineUsed + itemWidth > width {
          lineUsed := padding + itemWidth;
          totalHeight := totalHeight + lineHeight;
        } else {
          lineUsed := lineUsed + itemWidth;
        }
        var x := lineUsed - itemWidth;
        corners := corners + [(x, totalHeight)];
      }
      CellsArePlaced(padding, width, legends);
      assert corners == Corners(padding, width, legends);
    }

    /** A layout and then a drawing: no two boxes overlap, and each is inside the width and inside
        the height that the layout stored. */
    method LayoutAndDraw(width: real, legends: seq<Extents>) returns (boxes: seq<Cell>)
      requires Fits(padding, width, legends)
      modifies this
      ensures |boxes| == |legends| && this.width == width
      ensures forall i, j :: 0 <= i < j < |boxes| ==> Disjoint(boxes[i], boxes[j])
      ensures forall i :: 0 <= i < |boxes| ==> boxes[i].width == padding && boxes[i].height == padding
      ensures forall i :: 0 <= i < |boxes| ==>
        0.0 < boxes[i].x && boxes[i].x + boxes[i].width <= width
        && 0.0 < boxes[i].y && boxes[i].y + boxes[i].height <= height
      ensures var corners := seq(|boxes|, i requires 0 <= i < |boxes| => (boxes[i].x, boxes[i].y));
        Placed(padding, width, legends, corners) && Ends(padding, legends, corners, height)
    {
      Layout(width, legends);
      var corners := Draw(legends);
      boxes := seq(|corners|, i requires 0 <= i < |corners| => Cell(corners[i].0, corners[i].1, padding, padding));
      assert corners == seq(|boxes|, i requires 0 <= i < |boxes| => (boxes[i].x, boxes[i].y));
      forall i | 0 <= i < |boxes|
        ensures InCell(boxes[i], CellOf(padding, width, legends, i))
        ensures 0.0 < boxes[i].x && boxes[i].x + padding <= width && 0.0 < boxes[i].y && boxes[i].y + padding <= height
      {
        CellInside(padding, width, legends, i);
      }
      forall i, j | 0 <= i < j < |boxes| ensures Disjoint(boxes[i], boxes[j]) {
        LegendFits(padding, width, legends, i, j);
        InDisjointCells(boxes[i], CellOf(padding, width, legends, i), boxes[j], CellOf(padding, width, legends, j));
      }
    }
  }

  predicate InCell(a: Cell, cell: Cell) {
    cell.x <= a.x && a.x + a.width <= cell.x + cell.width && cell.y <= a.y && a.y + a.height <= cell.y + cell.height
  }

  lemma InDisjointCells(a: Cell, c: Cell, b: Cell, d: Cell)
    requires InCell(a, c) && InCell(b, d) && Disjoint(c, d)
    ensures Disjoint(a, b)
  {
  }
}
