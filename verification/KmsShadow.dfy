/** Buffer-age damage copying for the installer kiosk's software frames.

    A `DamageHistory` remembers the damage of the last two frames. From the age of
    a scanout buffer it decides which rectangles of the cached frame to copy. The
    specification is "copy the whole frame": `RunPresentsShadow` proves that the
    partial copies show exactly the cached frame, in every run over any number of
    rotating buffers.
 */
module KmsShadow {
  import opened Wrappers

  datatype Layout = Layout(width: nat, height: nat, strideBytes: nat, bytesPerPixel: nat) {
    // The assertions at the head of the copy: a frame of `len` bytes has this layout.
    predicate Fits(len: nat) {
      && bytesPerPixel > 0
      && width * bytesPerPixel <= strideBytes
      && strideBytes * height == len
      && width < 0x1_0000_0000 && height < 0x1_0000_0000
    }

    // A byte of a pixel, as opposed to row padding.
    predicate Visible(row: int, offset: int) {
      0 <= row < height && 0 <= offset < width * bytesPerPixel
    }
  }

  // Physical coordinates; the origin is signed and may lie off screen.
  datatype Rect = Rect(x: int, y: int, width: nat, height: nat)

  function Clamp(value: int, limit: nat): (r: nat)
    ensures r <= limit
    ensures 0 <= value <= limit ==> r == value
    ensures value <= 0 ==> r == 0
    ensures limit <= value ==> r == limit
  {
    if value < 0 then 0 else if value > limit then limit else value
  }

  function Left(l: Layout, r: Rect): nat { Clamp(r.x, l.width) }
  function Right(l: Layout, r: Rect): nat { Clamp(r.x + r.width, l.width) }
  function Top(l: Layout, r: Rect): nat { Clamp(r.y, l.height) }
  function Bottom(l: Layout, r: Rect): nat { Clamp(r.y + r.height, l.height) }

  // Whether a rectangle, clipped to the screen, holds the byte at `offset` of `row`.
  predicate Touches(l: Layout, r: Rect, row: int, offset: int) {
    Top(l, r) <= row < Bottom(l, r) && Left(l, r) * l.bytesPerPixel <= offset < Right(l, r) * l.bytesPerPixel
  }

  /** A rectangle touches exactly the bytes of the screen's pixels that lie in it. */
  lemma TouchesIff(l: Layout, r: Rect, row: int, offset: int)
    requires l.bytesPerPixel > 0
    ensures Touches(l, r, row, offset) <==>
      && 0 <= row < l.height && r.y <= row < r.y + r.height
      && 0 <= offset && 0 <= offset / l.bytesPerPixel < l.width && r.x <= offset / l.bytesPerPixel < r.x + r.width
  {
    if 0 <= offset {
      QuotientBelow(offset, Right(l, r), l.bytesPerPixel);
      QuotientBelow(offset, Left(l, r), l.bytesPerPixel);
    }
  }

  lemma QuotientBelow(n: nat, limit: nat, divisor: nat)
    requires divisor > 0
    ensures n < limit * divisor <==> n / divisor < limit
  {
    assert n == n / divisor * divisor + n % divisor;
    if n / divisor < limit {
      MulMonotone(n / divisor + 1, limit, divisor);
    } else {
      MulMonotone(limit, n / divisor, divisor);
    }
  }

  predicate Damaged(l: Layout, rects: seq<Rect>, row: int, offset: int) {
    exists k :: 0 <= k < |rects| && Touches(l, rects[k], row, offset)
  }

  function FullRect(l: Layout): Rect {
    Rect(0, 0, l.width, l.height)
  }

  /** Clipped damage lies on visible bytes only: off-screen rectangles write nothing out of bounds, and row padding
      is never a pixel. */
  lemma DamageIsVisible(l: Layout, rects: seq<Rect>, row: int, offset: int)
    requires Damaged(l, rects, row, offset)
    ensures l.Visible(row, offset)
  {
    var k :| 0 <= k < |rects| && Touches(l, rects[k], row, offset);
    MulMonotone(Right(l, rects[k]), l.width, l.bytesPerPixel);
  }

  lemma MulMonotone(a: nat, b: nat, c: nat)
    requires a <= b
    ensures a * c <= b * c
  {
  }

  lemma FullRectCoversScreen(l: Layout, row: int, offset: int)
    requires l.Visible(row, offset)
    ensures Touches(l, FullRect(l), row, offset)
  {
  }

  // ---------------------------------------------------------------------------------------------------------------
  // What one copy does, as a function
  // ---------------------------------------------------------------------------------------------------------------

  type Damage = Option<seq<Rect>>

  datatype History = History(layout: Option<Layout>, previous0: Damage, previous1: Damage) {
    function Effective(l: Layout, damage: seq<Rect>): seq<Rect> {
      if layout != Some(l) then [FullRect(l)] else damage
    }

    predicate NeedsFullCopy(l: Layout, age: nat) {
      || layout != Some(l)
      || age == 0
      || age > 3
      || (age >= 2 && previous0.None?)
      || (age >= 3 && previous1.None?)
    }

    // The rectangles of a partial copy: this frame's damage, then the remembered damage the age reaches back to.
    function Rects(l: Layout, age: nat, damage: seq<Rect>): seq<Rect>
      requires !NeedsFullCopy(l, age)
    {
      damage + (if age >= 2 then previous0.value else []) + (if age >= 3 then previous1.value else [])
    }

    function Next(l: Layout, damage: seq<Rect>): History {
      History(Some(l), Some(Effective(l, damage)), if layout != Some(l) then None else previous0)
    }
  }

  const EmptyHistory := History(None, None, None)

  // The scanout buffer after the listed rectangles of the shadow frame were copied over it.
  function Blit(l: Layout, rects: seq<Rect>, shadow: seq<byte>, scanout: seq<byte>): (r: seq<byte>)
    requires |shadow| == |scanout| && l.Fits(|scanout|)
    ensures |r| == |scanout|
  {
    seq(|scanout|, i requires 0 <= i < |scanout| =>
      assert l.strideBytes > 0;
      if Damaged(l, rects, i / l.strideBytes, i % l.strideBytes) then shadow[i] else scanout[i])
  }

  function Copied(h: History, l: Layout, age: nat, damage: seq<Rect>, shadow: seq<byte>, scanout: seq<byte>):
    (r: seq<byte>)
    requires |shadow| == |scanout| && l.Fits(|scanout|)
    ensures |r| == |scanout|
  {
    if h.NeedsFullCopy(l, age) then shadow else Blit(l, h.Rects(l, age, damage), shadow, scanout)
  }

  function Product(a: nat, b: nat): nat {
    a * b
  }

  function SpanBytes(l: Layout, r: Rect): nat {
    Product(Bottom(l, r) - Top(l, r), Product(Right(l, r) - Left(l, r), l.bytesPerPixel))
  }

  function TotalBytes(l: Layout, rects: seq<Rect>): nat {
    if rects == [] then 0 else TotalBytes(l, rects[..|rects| - 1]) + SpanBytes(l, rects[|rects| - 1])
  }

  // ---------------------------------------------------------------------------------------------------------------
  // The imperative history
  // ---------------------------------------------------------------------------------------------------------------

  lemma RowIndex(l: Layout, len: nat, row: nat, offset: nat)
    requires l.Fits(len) && row < l.height && offset < l.strideBytes
    ensures 0 <= row * l.strideBytes + offset < len
    ensures (row * l.strideBytes + offset) / l.strideBytes == row
    ensures (row * l.strideBytes + offset) % l.strideBytes == offset
  {
    var s := l.strideBytes;
    MulMonotone(row + 1, l.height, s);
    assert (row + 1) * s == row * s + s;
    DivModUnique(row, offset, s);
  }

  lemma DivModUnique(q: nat, r: nat, s: nat)
    requires r < s
    ensures (q * s + r) / s == q && (q * s + r) % s == r
  {
    var i := q * s + r;
    var q', r' := i / s, i % s;
    assert i == q' * s + r';
    assert (q' + 1) * s == q' * s + s && (q + 1) * s == q * s + s;
    if q' < q {
      MulMonotone(q' + 1, q, s);
    } else if q < q' {
      MulMonotone(q + 1, q', s);
    }
  }

  class DamageHistory {
    var layout: Option<Layout>
    var previous: array<Damage>

    ghost predicate Valid()
      reads this
    {
      previous.Length == 2
    }

    ghost function Contents(): History
      reads this, previous
      requires Valid()
    {
      History(layout, previous[0], previous[1])
    }

    constructor ()
      ensures Valid() && fresh(previous)
      ensures Contents() == EmptyHistory
    {
      layout := None;
      previous := new Damage[2](_ => None);
    }

    method Reset()
      requires Valid()
      modifies this, previous
      ensures Valid() && previous == old(previous)
      ensures Contents() == EmptyHistory
    {
      layout := None;
      previous[0], previous[1] := None, None;
    }

    /** Bring the scanout buffer up to the shadow frame. Ages other than 1, 2 and 3, missing history and changed
        layouts get the whole frame. Returns the bytes written. */
    method CopyToScanout(shadow: array<byte>, scanout: array<byte>, l: Layout, age: nat, reported: seq<Rect>)
      returns (copied: nat)
      requires Valid() && previous as object != scanout && shadow != scanout && previous as object != shadow
      requires shadow.Length == scanout.Length && l.Fits(scanout.Length)
      modifies this, previous, scanout
      ensures Valid() && previous == old(previous)
      ensures Contents() == old(Contents()).Next(l, reported)
      ensures scanout[..] == Copied(old(Contents()), l, age, reported, shadow[..], old(scanout[..]))
      ensures copied == if old(Contents()).NeedsFullCopy(l, age) then shadow.Length
                        else TotalBytes(l, old(Contents()).Rects(l, age, reported))
    {
      var damage := reported;
      var changedLayout := layout != Some(l);
      if changedLayout {
        previous[0], previous[1] := None, None;
        damage := [FullRect(l)];
      }
      var previousCount := if age >= 1 then age - 1 else 0;
      var full := changedLayout || age == 0 || previousCount > 2
        || (previousCount >= 1 && previous[0].None?) || (previousCount >= 2 && previous[1].None?);
      if full {
        forall i | 0 <= i < scanout.Length {
          scanout[i] := shadow[i];
        }
        copied := shadow.Length;
      } else {
        var rects := damage;
        if previousCount >= 1 {
          rects := rects + previous[0].value;
        }
        if previousCount >= 2 {
          rects := rects + previous[1].value;
        }
        assert rects == old(Contents()).Rects(l, age, reported);
        copied := CopyRects(shadow, scanout, l, rects);
      }
      previous[1] := previous[0];
      previous[0] := Some(damage);
      layout := Some(l);
    }

    static method CopyRects(shadow: array<byte>, scanout: array<byte>, l: Layout, rects: seq<Rect>)
      returns (copied: nat)
      requires shadow != scanout
      requires shadow.Length == scanout.Length && l.Fits(scanout.Length)
      modifies scanout
      ensures scanout[..] == Blit(l, rects, shadow[..], old(scanout[..]))
      ensures copied == TotalBytes(l, rects)
    {
      copied := 0;
      for k := 0 to |rects|
        invariant forall i :: 0 <= i < scanout.Length ==> scanout[i] == Blit(l, rects[..k], shadow[..], old(scanout[..]))[i]
        invariant copied == TotalBytes(l, rects[..k])
      {
        label before:
        var more := CopyRect(shadow, scanout, l, rects[k]);
        copied := copied + more;
        assert rects[..k + 1][..k] == rects[..k];
        forall i | 0 <= i < scanout.Length
          ensures scanout[i] == Blit(l, rects[..k + 1], shadow[..], old(scanout[..]))[i]
        {
          DamagedAppend(l, rects[..k], rects[k], i / l.strideBytes, i % l.strideBytes);
          assert rects[..k + 1] == rects[..k] + [rects[k]];
        }
      }
      assert rects[..|rects|] == rects;
    }

    static method CopyRect(shadow: array<byte>, scanout: array<byte>, l: Layout, r: Rect)
      returns (copied: nat)
      requires shadow != scanout
      requires shadow.Length == scanout.Length && l.Fits(scanout.Length)
      modifies scanout
      ensures forall i :: 0 <= i < scanout.Length ==>
        scanout[i] == if Touches(l, r, i / l.strideBytes, i % l.strideBytes) then shadow[i] else old(scanout[i])
      ensures copied == SpanBytes(l, r)
    {
      copied := 0;
      var x0, y0, x1, y1 := Left(l, r), Top(l, r), Right(l, r), Bottom(l, r);
      if y1 <= y0 {
        return;
      }
      ghost var span := Product(x1 - x0, l.bytesPerPixel);
      for y := y0 to y1
        invariant forall i :: 0 <= i < scanout.Length ==>
          scanout[i] == if Touches(l, r, i / l.strideBytes, i % l.strideBytes) && i / l.strideBytes < y
                        then shadow[i] else old(scanout[i])
        invariant copied == Product(y - y0, span)
      {
        var more := CopyRow(shadow, scanout, l, y, x0, x1);
        copied := copied + more;
        ProductStep(y - y0, more);
      }
    }

    static method CopyRow(shadow: array<byte>, scanout: array<byte>, l: Layout, y: nat, x0: nat, x1: nat)
      returns (copied: nat)
      requires shadow != scanout
      requires shadow.Length == scanout.Length && l.Fits(scanout.Length)
      requires y < l.height && x0 <= x1 <= l.width
      modifies scanout
      ensures forall i :: 0 <= i < scanout.Length ==>
        scanout[i] == if InSpan(l, y, x0, x1, i) then shadow[i] else old(scanout[i])
      ensures copied == Product(x1 - x0, l.bytesPerPixel)
    {
      var row := Product(y, l.strideBytes);
      var first, end := row + Product(x0, l.bytesPerPixel), row + Product(x1, l.bytesPerPixel);
      SpanOfRow(l, scanout.Length, y, x0, x1, first, end);
      CopySpan(shadow, scanout, first, end);
      copied := end - first;
    }

    static method CopySpan(shadow: array<byte>, scanout: array<byte>, first: nat, end: nat)
      requires shadow != scanout && shadow.Length == scanout.Length && first <= end <= scanout.Length
      modifies scanout
      ensures forall i :: 0 <= i < scanout.Length ==>
        scanout[i] == if first <= i < end then shadow[i] else old(scanout[i])
    {
      forall i | first <= i < end {
        scanout[i] := shadow[i];
      }
    }
  }

  // The byte at position i belongs to columns x0 to x1 of row y.
  predicate InSpan(l: Layout, y: nat, x0: nat, x1: nat, i: nat)
    requires l.strideBytes > 0
  {
    i / l.strideBytes == y && x0 * l.bytesPerPixel <= i % l.strideBytes < x1 * l.bytesPerPixel
  }

  lemma SpanOfRow(l: Layout, len: nat, y: nat, x0: nat, x1: nat, first: nat, end: nat)
    requires l.Fits(len) && y < l.height && x0 <= x1 <= l.width
    requires first == y * l.strideBytes + x0 * l.bytesPerPixel && end == y * l.strideBytes + x1 * l.bytesPerPixel
    ensures first <= end <= len && (len > 0 ==> l.strideBytes > 0)
    ensures forall i: nat :: i < len ==> (first <= i < end <==> InSpan(l, y, x0, x1, i))
  {
    MulMonotone(x0, x1, l.bytesPerPixel);
    MulMonotone(x1, l.width, l.bytesPerPixel);
    RowFits(l, len, y);
    forall i: nat | i < len
      ensures first <= i < end <==> InSpan(l, y, x0, x1, i)
    {
      SpanIs(l.strideBytes, y, x0 * l.bytesPerPixel, x1 * l.bytesPerPixel, i);
    }
  }

  lemma RowFits(l: Layout, len: nat, y: nat)
    requires l.Fits(len) && y < l.height
    ensures y * l.strideBytes + l.strideBytes <= len
  {
    MulMonotone(y + 1, l.height, l.strideBytes);
    assert (y + 1) * l.strideBytes == y * l.strideBytes + l.strideBytes;
  }

  // The bytes of a span of row y, by position and by row and offset.
  lemma SpanIs(stride: nat, y: nat, first: nat, end: nat, i: nat)
    requires first <= end <= stride && stride > 0
    ensures y * stride + first <= i < y * stride + end <==> (i / stride == y && first <= i % stride < end)
  {
    assert i == i / stride * stride + i % stride;
    if y * stride + first <= i < y * stride + end {
      DivModUnique(y, i - y * stride, stride);
    }
  }

  function Positions(first: nat, end: nat): set<nat> {
    if first >= end then {} else Positions(first, end - 1) + {end - 1}
  }

  lemma {:induction false} PositionsAre(first: nat, end: nat)
    requires first <= end
    ensures forall i: nat :: i in Positions(first, end) <==> first <= i < end
    ensures |Positions(first, end)| == end - first
    decreases end
  {
    if first < end {
      PositionsAre(first, end - 1);
    }
  }

  // The positions of a frame's bytes in columns x0 to x1 of rows y0 to y1.
  function Block(l: Layout, len: nat, x0: nat, x1: nat, y0: nat, y1: nat): set<nat> {
    set i: nat | i < len && l.strideBytes > 0 && y0 <= i / l.strideBytes < y1 && InSpan(l, i / l.strideBytes, x0, x1, i)
  }

  lemma BlockStep(l: Layout, len: nat, x0: nat, x1: nat, y0: nat, y: nat, row: set<nat>)
    requires l.strideBytes > 0 && y0 <= y
    requires forall i: nat :: i in row <==> i < len && InSpan(l, y, x0, x1, i)
    ensures Block(l, len, x0, x1, y0, y + 1) == Block(l, len, x0, x1, y0, y) + row
    ensures Block(l, len, x0, x1, y0, y) !! row
  {
  }

  lemma RowPositions(l: Layout, len: nat, x0: nat, x1: nat, y: nat, first: nat, end: nat)
    requires l.strideBytes > 0 && first <= end <= len
    requires forall i: nat :: i < len ==> (first <= i < end <==> InSpan(l, y, x0, x1, i))
    ensures forall i: nat :: i in Positions(first, end) <==> i < len && InSpan(l, y, x0, x1, i)
  {
    PositionsAre(first, end);
  }

  lemma ProductDifference(a: nat, b: nat, c: nat)
    requires a <= b
    ensures b * c - a * c == Product(b - a, c)
  {
  }

  lemma ProductStep(a: nat, b: nat)
    ensures Product(a + 1, b) == Product(a, b) + b
  {
  }

  lemma BlockGrows(l: Layout, len: nat, x0: nat, x1: nat, y0: nat, y: nat, first: nat, end: nat)
    requires l.strideBytes > 0 && y0 <= y && first <= end <= len
    requires forall i: nat :: i < len ==> (first <= i < end <==> InSpan(l, y, x0, x1, i))
    ensures |Block(l, len, x0, x1, y0, y + 1)| == |Block(l, len, x0, x1, y0, y)| + (end - first)
  {
    RowPositions(l, len, x0, x1, y, first, end);
    PositionsAre(first, end);
    BlockStep(l, len, x0, x1, y0, y, Positions(first, end));
  }

  lemma GrowBySpan(l: Layout, len: nat, x0: nat, x1: nat, y0: nat, y: nat, first: nat, end: nat)
    requires l.Fits(len) && x0 <= x1 <= l.width && y0 <= y < l.height && l.strideBytes > 0
    requires first == y * l.strideBytes + x0 * l.bytesPerPixel && end == y * l.strideBytes + x1 * l.bytesPerPixel
    ensures |Block(l, len, x0, x1, y0, y + 1)| == |Block(l, len, x0, x1, y0, y)| + (end - first)
  {
    SpanOfRow(l, len, y, x0, x1, first, end);
    BlockGrows(l, len, x0, x1, y0, y, first, end);
  }

  lemma RowCount(l: Layout, len: nat, x0: nat, x1: nat, y0: nat, y: nat)
    requires l.Fits(len) && x0 <= x1 <= l.width && y0 <= y < l.height && l.strideBytes > 0
    ensures |Block(l, len, x0, x1, y0, y + 1)| == |Block(l, len, x0, x1, y0, y)| + Product(x1 - x0, l.bytesPerPixel)
  {
    var first, end := y * l.strideBytes + x0 * l.bytesPerPixel, y * l.strideBytes + x1 * l.bytesPerPixel;
    assert end - first == Product(x1 - x0, l.bytesPerPixel) by {
      ProductDifference(x0, x1, l.bytesPerPixel);
    }
    GrowBySpan(l, len, x0, x1, y0, y, first, end);
  }

  lemma {:induction false} BlockCount(l: Layout, len: nat, x0: nat, x1: nat, y0: nat, y1: nat, span: nat)
    requires l.Fits(len) && x0 <= x1 <= l.width && y0 <= y1 <= l.height && l.strideBytes > 0
    requires span == Product(x1 - x0, l.bytesPerPixel)
    ensures |Block(l, len, x0, x1, y0, y1)| == Product(y1 - y0, span)
    decreases y1
  {
    if y0 == y1 {
      assert Block(l, len, x0, x1, y0, y1) == {};
    } else {
      BlockCount(l, len, x0, x1, y0, y1 - 1, span);
      RowCount(l, len, x0, x1, y0, y1 - 1);
      ProductStep(y1 - 1 - y0, span);
    }
  }

  /** The bytes counted for a rectangle are as many as it touches. */
  lemma SpanBytesAre(l: Layout, r: Rect, len: nat, touched: set<nat>)
    requires l.Fits(len) && l.strideBytes > 0
    requires forall i: nat :: i in touched <==> i < len && Touches(l, r, i / l.strideBytes, i % l.strideBytes)
    ensures SpanBytes(l, r) == |touched|
  {
    BlockCount(l, len, Left(l, r), Right(l, r), Top(l, r), Bottom(l, r),
               Product(Right(l, r) - Left(l, r), l.bytesPerPixel));
    assert touched == Block(l, len, Left(l, r), Right(l, r), Top(l, r), Bottom(l, r));
  }

  lemma DamagedAppend(l: Layout, rects: seq<Rect>, r: Rect, row: int, offset: int)
    ensures Damaged(l, rects + [r], row, offset) <==> Damaged(l, rects, row, offset) || Touches(l, r, row, offset)
  {
    var all := rects + [r];
    assert all[|rects|] == r;
    assert forall k :: 0 <= k < |rects| ==> all[k] == rects[k];
  }

  // ---------------------------------------------------------------------------------------------------------------
  // Every run over rotating scanout buffers
  // ---------------------------------------------------------------------------------------------------------------

  // One rendered frame: the whole cached picture and the damage reported for it.
  datatype Frame = Frame(layout: Layout, shadow: seq<byte>, damage: seq<Rect>)

  /** The display: all frames presented so far, the index of the frame that followed the last reset, and for every
      scanout buffer its bytes and one more than the index of the frame it last presented (0 when it never did). */
  datatype Screen = Screen(history: History, frames: seq<Frame>, epoch: nat, buffers: seq<seq<byte>>, shown: seq<nat>)

  datatype Event = Present(buffer: nat, frame: Frame, age: nat) | Reset

  predicate SameBytes(l: Layout, a: seq<byte>, b: seq<byte>, row: nat, offset: nat)
    requires l.Fits(|a|) && |a| == |b| && l.Visible(row, offset)
  {
    RowIndex(l, |a|, row, offset);
    a[row * l.strideBytes + offset] == b[row * l.strideBytes + offset]
  }

  // The buffer's visible bytes are exactly the frame's.
  ghost predicate Shows(f: Frame, buffer: seq<byte>)
    requires f.layout.Fits(|f.shadow|)
  {
    |buffer| == |f.shadow| &&
    forall row: nat, offset: nat | f.layout.Visible(row, offset) :: SameBytes(f.layout, buffer, f.shadow, row, offset)
  }

  // The reported damage covers what changed since the frame before it.
  ghost predicate CoversChanges(before: Frame, f: Frame)
    requires f.layout.Fits(|f.shadow|)
  {
    before.layout == f.layout && |before.shadow| == |f.shadow| ==>
      forall row: nat, offset: nat | f.layout.Visible(row, offset) && !Damaged(f.layout, f.damage, row, offset) ::
        SameBytes(f.layout, before.shadow, f.shadow, row, offset)
  }

  // What an event demands of the renderer and of the buffer age the driver reports.
  ghost predicate Legal(s: Screen, e: Event) {
    e.Present? ==>
      var f := e.frame;
      && e.buffer < |s.buffers| == |s.shown|
      && f.layout.Fits(|f.shadow|) && |s.buffers[e.buffer]| == |f.shadow|
      && (s.frames != [] ==> CoversChanges(s.frames[|s.frames| - 1], f))
      && (e.age == 0 || (s.shown[e.buffer] > 0 && e.age == |s.frames| + 1 - s.shown[e.buffer]))
  }

  ghost function Apply(s: Screen, e: Event): Screen
    requires Legal(s, e)
  {
    match e
    case Reset => s.(history := EmptyHistory, epoch := |s.frames|)
    case Present(b, f, age) =>
      Screen(s.history.Next(f.layout, f.damage),
             s.frames + [f],
             s.epoch,
             s.buffers[b := Copied(s.history, f.layout, age, f.damage, f.shadow, s.buffers[b])],
             s.shown[b := |s.frames| + 1])
  }

  ghost predicate LegalRun(s: Screen, events: seq<Event>)
    decreases |events|
  {
    events == [] || (Legal(s, events[0]) && LegalRun(Apply(s, events[0]), events[1..]))
  }

  ghost function Run(s: Screen, events: seq<Event>): Screen
    requires LegalRun(s, events)
    decreases |events|
  {
    if events == [] then s else Run(Apply(s, events[0]), events[1..])
  }

  // The damage the history recorded for frame `k`.
  ghost function Recorded(frames: seq<Frame>, epoch: nat, k: nat): seq<Rect>
    requires epoch <= k < |frames|
  {
    if k == epoch || frames[k - 1].layout != frames[k].layout then [FullRect(frames[k].layout)] else frames[k].damage
  }

  ghost predicate Remembers(h: History, frames: seq<Frame>, epoch: nat)
    requires epoch <= |frames|
  {
    var n := |frames|;
    if n == epoch then h == EmptyHistory
    else
      && h.layout == Some(frames[n - 1].layout)
      && h.previous0 == Some(Recorded(frames, epoch, n - 1))
      && h.previous1 == (if n - epoch >= 2 && frames[n - 2].layout == frames[n - 1].layout
                         then Some(Recorded(frames, epoch, n - 2)) else None)
  }

  ghost predicate Consistent(s: Screen) {
    && |s.buffers| == |s.shown|
    && s.epoch <= |s.frames|
    && Remembers(s.history, s.frames, s.epoch)
    && (forall k :: 0 <= k < |s.frames| ==> s.frames[k].layout.Fits(|s.frames[k].shadow|))
    && (forall k :: 0 < k < |s.frames| ==> CoversChanges(s.frames[k - 1], s.frames[k]))
    && (forall b :: 0 <= b < |s.buffers| ==> s.shown[b] <= |s.frames|)
    && (forall b :: 0 <= b < |s.buffers| && s.shown[b] > 0 ==> Shows(s.frames[s.shown[b] - 1], s.buffers[b]))
  }

  // If no recorded damage touches a visible byte of frame k, that byte is what it was in frame k - 1.
  lemma UntouchedStepKeepsByte(s: Screen, k: nat, row: nat, offset: nat)
    requires Consistent(s) && s.epoch <= k < |s.frames|
    requires s.frames[k].layout.Visible(row, offset)
    requires !Damaged(s.frames[k].layout, Recorded(s.frames, s.epoch, k), row, offset)
    ensures k > 0 && s.frames[k - 1].layout == s.frames[k].layout
    ensures |s.frames[k - 1].shadow| == |s.frames[k].shadow|
    ensures SameBytes(s.frames[k].layout, s.frames[k - 1].shadow, s.frames[k].shadow, row, offset)
  {
    var l, rects := s.frames[k].layout, Recorded(s.frames, s.epoch, k);
    FullRectCoversScreen(l, row, offset);
    assert |rects| > 0 && rects[0] == FullRect(l) ==> Damaged(l, rects, row, offset);
    assert CoversChanges(s.frames[k - 1], s.frames[k]);
  }

  // A partial copy leaves a buffer of true age showing the new frame.
  lemma PartialCopyShows(s: Screen, e: Event)
    requires Consistent(s) && e.Present? && Legal(s, e) && !s.history.NeedsFullCopy(e.frame.layout, e.age)
    ensures Shows(e.frame, Copied(s.history, e.frame.layout, e.age, e.frame.damage, e.frame.shadow, s.buffers[e.buffer]))
  {
    var f, l := e.frame, e.frame.layout;
    var result := Blit(l, s.history.Rects(l, e.age, f.damage), f.shadow, s.buffers[e.buffer]);
    forall row: nat, offset: nat | l.Visible(row, offset)
      ensures SameBytes(l, result, f.shadow, row, offset)
    {
      RowIndex(l, |result|, row, offset);
      if !Damaged(l, s.history.Rects(l, e.age, f.damage), row, offset) {
        UndamagedIsCurrent(s, e, row, offset);
      }
    }
  }

  // A visible byte that a partial copy does not touch is already the new frame's.
  lemma UndamagedIsCurrent(s: Screen, e: Event, row: nat, offset: nat)
    requires Consistent(s) && e.Present? && Legal(s, e) && !s.history.NeedsFullCopy(e.frame.layout, e.age)
    requires e.frame.layout.Visible(row, offset)
    requires !Damaged(e.frame.layout, s.history.Rects(e.frame.layout, e.age, e.frame.damage), row, offset)
    ensures SameBytes(e.frame.layout, s.buffers[e.buffer], e.frame.shadow, row, offset)
  {
    var f, n, l := e.frame, |s.frames|, e.frame.layout;
    var rects := s.history.Rects(l, e.age, f.damage);
    DamagedPart(l, rects, f.damage, row, offset);
    assert SameBytes(l, s.frames[n - 1].shadow, f.shadow, row, offset);
    if e.age >= 2 {
      DamagedPart(l, rects, Recorded(s.frames, s.epoch, n - 1), row, offset);
      UntouchedStepKeepsByte(s, n - 1, row, offset);
    }
    if e.age >= 3 {
      DamagedPart(l, rects, Recorded(s.frames, s.epoch, n - 2), row, offset);
      UntouchedStepKeepsByte(s, n - 2, row, offset);
    }
    var base := s.frames[n - e.age];
    assert Shows(base, s.buffers[e.buffer]);
    assert SameBytes(l, s.buffers[e.buffer], base.shadow, row, offset);
  }

  lemma DamagedPart(l: Layout, rects: seq<Rect>, part: seq<Rect>, row: int, offset: int)
    requires forall r :: r in part ==> r in rects
    requires !Damaged(l, rects, row, offset)
    ensures !Damaged(l, part, row, offset)
  {
    forall k | 0 <= k < |part|
      ensures !Touches(l, part[k], row, offset)
    {
      assert part[k] in rects;
    }
  }

  lemma PresentedIsRemembered(s: Screen, e: Event)
    requires Consistent(s) && e.Present? && Legal(s, e)
    ensures Remembers(Apply(s, e).history, Apply(s, e).frames, s.epoch)
  {
    var t, n := Apply(s, e), |s.frames|;
    assert t.frames[n] == e.frame && forall k :: 0 <= k < n ==> t.frames[k] == s.frames[k];
  }

  lemma PresentedShows(s: Screen, e: Event)
    requires Consistent(s) && e.Present? && Legal(s, e)
    ensures Shows(e.frame, Apply(s, e).buffers[e.buffer])
  {
    if !s.history.NeedsFullCopy(e.frame.layout, e.age) {
      PartialCopyShows(s, e);
    }
  }

  lemma OthersStillShow(s: Screen, e: Event, b: nat)
    requires Consistent(s) && e.Present? && Legal(s, e) && b < |s.buffers| && b != e.buffer && s.shown[b] > 0
    ensures Shows(Apply(s, e).frames[Apply(s, e).shown[b] - 1], Apply(s, e).buffers[b])
  {
    assert Shows(s.frames[s.shown[b] - 1], s.buffers[b]);
  }

  lemma FramesStayCovered(frames: seq<Frame>, f: Frame)
    requires forall k :: 0 <= k < |frames| ==> frames[k].layout.Fits(|frames[k].shadow|)
    requires forall k :: 0 < k < |frames| ==> CoversChanges(frames[k - 1], frames[k])
    requires f.layout.Fits(|f.shadow|) && (frames != [] ==> CoversChanges(frames[|frames| - 1], f))
    ensures var all := frames + [f];
      && (forall k :: 0 <= k < |all| ==> all[k].layout.Fits(|all[k].shadow|))
      && (forall k :: 0 < k < |all| ==> CoversChanges(all[k - 1], all[k]))
  {
  }

  // One presentation with a true age, or 0, keeps the invariant; so does a reset.
  lemma ApplyKeepsConsistent(s: Screen, e: Event)
    requires Consistent(s) && Legal(s, e)
    ensures Consistent(Apply(s, e))
  {
    if e.Present? {
      PresentedIsRemembered(s, e);
      PresentedShows(s, e);
      FramesStayCovered(s.frames, e.frame);
      forall b: nat | b < |s.buffers| && b != e.buffer && s.shown[b] > 0
        ensures Shows(Apply(s, e).frames[Apply(s, e).shown[b] - 1], Apply(s, e).buffers[b])
      {
        OthersStillShow(s, e, b);
      }
    }
  }

  // A display that has presented nothing yet; its buffers hold arbitrary bytes.
  ghost predicate Initial(s: Screen) {
    s.history == EmptyHistory && s.frames == [] && s.epoch == 0 && |s.buffers| == |s.shown| &&
    forall b :: 0 <= b < |s.shown| ==> s.shown[b] == 0
  }

  lemma {:induction false} RunKeepsConsistent(s: Screen, events: seq<Event>)
    requires Consistent(s) && LegalRun(s, events)
    ensures Consistent(Run(s, events))
    decreases |events|
  {
    if events != [] {
      ApplyKeepsConsistent(s, events[0]);
      RunKeepsConsistent(Apply(s, events[0]), events[1..]);
    }
  }

  /** In every run, from buffers holding arbitrary bytes, every buffer shows exactly the frame last presented in it,
      though most copies were partial. This includes ages that reach back across a layout change or a reset. */
  lemma RunPresentsShadow(s: Screen, events: seq<Event>)
    requires Initial(s) && LegalRun(s, events)
    ensures var t := Run(s, events);
      && |t.buffers| == |t.shown| == |s.buffers|
      && forall b :: 0 <= b < |t.buffers| && t.shown[b] > 0 ==>
        && t.shown[b] <= |t.frames|
        && t.frames[t.shown[b] - 1].layout.Fits(|t.frames[t.shown[b] - 1].shadow|)
        && Shows(t.frames[t.shown[b] - 1], t.buffers[b])
  {
    RunKeepsConsistent(s, events);
    RunKeepsBuffers(s, events);
  }

  // The frames since the last reset reach back far enough for a buffer of this age, in one layout.
  ghost predicate ReachesBack(s: Screen, l: Layout, age: nat) {
    && 1 <= age <= 3
    && s.epoch <= |s.frames| - (if age == 1 then 1 else age - 1)
    && forall k :: |s.frames| - (if age == 1 then 1 else age - 1) <= k < |s.frames| ==> s.frames[k].layout == l
  }

  /** A copy is partial exactly if the history reaches back to what the buffer shows. */
  lemma PartialIff(s: Screen, e: Event)
    requires Consistent(s) && e.Present? && Legal(s, e)
    ensures !s.history.NeedsFullCopy(e.frame.layout, e.age) <==> ReachesBack(s, e.frame.layout, e.age)
  {
    var n := |s.frames|;
    if ReachesBack(s, e.frame.layout, e.age) {
      assert s.frames[n - 1].layout == e.frame.layout;
      if e.age == 3 {
        assert s.frames[n - 2].layout == e.frame.layout;
      }
    }
  }

  /** Then it writes nothing but what the damage of this frame, and of the frames that the buffer missed, touches. */
  lemma OnlyDamageIsCopied(s: Screen, e: Event, row: nat, offset: nat)
    requires Consistent(s) && e.Present? && Legal(s, e) && ReachesBack(s, e.frame.layout, e.age)
    requires row < e.frame.layout.height && offset < e.frame.layout.strideBytes
    requires !Damaged(e.frame.layout, e.frame.damage, row, offset)
    requires forall k :: |s.frames| - e.age < k < |s.frames| ==>
      !Damaged(e.frame.layout, Recorded(s.frames, s.epoch, k), row, offset)
    ensures 0 <= row * e.frame.layout.strideBytes + offset < |s.buffers[e.buffer]|
    ensures var at := row * e.frame.layout.strideBytes + offset;
      Apply(s, e).buffers[e.buffer][at] == s.buffers[e.buffer][at]
  {
    var l, n := e.frame.layout, |s.frames|;
    RowIndex(l, |s.buffers[e.buffer]|, row, offset);
    PartialIff(s, e);
    var more := s.history.Rects(l, e.age, []);
    if e.age == 3 {
      var older := Recorded(s.frames, s.epoch, n - 2);
      DamagedSum(l, Recorded(s.frames, s.epoch, n - 1), older, row, offset);
      assert more == [] + Recorded(s.frames, s.epoch, n - 1) + older == Recorded(s.frames, s.epoch, n - 1) + older;
    } else if e.age == 2 {
      assert more == [] + Recorded(s.frames, s.epoch, n - 1) + [] == Recorded(s.frames, s.epoch, n - 1);
    } else {
      assert more == [];
    }
    assert s.history.Rects(l, e.age, e.frame.damage) == e.frame.damage + more;
    DamagedSum(l, e.frame.damage, more, row, offset);
  }

  lemma DamagedSum(l: Layout, a: seq<Rect>, b: seq<Rect>, row: int, offset: int)
    ensures Damaged(l, a + b, row, offset) ==> Damaged(l, a, row, offset) || Damaged(l, b, row, offset)
  {
    if Damaged(l, a + b, row, offset) {
      var k :| 0 <= k < |a + b| && Touches(l, (a + b)[k], row, offset);
      assert if k < |a| then (a + b)[k] == a[k] else (a + b)[k] == b[k - |a|];
    }
  }

  lemma {:induction false} RunKeepsBuffers(s: Screen, events: seq<Event>)
    requires LegalRun(s, events)
    ensures |Run(s, events).buffers| == |s.buffers|
    decreases |events|
  {
    if events != [] {
      RunKeepsBuffers(Apply(s, events[0]), events[1..]);
    }
  }

  /** A partial copy never writes row padding: only whole-frame copies do. */
  lemma PartialCopyKeepsPadding(h: History, l: Layout, age: nat, damage: seq<Rect>, shadow: seq<byte>,
                                scanout: seq<byte>, row: nat, offset: nat)
    requires |shadow| == |scanout| && l.Fits(|scanout|) && !h.NeedsFullCopy(l, age)
    requires row < l.height && l.width * l.bytesPerPixel <= offset < l.strideBytes
    ensures 0 <= row * l.strideBytes + offset < |scanout|
    ensures Copied(h, l, age, damage, shadow, scanout)[row * l.strideBytes + offset]
         == scanout[row * l.strideBytes + offset]
  {
    RowIndex(l, |scanout|, row, offset);
    if Damaged(l, h.Rects(l, age, damage), row, offset) {
      DamageIsVisible(l, h.Rects(l, age, damage), row, offset);
    }
  }
}
