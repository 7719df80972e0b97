/**
  The sectioned progress bar of VoiceDetectionApp: a song is cut into
  sections of `chunksInView` chunks; timeToProgressBarValue and
  progressBarValueToTime convert between playback milliseconds and the
  (section, chunk offset) pair, and updateProgressBarHandle moves the handle,
  detecting a section wrap by the handle jumping between the two edges of
  the bar. The zoom manager's `currentChunksInView` and the bar's width are
  parameters; the handle's own `move` is recorded, not performed.
 */
module Sections {
  import opened Common

  /** Milliseconds shown by one section. */
  function VisibleDuration(chunksInView: nat): (v: nat)
    requires chunksInView > 0
    ensures v > 0
  {
    chunksInView * ChunkDurationMs
  }

  /** What timeToProgressBarValue leaves behind: the new section index and the bar value. */
  datatype BarPosition = BarPosition(section: int, value: int)

  /**
    timeToProgressBarValue: the section holding `timeMs` and the number of
    whole chunks into it. Python's `//` and `%` round toward negative
    infinity, which for the positive divisors here is Dafny's `/` and `%`.
   */
  function TimeToProgressValue(timeMs: int, chunksInView: nat): (p: BarPosition)
    requires chunksInView > 0
    ensures 0 <= p.value < chunksInView
    ensures var start := p.section * VisibleDuration(chunksInView) + p.value * ChunkDurationMs;
      start <= timeMs < start + ChunkDurationMs
  {
    var visible := VisibleDuration(chunksInView);
    var local := timeMs % visible;
    LocalChunkBounds(local, chunksInView);
    BarPosition(timeMs / visible, local / ChunkDurationMs)
  }

  lemma {:induction false} LocalChunkBounds(local: int, chunksInView: nat)
    requires chunksInView > 0 && 0 <= local < chunksInView * ChunkDurationMs
    ensures 0 <= local / ChunkDurationMs < chunksInView
  {
  }

  /** progressBarValueToTime: the start of chunk `value` of section `section`. */
  function ProgressValueToTime(section: int, value: int, chunksInView: nat): int
    requires chunksInView > 0
  {
    section * VisibleDuration(chunksInView) + value * ChunkDurationMs
  }

  /**
    Converting a time to a bar value and back gives the start of the chunk
    holding the time.
   */
  lemma {:induction false} TimeRoundTrip(timeMs: int, chunksInView: nat)
    requires chunksInView > 0
    ensures var p := TimeToProgressValue(timeMs, chunksInView);
      ProgressValueToTime(p.section, p.value, chunksInView) == timeMs - timeMs % ChunkDurationMs
  {
    var p := TimeToProgressValue(timeMs, chunksInView);
    var start := ProgressValueToTime(p.section, p.value, chunksInView);
    assert start == (p.section * chunksInView + p.value) * ChunkDurationMs;
    ChunkStart(timeMs, p.section * chunksInView + p.value);
  }

  /** A time that lies in chunk `k` has `k * 40` as its chunk start. */
  lemma {:induction false} ChunkStart(timeMs: int, k: int)
    requires k * ChunkDurationMs <= timeMs < k * ChunkDurationMs + ChunkDurationMs
    ensures timeMs - timeMs % ChunkDurationMs == k * ChunkDurationMs
  {
    ModUnique(timeMs, k, timeMs - k * ChunkDurationMs, ChunkDurationMs);
  }

  /** A section and an in-range bar value come back unchanged from a time round trip. */
  lemma {:induction false} ValueRoundTrip(section: int, value: int, chunksInView: nat)
    requires chunksInView > 0 && 0 <= value < chunksInView
    ensures TimeToProgressValue(ProgressValueToTime(section, value, chunksInView), chunksInView) == BarPosition(section, value)
  {
    var t := ProgressValueToTime(section, value, chunksInView);
    var p := TimeToProgressValue(t, chunksInView);
    var k1 := p.section * chunksInView + p.value;
    var k2 := section * chunksInView + value;
    assert k1 * ChunkDurationMs <= t < k1 * ChunkDurationMs + ChunkDurationMs;
    assert t == k2 * ChunkDurationMs + 0;
    ModUnique(t, k1, t - k1 * ChunkDurationMs, ChunkDurationMs);
    ModUnique(t, k2, 0, ChunkDurationMs);
    SplitUnique(p.section, p.value, section, value, chunksInView);
  }

  /** Writing a chunk index as section and offset is unique. */
  lemma {:induction false} SplitUnique(s1: int, v1: int, s2: int, v2: int, n: nat)
    requires n > 0 && 0 <= v1 < n && 0 <= v2 < n
    requires s1 * n + v1 == s2 * n + v2
    ensures s1 == s2 && v1 == v2
  {
    ModUnique(s1 * n + v1, s1, v1, n);
    ModUnique(s1 * n + v1, s2, v2, n);
  }

  // ---------------------------------------------------------------------------
  // updateProgressBarHandle
  // ---------------------------------------------------------------------------

  /** Distance from a bar edge within which the handle counts as at that edge, in pixels. */
  const EdgeZone: real := 50.0

  /**
    The app's section index, the handle's section index and the previous
    handle x.
   */
  datatype Bar = Bar(section: int, handleSection: int, previousX: real)

  /** A call of the handle's `move(x, section)`. */
  datatype Move = Move(x: real, section: int)

  /** Python's float `v % w` for `w > 0`: `v` less the largest multiple of `w` not above it. */
  function FMod(v: real, w: real): (m: real)
    requires w > 0.0
    ensures 0.0 <= m < w
  {
    var q := (v / w).Floor;
    FloorBounds(v, w, q);
    v - w * q as real
  }

  lemma {:induction false} FloorBounds(v: real, w: real, q: int)
    requires w > 0.0 && q == (v / w).Floor
    ensures w * q as real <= v < w * q as real + w
  {
    var r := v / w;
    assert q as real <= r < q as real + 1.0;
    DivTimes(v, w);
    SignOfProduct(r - q as real, w);
    SignOfProduct(q as real + 1.0 - r, w);
  }

  /** How far `timeMs` is into section `section`, in section lengths: `timeInSection / visibleDuration`. */
  function Ratio(timeMs: int, section: int, chunksInView: nat): real
    requires chunksInView > 0
  {
    (timeMs - section * VisibleDuration(chunksInView)) as real / VisibleDuration(chunksInView) as real
  }

  /** The handle x for `timeMs` in section `section`: `(ratio * width) % width`. */
  function HandleX(timeMs: int, section: int, chunksInView: nat, width: real): (x: real)
    requires chunksInView > 0 && width > 0.0
    ensures 0.0 <= x < width
  {
    Wrap(Ratio(timeMs, section, chunksInView), width)
  }

  /** The x of a handle `ratio` section lengths in: `(ratio * width) % width`. */
  function Wrap(ratio: real, width: real): (x: real)
    requires width > 0.0
    ensures 0.0 <= x < width
  {
    FMod(ratio * width, width)
  }

  /** The handle was at the right edge and is now at the left one. */
  predicate WrapsForward(previousX: real, x: real, width: real) {
    previousX > width - EdgeZone && x < EdgeZone
  }

  /** The handle was at the left edge and is now at the right one. */
  predicate WrapsBackward(previousX: real, x: real, width: real) {
    previousX < EdgeZone && x > width - EdgeZone
  }

  /**
    updateProgressBarHandle(timeMs) on a song of `chunks` chunks and a bar
    `width` pixels wide. Returns the new state and the handle move, if any.
   */
  function UpdateHandle(b: Bar, timeMs: int, chunks: nat, chunksInView: nat, width: real): (r: (Bar, Option<Move>))
    requires chunksInView > 0 && width > 0.0
    ensures var (b', mv) := r;
      && (mv.Some? ==> b'.previousX == mv.value.x && mv.value.section == b'.section && 0.0 <= mv.value.x <= width)
      && (mv.None? ==> b'.previousX == b.previousX)
      && (b'.handleSection == b.handleSection || b'.handleSection == b.section + 1 || b'.handleSection == b.section - 1)
      && (mv.Some? ==> b'.section - b.section in {-1, 0, 1})
      && (mv.Some? && b'.section == b.section ==> b'.handleSection == b.handleSection && mv == Some(Move(b'.previousX, b.section)))
  {
    var visible := VisibleDuration(chunksInView);
    var total := chunks * ChunkDurationMs;
    var x := HandleX(timeMs, b.section, chunksInView, width);
    if WrapsForward(b.previousX, x, width) then
      var s := b.section + 1;
      if s * visible >= total then (Bar(total / visible - 1, s, b.previousX), None)
      else (Bar(s, s, x), Some(Move(x, s)))
    else if WrapsBackward(b.previousX, x, width) then
      var s := b.section - 1;
      if s < 0 then (Bar(0, s, b.previousX), None)
      else (Bar(s, s, width), Some(Move(width, s)))
    else (Bar(b.section, b.handleSection, x), Some(Move(x, b.section)))
  }

  /**
    Playback crossing into the next section, seen just after the crossing:
    the handle wraps forward, the section index becomes the one
    timeToProgressBarValue computes, and the handle sits at the time's
    offset into that section.
   */
  lemma {:induction false} ForwardWrapTracksSection(b: Bar, timeMs: int, chunks: nat, chunksInView: nat, width: real)
    requires chunksInView > 0 && width > 0.0
    requires b.previousX > width - EdgeZone
    requires var start := (b.section + 1) * VisibleDuration(chunksInView);
      && start <= timeMs < start + VisibleDuration(chunksInView)
      && start < chunks * ChunkDurationMs
    requires Ratio(timeMs, b.section + 1, chunksInView) * width < EdgeZone
    ensures TimeToProgressValue(timeMs, chunksInView).section == b.section + 1
    ensures var s := b.section + 1;
      var x := HandleX(timeMs, b.section, chunksInView, width);
      UpdateHandle(b, timeMs, chunks, chunksInView, width) == (Bar(s, s, x), Some(Move(x, s)))
    ensures HandleX(timeMs, b.section, chunksInView, width) == Ratio(timeMs, b.section + 1, chunksInView) * width
  {
    HandleXNextSection(timeMs, b.section, chunksInView, width);
    UpdateHandleForward(b, timeMs, chunks, chunksInView, width);
    SectionOf(timeMs, b.section + 1, VisibleDuration(chunksInView));
  }

  /** A forward wrap that stays inside the song moves the handle to the next section. */
  lemma {:induction false} UpdateHandleForward(b: Bar, timeMs: int, chunks: nat, chunksInView: nat, width: real)
    requires chunksInView > 0 && width > 0.0
    requires WrapsForward(b.previousX, HandleX(timeMs, b.section, chunksInView, width), width)
    requires (b.section + 1) * VisibleDuration(chunksInView) < chunks * ChunkDurationMs
    ensures var s := b.section + 1;
      var x := HandleX(timeMs, b.section, chunksInView, width);
      UpdateHandle(b, timeMs, chunks, chunksInView, width) == (Bar(s, s, x), Some(Move(x, s)))
  {
  }

  /**
    Playback inside the current section with the handle away from the
    wrap zones: the section is unchanged and the handle sits at the time's
    offset into it.
   */
  lemma {:induction false} SteadyPlayback(b: Bar, timeMs: int, chunks: nat, chunksInView: nat, width: real)
    requires chunksInView > 0 && width > 0.0
    requires var start := b.section * VisibleDuration(chunksInView);
      start <= timeMs < start + VisibleDuration(chunksInView)
    requires EdgeZone <= b.previousX <= width - EdgeZone
    ensures TimeToProgressValue(timeMs, chunksInView).section == b.section
    ensures var x := HandleX(timeMs, b.section, chunksInView, width);
      UpdateHandle(b, timeMs, chunks, chunksInView, width) == (b.(previousX := x), Some(Move(x, b.section)))
    ensures HandleX(timeMs, b.section, chunksInView, width) == Ratio(timeMs, b.section, chunksInView) * width
  {
    HandleXSameSection(timeMs, b.section, chunksInView, width);
    UpdateHandleSteady(b, timeMs, chunks, chunksInView, width);
    SectionOf(timeMs, b.section, VisibleDuration(chunksInView));
  }

  /** For a time inside section `section`, the handle x is the offset into it. */
  lemma {:induction false} HandleXSameSection(timeMs: int, section: int, chunksInView: nat, width: real)
    requires chunksInView > 0 && width > 0.0
    requires var start := section * VisibleDuration(chunksInView);
      start <= timeMs < start + VisibleDuration(chunksInView)
    ensures HandleX(timeMs, section, chunksInView, width) == Ratio(timeMs, section, chunksInView) * width
  {
    RatioRange(timeMs, section, chunksInView);
    NoWrapAt(Ratio(timeMs, section, chunksInView), width);
  }

  /** With the previous x away from both edge zones no wrap is detected. */
  lemma {:induction false} UpdateHandleSteady(b: Bar, timeMs: int, chunks: nat, chunksInView: nat, width: real)
    requires chunksInView > 0 && width > 0.0
    requires EdgeZone <= b.previousX <= width - EdgeZone
    ensures var x := HandleX(timeMs, b.section, chunksInView, width);
      UpdateHandle(b, timeMs, chunks, chunksInView, width) == (b.(previousX := x), Some(Move(x, b.section)))
  {
  }

  /**
    Wrapping backward out of section 0: the app's section is clamped to 0
    but the handle's section index is left at -1, and the handle is not
    moved.
   */
  lemma {:induction false} BackwardWrapAtStart(b: Bar, timeMs: int, chunks: nat, chunksInView: nat, width: real)
    requires chunksInView > 0 && width > 0.0 && b.section == 0
    requires WrapsBackward(b.previousX, HandleX(timeMs, 0, chunksInView, width), width)
    requires !WrapsForward(b.previousX, HandleX(timeMs, 0, chunksInView, width), width)
    ensures UpdateHandle(b, timeMs, chunks, chunksInView, width) == (Bar(0, -1, b.previousX), None)
  {
  }

  /**
    Wrapping backward out of any section but the first: both section indices
    step back by one and the handle jumps to the right end of the bar,
    which becomes the previous x.
   */
  lemma {:induction false} UpdateHandleBackward(b: Bar, timeMs: int, chunks: nat, chunksInView: nat, width: real)
    requires chunksInView > 0 && width > 0.0 && b.section >= 1
    requires WrapsBackward(b.previousX, HandleX(timeMs, b.section, chunksInView, width), width)
    requires !WrapsForward(b.previousX, HandleX(timeMs, b.section, chunksInView, width), width)
    ensures var s := b.section - 1;
      UpdateHandle(b, timeMs, chunks, chunksInView, width) == (Bar(s, s, width), Some(Move(width, s)))
  {
  }

  /** For a time in the section after `section`, the handle x is the offset into that next section. */
  lemma {:induction false} HandleXNextSection(timeMs: int, section: int, chunksInView: nat, width: real)
    requires chunksInView > 0 && width > 0.0
    requires var start := (section + 1) * VisibleDuration(chunksInView);
      start <= timeMs < start + VisibleDuration(chunksInView)
    ensures HandleX(timeMs, section, chunksInView, width) == Ratio(timeMs, section + 1, chunksInView) * width
  {
    var r := Ratio(timeMs, section + 1, chunksInView);
    RatioShift(timeMs, section, chunksInView);
    RatioRange(timeMs, section + 1, chunksInView);
    WrapAt(r, width);
  }

  /** Measured from one section earlier, a time is one section length further in. */
  lemma {:induction false} RatioShift(timeMs: int, section: int, chunksInView: nat)
    requires chunksInView > 0
    ensures Ratio(timeMs, section, chunksInView) == Ratio(timeMs, section + 1, chunksInView) + 1.0
  {
    var visible := VisibleDuration(chunksInView);
    var d := timeMs - (section + 1) * visible;
    assert (timeMs - section * visible) as real == d as real + visible as real;
    DivShift(d as real, visible as real);
  }

  /** A time inside section `section` is between 0 and 1 section lengths into it. */
  lemma {:induction false} RatioRange(timeMs: int, section: int, chunksInView: nat)
    requires chunksInView > 0
    requires section * VisibleDuration(chunksInView) <= timeMs < section * VisibleDuration(chunksInView) + VisibleDuration(chunksInView)
    ensures 0.0 <= Ratio(timeMs, section, chunksInView) < 1.0
  {
    var visible := VisibleDuration(chunksInView);
    DivRange((timeMs - section * visible) as real, visible as real);
  }

  lemma {:induction false} DivShift(a: real, v: real)
    requires v > 0.0
    ensures (a + v) / v == a / v + 1.0
  {
    DivTimes(a, v);
    DivTimes(a + v, v);
    var z := (a + v) / v - a / v - 1.0;
    assert z * v == 0.0;
    SignOfProduct(z, v);
  }

  lemma {:induction false} DivRange(a: real, v: real)
    requires v > 0.0 && 0.0 <= a < v
    ensures 0.0 <= a / v < 1.0
  {
    DivTimes(a, v);
    SignOfProduct(a / v, v);
    SignOfProduct(a / v - 1.0, v);
  }

  /** `(off + 1) * width % width` is `off * width` for `0 <= off < 1`. */
  lemma {:induction false} WrapAt(off: real, width: real)
    requires 0.0 <= off < 1.0 && width > 0.0
    ensures Wrap(off + 1.0, width) == off * width
  {
    var v := (off + 1.0) * width;
    DivTimes(v, width);
    SignOfProduct(v / width - (off + 1.0), width);
    assert (v / width).Floor == 1;
    assert FMod(v, width) == v - width * 1.0;
  }

  /** `off * width % width` is `off * width` for `0 <= off < 1`. */
  lemma {:induction false} NoWrapAt(off: real, width: real)
    requires 0.0 <= off < 1.0 && width > 0.0
    ensures Wrap(off, width) == off * width
  {
    var v := off * width;
    DivTimes(v, width);
    SignOfProduct(v / width - off, width);
    assert (v / width).Floor == 0;
    assert FMod(v, width) == v - width * 0.0;
  }

  lemma {:induction false} DivTimes(a: real, v: real)
    requires v > 0.0
    ensures (a / v) * v == a
  {
  }

  lemma {:induction false} SignOfProduct(z: real, v: real)
    requires v > 0.0
    ensures z < 0.0 ==> z * v < 0.0
    ensures z > 0.0 ==> z * v > 0.0
    ensures z == 0.0 <==> z * v == 0.0
  {
  }

  lemma {:induction false} SectionOf(timeMs: int, s: int, visible: nat)
    requires visible > 0 && s * visible <= timeMs < s * visible + visible
    ensures timeMs / visible == s
  {
    ModUnique(timeMs, s, timeMs - s * visible, visible);
  }

  /**
    One concrete wrap: a 100-chunk view (4000 ms) on an 800-pixel bar, the
    handle last at x 780 in section 0, and playback at 4100 ms puts the
    handle at x 20 in section 1.
   */
  lemma {:induction false} WrapExample()
    ensures UpdateHandle(Bar(0, 0, 780.0), 4100, 300, 100, 800.0) == (Bar(1, 1, 20.0), Some(Move(20.0, 1)))
  {
    ForwardWrapTracksSection(Bar(0, 0, 780.0), 4100, 300, 100, 800.0);
  }

  /**
    Wrapping forward past the last section: the section index is clamped to
    `total // visible - 1`, the handle's section keeps the unclamped value,
    the handle is not moved and `previousX` keeps its old value.
   */
  lemma {:induction false} ForwardWrapClamps(b: Bar, timeMs: int, chunks: nat, chunksInView: nat, width: real)
    requires chunksInView > 0 && width > 0.0
    requires WrapsForward(b.previousX, HandleX(timeMs, b.section, chunksInView, width), width)
    requires (b.section + 1) * VisibleDuration(chunksInView) >= chunks * ChunkDurationMs
    ensures UpdateHandle(b, timeMs, chunks, chunksInView, width) ==
      (Bar(chunks / chunksInView - 1, b.section + 1, b.previousX), None)
  {
    DivCancel(chunks, chunksInView);
  }

  /** `(n * 40) // (v * 40) == n // v`. */
  lemma {:induction false} DivCancel(n: nat, v: nat)
    requires v > 0
    ensures (n * ChunkDurationMs) / (v * ChunkDurationMs) == n / v
  {
    var q := n / v;
    assert q * v <= n < q * v + v;
    assert q * (v * ChunkDurationMs) <= n * ChunkDurationMs < q * (v * ChunkDurationMs) + v * ChunkDurationMs;
    SectionOf(n * ChunkDurationMs, q, v * ChunkDurationMs);
  }

  // ---------------------------------------------------------------------------
  // updateDisplayedTime
  // ---------------------------------------------------------------------------

  /** The `mm:ss.mmm` parts updateDisplayedTime shows. */
  datatype Clock = Clock(minutes: int, seconds: int, millis: int)

  /** updateDisplayedTime: minutes, seconds within the minute, milliseconds within the second. */
  function DisplayedTime(timeMs: int): (c: Clock)
    ensures c.minutes * 60000 + c.seconds * 1000 + c.millis == timeMs
    ensures 0 <= c.seconds < 60 && 0 <= c.millis < 1000
    ensures timeMs >= 0 ==> c.minutes >= 0
  {
    var c := Clock(timeMs / 60000, (timeMs % 60000) / 1000, timeMs % 1000);
    ClockSplit(timeMs);
    c
  }

  lemma {:induction false} ClockSplit(timeMs: int)
    ensures (timeMs / 60000) * 60000 + ((timeMs % 60000) / 1000) * 1000 + timeMs % 1000 == timeMs
    ensures 0 <= (timeMs % 60000) / 1000 < 60
  {
    var r := timeMs % 60000;
    assert timeMs == (timeMs / 60000) * 60000 + r;
    assert r == (r / 1000) * 1000 + r % 1000;
    assert timeMs % 1000 == r % 1000 by {
      assert timeMs == ((timeMs / 60000) * 60 + r / 1000) * 1000 + r % 1000;
      ModUnique(timeMs, (timeMs / 60000) * 60 + r / 1000, r % 1000, 1000);
    }
  }

  /** Quotient and remainder of Euclidean division are unique. */
  lemma {:induction false} ModUnique(a: int, q: int, r: int, d: nat)
    requires d > 0 && 0 <= r < d && a == q * d + r
    ensures a % d == r && a / d == q
  {
    var q' := a / d;
    assert a == q' * d + a % d;
    if q' < q {
      MulStep(q', q, d);
    } else if q' > q {
      MulStep(q, q', d);
    }
  }

  lemma {:induction false} MulStep(a: int, b: int, d: int)
    requires a < b && d > 0
    ensures a * d + d <= b * d
  {
    var k := b - a - 1;
    assert k * d >= 0;
    assert b * d == a * d + k * d + d;
  }

  /** The clock reading is the only one with in-range seconds and milliseconds for its time. */
  lemma {:induction false} DisplayedTimeUnique(c: Clock)
    requires 0 <= c.seconds < 60 && 0 <= c.millis < 1000
    ensures DisplayedTime(c.minutes * 60000 + c.seconds * 1000 + c.millis) == c
  {
    var t := c.minutes * 60000 + c.seconds * 1000 + c.millis;
    ModUnique(t, c.minutes, c.seconds * 1000 + c.millis, 60000);
    ModUnique(c.seconds * 1000 + c.millis, c.seconds, c.millis, 1000);
    ModUnique(t, c.minutes * 60 + c.seconds, c.millis, 1000);
  }
}
