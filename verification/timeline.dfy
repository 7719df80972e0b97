/**
  The per-member activity timeline of TrackItem.initializeTimeline.

  The source stores `activeChunks * chunk_duration / 1000` seconds in every slot.
  Every value it ever stores is such a product, so the model keeps the integer
  `activeChunks` count instead: the seconds value is the count times 0.04.
 */
module Timeline {
  import opened Common

  /** A persisted label: `member` sings during chunks `start..end`, both inclusive. */
  datatype Label = Label(member: Member, start: int, end: int)

  /** The `(start, end)` pair the source collects into `labelRanges`. */
  datatype Range = Range(start: int, end: int)

  /** What initializeTimeline leaves behind: the timeline and `lastUpdateChunk`. */
  datatype TimelineState = TimelineState(counts: seq<nat>, lastUpdateChunk: int)

  /** The ranges of member `m`'s labels, in label-list order. */
  function MemberRanges(labels: seq<Label>, m: Member): (rs: seq<Range>)
    ensures |rs| <= |labels|
  {
    if labels == [] then []
    else
      (if labels[0].member == m then [Range(labels[0].start, labels[0].end)] else [])
      + MemberRanges(labels[1..], m)
  }

  /** A range is collected exactly when some label of member `m` spans it. */
  lemma {:induction false} MemberRangesContents(labels: seq<Label>, m: Member, r: Range)
    ensures r in MemberRanges(labels, m) <==> exists l :: l in labels && l.member == m && Range(l.start, l.end) == r
  {
    if labels != [] {
      MemberRangesContents(labels[1..], m, r);
      assert forall l :: l in labels <==> l == labels[0] || l in labels[1..];
    }
  }

  /** Filtering a concatenation filters each part, keeping label-list order. */
  lemma {:induction false} MemberRangesAppend(a: seq<Label>, b: seq<Label>, m: Member)
    ensures MemberRanges(a + b, m) == MemberRanges(a, m) + MemberRanges(b, m)
  {
    if a == [] {
      assert a + b == b;
    } else {
      assert (a + b)[0] == a[0];
      assert (a + b)[1..] == a[1..] + b;
      MemberRangesAppend(a[1..], b, m);
      var head := if a[0].member == m then [Range(a[0].start, a[0].end)] else [];
      assert MemberRanges(a + b, m) == head + MemberRanges(a[1..] + b, m);
      assert MemberRanges(a, m) == head + MemberRanges(a[1..], m);
    }
  }

  /** Number of chunks in a range (an empty Python range when start > end). */
  function Len(r: Range): nat {
    if r.start <= r.end then r.end - r.start + 1 else 0
  }

  /**
    The first loop's inner `for chunkIndex in range(c, end + 1)`: each chunk
    bumps the counter and stores it at Python index `chunkIndex`.
   */
  function WriteFrom(tl: seq<nat>, c: int, end: int, count: nat): (r: Result<seq<nat>>)
    ensures r.Ok? <==> (c > end || (-(|tl| as int) <= c && end < |tl|))
    ensures r.Ok? ==> |r.value| == |tl|
    ensures r.Ok? && 0 <= c ==>
      forall j :: 0 <= j < |tl| ==>
        r.value[j] == (if c <= j <= end then count + (j - c) + 1 else tl[j])
    decreases end - c + 1
  {
    if c > end then Ok(tl)
    else
      match PyIndex(c, |tl|)
      case None => Err(IndexError)
      case Some(j) => WriteFrom(tl[j := count + 1], c + 1, end, count + 1)
  }

  /** The first loop over the member's ranges, the counter running on across ranges. */
  function FirstPass(tl: seq<nat>, rs: seq<Range>, count: nat): (r: Result<seq<nat>>)
    decreases |rs|
    ensures r.Ok? <==>
      forall k :: 0 <= k < |rs| ==> rs[k].start > rs[k].end || (-(|tl| as int) <= rs[k].start && rs[k].end < |tl|)
    ensures r.Ok? ==> |r.value| == |tl|
  {
    if rs == [] then Ok(tl)
    else
      match WriteFrom(tl, rs[0].start, rs[0].end, count)
      case Err(e) => Err(e)
      case Ok(t) =>
        var r := FirstPass(t, rs[1..], count + Len(rs[0]));
        assert forall k :: 1 <= k < |rs| ==> rs[k] == rs[1..][k - 1];
        r
  }

  /**
    The second loop: chunk `c` inside the range numbered `ptr` is left
    alone (and closes the range at its end); any other chunk gets `lastTime`.
    Returns the timeline and `lastUpdateChunk`.
   */
  function Fill(tl: seq<nat>, rs: seq<Range>, c: nat, ptr: nat, lastTime: nat, lastUpdate: int): (seq<nat>, int)
    requires c <= |tl|
    decreases |tl| - c
  {
    if c == |tl| then (tl, lastUpdate)
    else if ptr < |rs| && rs[ptr].start <= c <= rs[ptr].end then
      if c == rs[ptr].end then Fill(tl, rs, c + 1, ptr + 1, tl[c], c)
      else Fill(tl, rs, c + 1, ptr, lastTime, lastUpdate)
    else Fill(tl[c := lastTime], rs, c + 1, ptr, lastTime, lastUpdate)
  }

  /**
    TrackItem.initializeTimeline for member `m` over `n` chunks. `last` is the
    track's `lastUpdateChunk` before the call: 0 from the TrackItem constructor,
    the previous value when saving labels re-runs the method. It is kept when
    no range closes.
   */
  function InitializeTimeline(labels: seq<Label>, m: Member, n: nat, last: int): (r: Result<TimelineState>)
    ensures r.Ok? ==> |r.value.counts| == n
    ensures r.Ok? <==>
      var rs := MemberRanges(labels, m);
      forall k :: 0 <= k < |rs| ==> rs[k].start > rs[k].end || (-(n as int) <= rs[k].start && rs[k].end < n)
  {
    var rs := MemberRanges(labels, m);
    match FirstPass(seq(n, _ => 0), rs, 0)
    case Err(e) => Err(e)
    case Ok(tl) =>
      var (t, u) := Fill(tl, rs, 0, 0, 0, last);
      FillLength(tl, rs, 0, 0, 0, last);
      Ok(TimelineState(t, u))
  }

  lemma {:induction false} FillLength(tl: seq<nat>, rs: seq<Range>, c: nat, ptr: nat, lastTime: nat, lastUpdate: int)
    requires c <= |tl|
    ensures |Fill(tl, rs, c, ptr, lastTime, lastUpdate).0| == |tl|
    decreases |tl| - c
  {
    if c == |tl| {
    } else if ptr < |rs| && rs[ptr].start <= c <= rs[ptr].end {
      if c == rs[ptr].end {
        FillLength(tl, rs, c + 1, ptr + 1, tl[c], c);
      } else {
        FillLength(tl, rs, c + 1, ptr, lastTime, lastUpdate);
      }
    } else {
      FillLength(tl[c := lastTime], rs, c + 1, ptr, lastTime, lastUpdate);
    }
  }

  // ---------------------------------------------------------------------------
  // Reference semantics: the running count of labelled chunks.
  // ---------------------------------------------------------------------------

  /** Ranges inside `[0, n)`, each non-empty, ascending and pairwise disjoint. */
  ghost predicate WellFormed(rs: seq<Range>, n: nat) {
    && (forall k :: 0 <= k < |rs| ==> 0 <= rs[k].start <= rs[k].end < n)
    && (forall k, l :: 0 <= k < l < |rs| ==> rs[k].end < rs[l].start)
  }

  /** Chunk `c` lies inside some range. */
  ghost predicate Covered(rs: seq<Range>, c: int) {
    exists k :: 0 <= k < |rs| && rs[k].start <= c <= rs[k].end
  }

  /** Chunks of `r` at or before `c`. */
  function Clip(r: Range, c: int): nat {
    if r.end < r.start || c < r.start then 0
    else if c <= r.end then c - r.start + 1
    else r.end - r.start + 1
  }

  /** Labelled chunks at or before `c`, summed over all ranges. */
  function CountUpTo(rs: seq<Range>, c: int): nat {
    if rs == [] then 0 else Clip(rs[0], c) + CountUpTo(rs[1..], c)
  }

  lemma {:induction false} WellFormedTail(rs: seq<Range>, n: nat)
    requires WellFormed(rs, n) && rs != []
    ensures WellFormed(rs[1..], n)
  {
    forall k, l | 0 <= k < l < |rs| - 1
      ensures rs[1..][k].end < rs[1..][l].start
    {
      assert rs[1..][k] == rs[k + 1] && rs[1..][l] == rs[l + 1];
    }
  }

  /** Nothing before the first start is counted. */
  lemma {:induction false} CountBeforeAll(rs: seq<Range>, c: int)
    requires forall k :: 0 <= k < |rs| ==> c < rs[k].start
    ensures CountUpTo(rs, c) == 0
  {
    if rs != [] {
      assert forall k :: 0 <= k < |rs| - 1 ==> rs[1..][k] == rs[k + 1];
      CountBeforeAll(rs[1..], c);
    }
  }

  /** Between two chunks, the count grows by one exactly at covered chunks. */
  lemma {:induction false} CountStep(rs: seq<Range>, n: nat, c: int)
    requires WellFormed(rs, n)
    ensures CountUpTo(rs, c) == CountUpTo(rs, c - 1) + (if Covered(rs, c) then 1 else 0)
  {
    if rs != [] {
      WellFormedTail(rs, n);
      CountStep(rs[1..], n, c);
      CoveredHead(rs, n, c);
      var r := rs[0];
      assert Clip(r, c) == Clip(r, c - 1) + (if r.start <= c <= r.end then 1 else 0);
    }
  }

  /** The count stays flat over a stretch of uncovered chunks. */
  lemma {:induction false} CountFlat(rs: seq<Range>, n: nat, a: int, b: int)
    requires WellFormed(rs, n) && a <= b
    requires forall j :: a < j <= b ==> !Covered(rs, j)
    ensures CountUpTo(rs, b) == CountUpTo(rs, a)
    decreases b - a
  {
    if a < b {
      CountStep(rs, n, b);
      CountFlat(rs, n, a, b - 1);
    }
  }

  /**
    The first loop writes the running count into every covered chunk and
    leaves every other chunk as it was.
   */
  lemma {:induction false} FirstPassCounts(tl: seq<nat>, rs: seq<Range>, count: nat)
    requires WellFormed(rs, |tl|)
    decreases |rs|
    ensures FirstPass(tl, rs, count).Ok?
    ensures forall j :: 0 <= j < |tl| ==>
      FirstPass(tl, rs, count).value[j] == (if Covered(rs, j) then count + CountUpTo(rs, j) else tl[j])
  {
    if rs != [] {
      var r0 := rs[0];
      var t := WriteFrom(tl, r0.start, r0.end, count).value;
      WellFormedTail(rs, |tl|);
      FirstPassCounts(t, rs[1..], count + Len(r0));
      var res := FirstPass(tl, rs, count).value;
      assert res == FirstPass(t, rs[1..], count + Len(r0)).value;
      forall j | 0 <= j < |tl|
        ensures res[j] == (if Covered(rs, j) then count + CountUpTo(rs, j) else tl[j])
      {
        CoveredHead(rs, |tl|, j);
      }
    }
  }

  /**
    For well-formed ranges, a chunk of the first range is covered and lies
    before every later range; any other chunk is covered exactly when a
    later range covers it.
   */
  lemma {:induction false} CoveredHead(rs: seq<Range>, n: nat, j: int)
    requires WellFormed(rs, n) && rs != []
    ensures rs[0].start <= j <= rs[0].end ==> Covered(rs, j) && CountUpTo(rs[1..], j) == 0
    ensures !(rs[0].start <= j <= rs[0].end) ==> (Covered(rs, j) <==> Covered(rs[1..], j))
  {
    if rs[0].start <= j <= rs[0].end {
      assert Covered(rs, j);
      assert forall k :: 0 <= k < |rs[1..]| ==> rs[1..][k] == rs[k + 1];
      CountBeforeAll(rs[1..], j);
    } else {
      if Covered(rs[1..], j) {
        var k :| 0 <= k < |rs[1..]| && rs[1..][k].start <= j <= rs[1..][k].end;
        assert rs[1..][k] == rs[k + 1];
      }
      if Covered(rs, j) {
        var k :| 0 <= k < |rs| && rs[k].start <= j <= rs[k].end;
        assert rs[1..][k - 1] == rs[k];
      }
    }
  }

  /** Loop state of the second loop when it reaches chunk `c` (for well-formed ranges). */
  ghost predicate FillInvariant(tl: seq<nat>, rs: seq<Range>, c: nat, ptr: nat, lastTime: nat, lastUpdate: int, prior: int)
  {
    && c <= |tl|
    && WellFormed(rs, |tl|)
    && ptr <= |rs|
    && (forall k :: 0 <= k < ptr ==> rs[k].end < c)
    && (ptr < |rs| ==> c <= rs[ptr].end)
    && lastTime == (if ptr == 0 then 0 else CountUpTo(rs, rs[ptr - 1].end))
    && lastUpdate == (if ptr == 0 then prior else rs[ptr - 1].end)
    && (forall j :: 0 <= j < c ==> tl[j] == CountUpTo(rs, j))
    && (forall j :: c <= j < |tl| ==> tl[j] == (if Covered(rs, j) then CountUpTo(rs, j) else 0))
  }

  /** In the fill branch of the second loop, chunk `c` lies in no range. */
  lemma {:induction false} FillChunkUncovered(tl: seq<nat>, rs: seq<Range>, c: nat, ptr: nat, lastTime: nat, lastUpdate: int, prior: int)
    requires FillInvariant(tl, rs, c, ptr, lastTime, lastUpdate, prior) && c < |tl|
    requires !(ptr < |rs| && rs[ptr].start <= c <= rs[ptr].end)
    ensures !Covered(rs, c)
  {
    forall k | 0 <= k < |rs|
      ensures !(rs[k].start <= c <= rs[k].end)
    {
      if k > ptr {
        assert rs[ptr].end < rs[k].start;
      }
    }
  }

  /** In the fill branch of the second loop, `lastTime` is the running count at `c`. */
  lemma {:induction false} FillChunkHolds(tl: seq<nat>, rs: seq<Range>, c: nat, ptr: nat, lastTime: nat, lastUpdate: int, prior: int)
    requires FillInvariant(tl, rs, c, ptr, lastTime, lastUpdate, prior) && c < |tl|
    requires !(ptr < |rs| && rs[ptr].start <= c <= rs[ptr].end)
    ensures lastTime == CountUpTo(rs, c)
  {
    if ptr == 0 {
      forall k | 0 <= k < |rs|
        ensures c < rs[k].start
      {
        if k > 0 {
          assert rs[0].end < rs[k].start;
        }
      }
      CountBeforeAll(rs, c);
    } else {
      var e := rs[ptr - 1].end;
      forall j | e < j <= c
        ensures !Covered(rs, j)
      {
        forall k | 0 <= k < |rs|
          ensures !(rs[k].start <= j <= rs[k].end)
        {
          if k < ptr - 1 {
            assert rs[k].end < rs[ptr - 1].start;
          } else if k > ptr {
            assert rs[ptr].end < rs[k].start;
          }
        }
      }
      CountFlat(rs, |tl|, e, c);
    }
  }

  /** Inside the range `rs[ptr]`, the second loop keeps the chunk and the invariant holds at `c + 1`. */
  lemma {:induction false} FillStepInside(tl: seq<nat>, rs: seq<Range>, c: nat, ptr: nat, lastTime: nat, lastUpdate: int, prior: int)
    requires FillInvariant(tl, rs, c, ptr, lastTime, lastUpdate, prior) && c < |tl|
    requires ptr < |rs| && rs[ptr].start <= c <= rs[ptr].end
    ensures c == rs[ptr].end ==> FillInvariant(tl, rs, c + 1, ptr + 1, tl[c], c, prior)
    ensures c < rs[ptr].end ==> FillInvariant(tl, rs, c + 1, ptr, lastTime, lastUpdate, prior)
  {
    assert Covered(rs, c);
    if c == rs[ptr].end && ptr + 1 < |rs| {
      assert rs[ptr].end < rs[ptr + 1].start;
    }
  }

  /** Outside every range, the second loop writes `lastTime` and the invariant holds at `c + 1`. */
  lemma {:induction false} FillStepOutside(tl: seq<nat>, rs: seq<Range>, c: nat, ptr: nat, lastTime: nat, lastUpdate: int, prior: int)
    requires FillInvariant(tl, rs, c, ptr, lastTime, lastUpdate, prior) && c < |tl|
    requires !(ptr < |rs| && rs[ptr].start <= c <= rs[ptr].end)
    ensures FillInvariant(tl[c := lastTime], rs, c + 1, ptr, lastTime, lastUpdate, prior)
  {
    FillChunkUncovered(tl, rs, c, ptr, lastTime, lastUpdate, prior);
    FillChunkHolds(tl, rs, c, ptr, lastTime, lastUpdate, prior);
  }

  /** Under the invariant, the second loop ends with the running count everywhere. */
  lemma {:induction false} FillCounts(tl: seq<nat>, rs: seq<Range>, c: nat, ptr: nat, lastTime: nat, lastUpdate: int, prior: int)
    requires FillInvariant(tl, rs, c, ptr, lastTime, lastUpdate, prior)
    ensures |Fill(tl, rs, c, ptr, lastTime, lastUpdate).0| == |tl|
    ensures forall j :: 0 <= j < |tl| ==> Fill(tl, rs, c, ptr, lastTime, lastUpdate).0[j] == CountUpTo(rs, j)
    ensures Fill(tl, rs, c, ptr, lastTime, lastUpdate).1 == (if rs == [] then prior else rs[|rs| - 1].end)
    decreases |tl| - c
  {
    if c == |tl| {
    } else if ptr < |rs| && rs[ptr].start <= c <= rs[ptr].end {
      FillStepInside(tl, rs, c, ptr, lastTime, lastUpdate, prior);
      if c == rs[ptr].end {
        FillCounts(tl, rs, c + 1, ptr + 1, tl[c], c, prior);
      } else {
        FillCounts(tl, rs, c + 1, ptr, lastTime, lastUpdate, prior);
      }
    } else {
      FillStepOutside(tl, rs, c, ptr, lastTime, lastUpdate, prior);
      FillCounts(tl[c := lastTime], rs, c + 1, ptr, lastTime, lastUpdate, prior);
    }
  }

  /**
    For well-formed label ranges the timeline holds, at every chunk, the number
    of the member's labelled chunks up to and including it, and
    `lastUpdateChunk` is the end of the member's last range (the prior value
    without labels).
   */
  lemma {:induction false} TimelineIsRunningCount(labels: seq<Label>, m: Member, n: nat, last: int)
    requires WellFormed(MemberRanges(labels, m), n)
    ensures InitializeTimeline(labels, m, n, last).Ok?
    ensures forall c :: 0 <= c < n ==>
      InitializeTimeline(labels, m, n, last).value.counts[c] == CountUpTo(MemberRanges(labels, m), c)
    ensures var rs := MemberRanges(labels, m);
      InitializeTimeline(labels, m, n, last).value.lastUpdateChunk == (if rs == [] then last else rs[|rs| - 1].end)
  {
    var rs := MemberRanges(labels, m);
    var zero: seq<nat> := seq(n, _ => 0);
    FirstPassCounts(zero, rs, 0);
    var tl := FirstPass(zero, rs, 0).value;
    assert FillInvariant(tl, rs, 0, 0, 0, last, last);
    FillCounts(tl, rs, 0, 0, 0, last, last);
  }

  /**
    The timeline is the running count of labelled chunks: it starts at 0 and
    steps up by one exactly at the chunks some label of the member covers.
   */
  lemma {:induction false} TimelineSteps(labels: seq<Label>, m: Member, n: nat, last: int, c: nat)
    requires WellFormed(MemberRanges(labels, m), n)
    requires c < n
    ensures InitializeTimeline(labels, m, n, last).Ok?
    ensures var counts := InitializeTimeline(labels, m, n, last).value.counts;
      var step := if Covered(MemberRanges(labels, m), c) then 1 else 0;
      counts[c] == (if c == 0 then 0 else counts[c - 1]) + step
  {
    var rs := MemberRanges(labels, m);
    TimelineIsRunningCount(labels, m, n, last);
    CountStep(rs, n, c);
    if c == 0 {
      CountBeforeAll(rs, -1);
    }
  }

  /** With well-formed ranges the timeline never decreases. */
  lemma {:induction false} TimelineMonotone(labels: seq<Label>, m: Member, n: nat, last: int, a: nat, b: nat)
    requires WellFormed(MemberRanges(labels, m), n)
    requires a <= b < n
    ensures InitializeTimeline(labels, m, n, last).Ok?
    ensures InitializeTimeline(labels, m, n, last).value.counts[a] <= InitializeTimeline(labels, m, n, last).value.counts[b]
    decreases b - a
  {
    TimelineSteps(labels, m, n, last, b);
    if a < b {
      TimelineMonotone(labels, m, n, last, a, b - 1);
    }
  }
  /** With no ranges, or the first one empty, the second loop never closes a range. */
  lemma {:induction false} FillStuck(tl: seq<nat>, rs: seq<Range>, c: nat, lastTime: nat, lastUpdate: int)
    requires c <= |tl|
    requires rs == [] || rs[0].start > rs[0].end
    ensures Fill(tl, rs, c, 0, lastTime, lastUpdate).1 == lastUpdate
    decreases |tl| - c
  {
    if c < |tl| {
      FillStuck(tl[c := lastTime], rs, c + 1, lastTime, lastUpdate);
    }
  }

  /**
    When the member has no labels, or its first label ends before it starts,
    no range closes and `lastUpdateChunk` keeps the value it had before the call.
   */
  lemma {:induction false} InitializeTimelineKeepsLast(labels: seq<Label>, m: Member, n: nat, last: int)
    requires InitializeTimeline(labels, m, n, last).Ok?
    requires var rs := MemberRanges(labels, m); rs == [] || rs[0].start > rs[0].end
    ensures InitializeTimeline(labels, m, n, last).value.lastUpdateChunk == last
  {
    var rs := MemberRanges(labels, m);
    var tl := FirstPass(seq(n, _ => 0), rs, 0).value;
    FillStuck(tl, rs, 0, 0, last);
  }
}
