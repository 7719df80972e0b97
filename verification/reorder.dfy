/**
  TrackItem.checkAndSwap: the per-chunk overtake decision of one member
  against the members ranked above it, the animations it queues, and the
  splice of the rank order.

  The two canvas reads of the source (the on-screen Y of the first two ranked
  images, from which `heightOffset` is taken once, and the member's own
  on-screen Y, which is stored into the position timeline) are taken from the
  `screenY` parameter: the replay never moves an image, so these reads return
  the Y each image had when the replay began.
 */
module Reorder {
  import opened Common
  import opened Animation

  /** How far ahead the other member's timeline is read. */
  const LookAhead: nat := 4

  /** `(scaledHeight, yOffset)`: the row pitch and the Y of row 0. */
  datatype HeightOffset = HeightOffset(rowHeight: real, yOffset: real)

  /** The per-member state a TrackItem keeps. */
  datatype Track = Track(
    counts: seq<nat>,
    positions: seq<real>,
    anims: seq<Anim>,
    heightOffset: Option<HeightOffset>)

  /** The parent's `memberImages`: its key order is the rank order. */
  datatype Layout = Layout(order: seq<Member>, tracks: map<Member, Track>)

  /** An entry of `positionsToUpdate`: the member at `row` is pushed to `row + 1`. */
  datatype Displacement = Displacement(member: Member, row: nat, startChunk: int, endChunk: int)

  /**
    State of the scan over higher ranks: `endingRow` is the row the member will
    move to, `displaced` the members overtaken so far (so `membersToPass` is
    its length) and `base` the `baseChunkLength` of the latest iteration.
   */
  datatype Scan = Scan(endingRow: nat, displaced: seq<Displacement>, base: nat)

  /** The shape the parent's dictionary always has over `n` chunks. */
  ghost predicate ValidLayout(l: Layout, n: nat) {
    && Distinct(l.order)
    && (forall x :: x in l.tracks <==> x in l.order)
    && (forall x :: x in l.tracks ==> |l.tracks[x].counts| == n && |l.tracks[x].positions| == n)
  }

  /** Y coordinate of a rank row. */
  function RowY(row: int, ho: HeightOffset): real {
    row as real * ho.rowHeight + ho.yOffset
  }

  /** 12 chunks when the compared member has sung by the look-ahead chunk, else 10. */
  function BaseLength(lookAheadValue: nat): (b: nat)
    ensures b == 10 || b == 12
    ensures b == 12 <==> lookAheadValue > 0
  {
    if lookAheadValue > 0 then 12 else 10
  }

  /**
    The overtake test against one higher-ranked member whose look-ahead value
    is `other`, after `passed` members were already overtaken in this scan.
   */
  predicate Overtakes(own: seq<nat>, other: nat, c: nat, passed: nat)
    requires c < |own|
  {
    var futureIndex := c + BaseLength(other) + 2 * (passed - 1);
    || own[c] > other
    || (c < |own| - futureIndex - 1 && own[futureIndex] > other && passed > 1)
  }

  /**
    The look-ahead value `timeline[c + 4]` of the member at each rank; the
    scan reads these and nothing else of the other members.
   */
  function LookAheadValues(l: Layout, n: nat, c: nat): (vals: seq<nat>)
    requires ValidLayout(l, n) && c + LookAhead < n
    ensures |vals| == |l.order|
    ensures forall j :: 0 <= j < |l.order| ==> vals[j] == l.tracks[l.order[j]].counts[c + LookAhead]
  {
    seq(|l.order|, j requires 0 <= j < |l.order| => l.tracks[l.order[j]].counts[c + LookAhead])
  }

  /**
    The `k`-th member overtaken in a scan of member timeline `own` at chunk
    `c`, over the rank order `order` whose look-ahead values are `vals`: it
    sits at a higher rank, it passed the overtake test with `k` members
    already overtaken, and its transition starts `2 * k` chunks after `c` and
    lasts the base length of its look-ahead value.
   */
  ghost predicate Overtaken(order: seq<Member>, vals: seq<nat>, own: seq<nat>, c: nat, ds: seq<Displacement>, k: nat)
    requires k < |ds| && c < |own| && |vals| == |order|
  {
    var d := ds[k];
    && d.row < |order| && d.member == order[d.row]
    && Overtakes(own, vals[d.row], c, k)
    && d.startChunk == c + 2 * k
    && d.endChunk == d.startChunk + BaseLength(vals[d.row])
  }

  /**
    One iteration of the loop at rank `i`: compare with the member there and,
    when it is overtaken, record it and move the ending row up to `i`.
   */
  function ScanNext(own: seq<nat>, order: seq<Member>, vals: seq<nat>, c: nat, i: nat, s: Scan): (r: Scan)
    requires c < |own| && |vals| == |order| && i < |order|
    ensures var passed := |s.displaced|;
      && r.base == BaseLength(vals[i])
      && (Overtakes(own, vals[i], c, passed) ==>
            && r.endingRow == i
            && r.displaced == s.displaced + [Displacement(order[i], i, c + 2 * passed, c + 2 * passed + BaseLength(vals[i]))])
      && (!Overtakes(own, vals[i], c, passed) ==> r.endingRow == s.endingRow && r.displaced == s.displaced)
  {
    var base := BaseLength(vals[i]);
    var passed := |s.displaced|;
    if Overtakes(own, vals[i], c, passed) then
      Scan(i, s.displaced + [Displacement(order[i], i, c + 2 * passed, c + 2 * passed + base)], base)
    else
      s.(base := base)
  }

  /**
    The loop `for i in range(currentKeyIndex - 1, -1, -1)`, at rank `i`,
    for the member whose timeline is `own`.
   */
  function ScanFrom(own: seq<nat>, order: seq<Member>, vals: seq<nat>, c: nat, i: int, s: Scan): (r: Scan)
    requires c < |own| && |vals| == |order| && -1 <= i < |order|
    ensures |s.displaced| <= |r.displaced| <= |s.displaced| + i + 1
    decreases i + 1
  {
    if i < 0 then s
    else ScanFrom(own, order, vals, c, i - 1, ScanNext(own, order, vals, c, i, s))
  }

  /** A scan only appends: the members overtaken before it starts stay in place. */
  lemma {:induction false} ScanKeeps(own: seq<nat>, order: seq<Member>, vals: seq<nat>, c: nat, i: int, s: Scan)
    requires c < |own| && |vals| == |order| && -1 <= i < |order|
    ensures var r := ScanFrom(own, order, vals, c, i, s);
      forall k :: 0 <= k < |s.displaced| ==> r.displaced[k] == s.displaced[k]
    decreases i + 1
  {
    if i >= 0 {
      ScanKeeps(own, order, vals, c, i - 1, ScanNext(own, order, vals, c, i, s));
    }
  }

  /**
    What a scan keeps from its first iteration: the rest of the loop runs
    from the state it leaves and keeps what it recorded.
   */
  lemma {:induction false} ScanPrefix(own: seq<nat>, order: seq<Member>, vals: seq<nat>, c: nat, i: nat, s: Scan)
    requires c < |own| && |vals| == |order| && i < |order|
    ensures var s' := ScanNext(own, order, vals, c, i, s);
      var r := ScanFrom(own, order, vals, c, i - 1, s');
      && ScanFrom(own, order, vals, c, i, s) == r
      && (forall k :: 0 <= k < |s'.displaced| ==> r.displaced[k] == s'.displaced[k])
  {
    ScanKeeps(own, order, vals, c, i - 1, ScanNext(own, order, vals, c, i, s));
  }

  /** Every member a scan adds sits at a rank it visited. */
  lemma {:induction false} ScanRanks(own: seq<nat>, order: seq<Member>, vals: seq<nat>, c: nat, i: int, s: Scan)
    requires c < |own| && |vals| == |order| && -1 <= i < |order|
    ensures var r := ScanFrom(own, order, vals, c, i, s);
      forall k :: |s.displaced| <= k < |r.displaced| ==> r.displaced[k].row <= i && r.displaced[k].member == order[r.displaced[k].row]
    decreases i + 1
  {
    if i >= 0 {
      ScanPrefix(own, order, vals, c, i, s);
      ScanRanks(own, order, vals, c, i - 1, ScanNext(own, order, vals, c, i, s));
    }
  }

  /** Every member the scan adds was overtaken in the sense of `Overtaken`. */
  lemma {:induction false} ScanOvertakes(own: seq<nat>, order: seq<Member>, vals: seq<nat>, c: nat, i: int, s: Scan)
    requires c < |own| && |vals| == |order| && -1 <= i < |order|
    ensures var r := ScanFrom(own, order, vals, c, i, s);
      forall k :: |s.displaced| <= k < |r.displaced| ==> Overtaken(order, vals, own, c, r.displaced, k)
    decreases i + 1
  {
    if i >= 0 {
      var s' := ScanNext(own, order, vals, c, i, s);
      ScanPrefix(own, order, vals, c, i, s);
      ScanOvertakes(own, order, vals, c, i - 1, s');
      var rd := ScanFrom(own, order, vals, c, i - 1, s').displaced;
      if |s'.displaced| > |s.displaced| {
        assert rd[|s.displaced|] == s'.displaced[|s.displaced|];
        assert Overtaken(order, vals, own, c, rd, |s.displaced|);
      }
    }
  }

  /**
    The overtaken members are listed from the nearest rank upwards: their
    rows strictly decrease along the list.
   */
  lemma {:induction false} ScanRowsDescend(own: seq<nat>, order: seq<Member>, vals: seq<nat>, c: nat, i: int, s: Scan)
    requires c < |own| && |vals| == |order| && -1 <= i < |order|
    requires forall k :: 0 <= k < |s.displaced| ==> s.displaced[k].row > i
    requires forall k1, k2 :: 0 <= k1 < k2 < |s.displaced| ==> s.displaced[k2].row < s.displaced[k1].row
    ensures var ds := ScanFrom(own, order, vals, c, i, s).displaced;
      forall k1, k2 :: 0 <= k1 < k2 < |ds| ==> ds[k2].row < ds[k1].row
    decreases i + 1
  {
    if i >= 0 {
      var s' := ScanNext(own, order, vals, c, i, s);
      ScanPrefix(own, order, vals, c, i, s);
      ScanRowsDescend(own, order, vals, c, i - 1, s');
    }
  }

  /** The member ends at the row of the last member it overtook. */
  lemma {:induction false} ScanEndingRow(own: seq<nat>, order: seq<Member>, vals: seq<nat>, c: nat, i: int, s: Scan)
    requires c < |own| && |vals| == |order| && -1 <= i < |order|
    ensures var r := ScanFrom(own, order, vals, c, i, s);
      && (|r.displaced| > |s.displaced| ==> r.endingRow == r.displaced[|r.displaced| - 1].row)
      && (|r.displaced| == |s.displaced| ==> r.endingRow == s.endingRow)
    decreases i + 1
  {
    if i >= 0 {
      var s' := ScanNext(own, order, vals, c, i, s);
      ScanPrefix(own, order, vals, c, i, s);
      ScanEndingRow(own, order, vals, c, i - 1, s');
    }
  }

  /** The base length left by the loop is the one of the member at rank 0. */
  lemma {:induction false} ScanBase(own: seq<nat>, order: seq<Member>, vals: seq<nat>, c: nat, i: int, s: Scan)
    requires c < |own| && |vals| == |order| && 0 <= i < |order|
    ensures ScanFrom(own, order, vals, c, i, s).base == BaseLength(vals[0])
    decreases i
  {
    if i > 0 {
      ScanBase(own, order, vals, c, i - 1, ScanNext(own, order, vals, c, i, s));
    }
  }

  /** With no member overtaken yet, a member behind every higher rank overtakes nobody. */
  lemma {:induction false} ScanBehind(own: seq<nat>, order: seq<Member>, vals: seq<nat>, c: nat, i: int, s: Scan)
    requires c < |own| && |vals| == |order| && -1 <= i < |order| && s.displaced == []
    requires forall j :: 0 <= j <= i ==> own[c] <= vals[j]
    ensures ScanFrom(own, order, vals, c, i, s).displaced == []
    decreases i + 1
  {
    if i >= 0 {
      assert !Overtakes(own, vals[i], c, 0);
      ScanBehind(own, order, vals, c, i - 1, ScanNext(own, order, vals, c, i, s));
    }
  }

  /** A member ahead of every higher rank overtakes all of them, nearest first. */
  lemma {:induction false} ScanAhead(own: seq<nat>, order: seq<Member>, vals: seq<nat>, c: nat, i: int, s: Scan)
    requires c < |own| && |vals| == |order| && -1 <= i < |order|
    requires forall j :: 0 <= j <= i ==> own[c] > vals[j]
    ensures var rd := ScanFrom(own, order, vals, c, i, s).displaced;
      && |rd| == |s.displaced| + i + 1
      && forall k :: |s.displaced| <= k < |rd| ==> rd[k].row == i - (k - |s.displaced|)
    decreases i + 1
  {
    if i >= 0 {
      var s' := ScanNext(own, order, vals, c, i, s);
      assert Overtakes(own, vals[i], c, |s.displaced|);
      ScanPrefix(own, order, vals, c, i, s);
      ScanAhead(own, order, vals, c, i - 1, s');
    }
  }

  /**
    The whole loop for the member at rank `i + 1`: it starts on its own row
    with nothing overtaken and visits ranks `i` down to 0.
   */
  function ScanAbove(own: seq<nat>, order: seq<Member>, vals: seq<nat>, c: nat, i: nat): (r: Scan)
    requires c < |own| && |vals| == |order| && i < |order|
    ensures |r.displaced| <= i + 1
  {
    ScanFrom(own, order, vals, c, i, Scan(i + 1, [], 0))
  }

  /** The whole loop overtakes only members at the ranks it visits. */
  lemma {:induction false} ScanAboveRanks(own: seq<nat>, order: seq<Member>, vals: seq<nat>, c: nat, i: nat)
    requires c < |own| && |vals| == |order| && i < |order|
    ensures var ds := ScanAbove(own, order, vals, c, i).displaced;
      forall k :: 0 <= k < |ds| ==> ds[k].row <= i && ds[k].member == order[ds[k].row]
  {
    assert ScanAbove(own, order, vals, c, i) == ScanFrom(own, order, vals, c, i, Scan(i + 1, [], 0));
    ScanRanks(own, order, vals, c, i, Scan(i + 1, [], 0));
  }

  /** The rows the whole loop records strictly decrease. */
  lemma {:induction false} ScanAboveRows(own: seq<nat>, order: seq<Member>, vals: seq<nat>, c: nat, i: nat)
    requires c < |own| && |vals| == |order| && i < |order|
    ensures var ds := ScanAbove(own, order, vals, c, i).displaced;
      forall k1, k2 :: 0 <= k1 < k2 < |ds| ==> ds[k2].row < ds[k1].row
  {
    assert ScanAbove(own, order, vals, c, i) == ScanFrom(own, order, vals, c, i, Scan(i + 1, [], 0));
    ScanRowsDescend(own, order, vals, c, i, Scan(i + 1, [], 0));
  }

  /** Behind every higher rank, the whole loop overtakes nobody. */
  lemma {:induction false} ScanAboveBehind(own: seq<nat>, order: seq<Member>, vals: seq<nat>, c: nat, i: nat)
    requires c < |own| && |vals| == |order| && i < |order|
    requires forall j :: 0 <= j <= i ==> own[c] <= vals[j]
    ensures ScanAbove(own, order, vals, c, i).displaced == []
  {
    ScanBehind(own, order, vals, c, i, Scan(i + 1, [], 0));
  }

  /**
    The whole loop ends on the row of the last member it overtook, and leaves
    the base length read from rank 0.
   */
  lemma {:induction false} ScanAboveEnds(own: seq<nat>, order: seq<Member>, vals: seq<nat>, c: nat, i: nat)
    requires c < |own| && |vals| == |order| && i < |order|
    ensures var r := ScanAbove(own, order, vals, c, i);
      && r.base == BaseLength(vals[0])
      && (|r.displaced| > 0 ==> r.endingRow == r.displaced[|r.displaced| - 1].row)
  {
    var s0 := Scan(i + 1, [], 0);
    ScanEndingRow(own, order, vals, c, i, s0);
    ScanBase(own, order, vals, c, i, s0);
  }

  /**
    Ahead of every higher rank, the whole loop overtakes all of them, ends at
    row 0 and leaves the base length of rank 0.
   */
  lemma {:induction false} ScanAboveAhead(own: seq<nat>, order: seq<Member>, vals: seq<nat>, c: nat, i: nat)
    requires c < |own| && |vals| == |order| && i < |order|
    requires forall j :: 0 <= j <= i ==> own[c] > vals[j]
    ensures var r := ScanAbove(own, order, vals, c, i);
      |r.displaced| == i + 1 && r.endingRow == 0 && r.base == BaseLength(vals[0])
  {
    var s0 := Scan(i + 1, [], 0);
    ScanAhead(own, order, vals, c, i, s0);
    ScanEndingRow(own, order, vals, c, i, s0);
    ScanBase(own, order, vals, c, i, s0);
  }

  /**
    Over distinct ranks, a member ahead of every higher rank queues exactly
    one transition for the member at rank `j`: one row down, starting two
    chunks later per member overtaken before it.
   */
  lemma {:induction false} ScanAheadQueues(own: seq<nat>, order: seq<Member>, vals: seq<nat>, c: nat, i: nat, j: nat, ho: HeightOffset)
    requires c < |own| && |vals| == |order| && i < |order| && Distinct(order)
    requires forall j' :: 0 <= j' <= i ==> own[c] > vals[j']
    requires j <= i
    ensures QueuedFor(ScanAbove(own, order, vals, c, i).displaced, order[j], ho) ==
      [Anim(RowY(j, ho), RowY(j + 1, ho), c + 2 * (i - j), c + 2 * (i - j) + BaseLength(vals[j]))]
  {
    var s0 := Scan(i + 1, [], 0);
    var ds := ScanFrom(own, order, vals, c, i, s0).displaced;
    ScanAhead(own, order, vals, c, i, s0);
    ScanOvertakes(own, order, vals, c, i, s0);
    ScanRanks(own, order, vals, c, i, s0);
    var k := i - j;
    assert Overtaken(order, vals, own, c, ds, k);
    forall k' | 0 <= k' < |ds| && k' != k
      ensures ds[k'].member != order[j]
    {
      DistinctAt(order, ds[k'].row, j);
    }
    QueuedForUnique(ds, order[j], ho, k);
  }

  /** `keys.pop(from); keys.insert(to, keys[from])`. */
  function Splice(keys: seq<Member>, from: nat, to: nat): seq<Member>
    requires from < |keys| && to < |keys|
  {
    var rest := keys[..from] + keys[from + 1..];
    rest[..to] + [keys[from]] + rest[to..]
  }

  /** The transition queued for a displaced member: one row down. */
  function DisplacedAnim(d: Displacement, ho: HeightOffset): Anim {
    Anim(RowY(d.row, ho), RowY(d.row + 1, ho), d.startChunk, d.endChunk)
  }

  /** The transitions `ds` queues for member `x`, in order. */
  function QueuedFor(ds: seq<Displacement>, x: Member, ho: HeightOffset): seq<Anim> {
    if ds == [] then []
    else (if ds[0].member == x then [DisplacedAnim(ds[0], ho)] else []) + QueuedFor(ds[1..], x, ho)
  }

  /** `tracks[x]` with the transitions `ds` queues for `x` appended. */
  function WithQueued(t: Track, ds: seq<Displacement>, x: Member, ho: HeightOffset): Track {
    t.(anims := t.anims + QueuedFor(ds, x, ho))
  }

  /** Queue the transition of one displaced member on its own track. */
  function QueueOne(tracks: map<Member, Track>, d: Displacement, ho: HeightOffset): (r: map<Member, Track>)
    requires d.member in tracks
    ensures r.Keys == tracks.Keys
    ensures forall x :: x in tracks ==> r[x] == WithQueued(tracks[x], [d], x, ho)
  {
    var t := tracks[d.member];
    var r := tracks[d.member := t.(anims := AnimatePosition(t.anims, RowY(d.row, ho), RowY(d.row + 1, ho), d.startChunk, d.endChunk))];
    assert forall x :: x in tracks ==> r[x] == WithQueued(tracks[x], [d], x, ho) by {
      forall x | x in tracks
        ensures r[x] == WithQueued(tracks[x], [d], x, ho)
      {
        QueuedForOne(d, x, ho);
      }
    }
    r
  }

  lemma {:induction false} QueuedForOne(d: Displacement, x: Member, ho: HeightOffset)
    ensures QueuedFor([d], x, ho) == if d.member == x then [DisplacedAnim(d, ho)] else []
  {
    assert [d][1..] == [];
  }

  /** Append to `tracks[x].anims` one animation per displaced member. */
  function AddDisplaced(tracks: map<Member, Track>, ds: seq<Displacement>, ho: HeightOffset): (r: map<Member, Track>)
    requires forall d :: d in ds ==> d.member in tracks
    ensures r.Keys == tracks.Keys
    decreases |ds|
  {
    if ds == [] then tracks
    else AddDisplaced(QueueOne(tracks, ds[0], ho), ds[1..], ho)
  }

  /**
    Each member receives exactly the transitions queued for it, and nothing
    else of its track changes.
   */
  lemma {:induction false} AddDisplacedQueues(tracks: map<Member, Track>, ds: seq<Displacement>, ho: HeightOffset, x: Member)
    requires forall d :: d in ds ==> d.member in tracks
    requires x in tracks
    ensures AddDisplaced(tracks, ds, ho)[x] == WithQueued(tracks[x], ds, x, ho)
    decreases |ds|
  {
    if ds != [] {
      var tracks' := QueueOne(tracks, ds[0], ho);
      AddDisplacedQueues(tracks', ds[1..], ho, x);
      WithQueuedStep(tracks[x], ds, x, ho);
    }
  }

  /** Queuing the first displacement and then the rest queues them all. */
  lemma {:induction false} WithQueuedStep(t: Track, ds: seq<Displacement>, x: Member, ho: HeightOffset)
    requires ds != []
    ensures WithQueued(WithQueued(t, [ds[0]], x, ho), ds[1..], x, ho) == WithQueued(t, ds, x, ho)
  {
    var e, q := QueuedFor([ds[0]], x, ho), QueuedFor(ds[1..], x, ho);
    QueuedForOne(ds[0], x, ho);
    assert QueuedFor(ds, x, ho) == e + q;
    assert t.anims + e + q == t.anims + (e + q);
  }

  /** A member with nothing queued keeps its track. */
  lemma {:induction false} WithQueuedNone(t: Track, ds: seq<Displacement>, x: Member, ho: HeightOffset)
    requires QueuedFor(ds, x, ho) == []
    ensures WithQueued(t, ds, x, ho) == t
  {
    assert t.anims + [] == t.anims;
  }

  /** heightOffset is taken once, from the Y of the first two ranked images. */
  function HeightOffsetFor(l: Layout, m: Member, screenY: map<Member, real>): (r: Result<HeightOffset>)
    requires m in l.tracks
    requires forall x :: x in l.order ==> x in screenY
    ensures r.Ok? <==> l.tracks[m].heightOffset.Some? || |l.order| >= 2
    ensures l.tracks[m].heightOffset.Some? ==> r == Ok(l.tracks[m].heightOffset.value)
    ensures l.tracks[m].heightOffset.None? && |l.order| >= 2 ==>
      && r == Ok(HeightOffset(screenY[l.order[1]] - screenY[l.order[0]], screenY[l.order[0]]))
      && RowY(0, r.value) == screenY[l.order[0]] && RowY(1, r.value) == screenY[l.order[1]]
  {
    match l.tracks[m].heightOffset
    case Some(ho) => Ok(ho)
    case None =>
      if |l.order| < 2 then Err(IndexError)
      else Ok(HeightOffset(screenY[l.order[1]] - screenY[l.order[0]], screenY[l.order[0]]))
  }

  /** The new rank order: the member moves up by the number of members it overtook. */
  function NewOrder(order: seq<Member>, cki: nat, passed: nat): (r: seq<Member>)
    requires cki < |order| && passed <= cki
    ensures passed == 0 ==> r == order
    ensures multiset(r) == multiset(order)
    ensures Distinct(order) ==> Distinct(r)
  {
    if passed > 0 then
      SpliceMultiset(order, cki, cki - passed);
      SpliceDistinct(order, cki, cki - passed);
      Splice(order, cki, cki - passed)
    else order
  }

  /**
    The member's own state after the scan: its own transition (when it
    overtook anyone), its heightOffset, and its position at chunk `c`.
   */
  function OwnTrack(t: Track, cki: nat, c: nat, ho: HeightOffset, s: Scan, y: real): (r: Track)
    requires c < |t.positions|
    ensures r.counts == t.counts && r.heightOffset == Some(ho)
    ensures r.positions == t.positions[c := y]
    ensures |s.displaced| == 0 ==> r.anims == t.anims
    ensures |s.displaced| > 0 ==>
      r.anims == t.anims + [Anim(RowY(cki, ho), RowY(s.endingRow, ho), c, c + s.base + 2 * (|s.displaced| - 1))]
  {
    var passed := |s.displaced|;
    var anims :=
      if passed > 0 then AnimatePosition(t.anims, RowY(cki, ho), RowY(s.endingRow, ho), c, c + s.base + 2 * (passed - 1))
      else t.anims;
    t.(anims := anims, heightOffset := Some(ho), positions := t.positions[c := y])
  }

  /**
    The scan checkAndSwap runs for member `m` at chunk `c`: the loop reads
    the look-ahead values, which fails when the timelines end within four
    chunks and there is a higher rank to read.
   */
  function ScanOf(l: Layout, n: nat, m: Member, c: nat): (r: Result<Scan>)
    requires ValidLayout(l, n) && m in l.tracks && c < n
    ensures r.Ok? <==> IndexOf(l.order, m) == 0 || c + LookAhead < n
    ensures r.Ok? ==> |r.value.displaced| <= IndexOf(l.order, m)
    ensures r.Ok? ==> forall d :: d in r.value.displaced ==> d.member in l.tracks
  {
    var cki := IndexOf(l.order, m);
    if cki == 0 then Ok(Scan(cki, [], 0))
    else if c + LookAhead >= n then Err(IndexError)
    else
      var own, vals := l.tracks[m].counts, LookAheadValues(l, n, c);
      var r := ScanAbove(own, l.order, vals, c, cki - 1);
      assert forall d :: d in r.displaced ==> d.member in l.tracks by {
        ScanAboveRanks(own, l.order, vals, c, cki - 1);
        forall d | d in r.displaced
          ensures d.member in l.tracks
        {
          var k :| 0 <= k < |r.displaced| && r.displaced[k] == d;
        }
      }
      Ok(r)
  }

  /**
    checkAndSwap(currentChunk) for member `m` over `n` chunks; `screenY` gives
    the on-screen Y of every member's image.
   */
  function CheckAndSwap(l: Layout, n: nat, m: Member, c: nat, screenY: map<Member, real>): (r: Result<Layout>)
    requires ValidLayout(l, n) && m in l.tracks
    requires forall x :: x in l.tracks ==> x in screenY
    ensures r.Ok? <==>
      && (l.tracks[m].heightOffset.Some? || |l.order| >= 2)
      && c < n
      && (IndexOf(l.order, m) == 0 || c + LookAhead < n)
    ensures r.Ok? ==> multiset(r.value.order) == multiset(l.order) && Distinct(r.value.order)
    ensures r.Ok? ==> r.value.tracks.Keys == l.tracks.Keys
    ensures r.Ok? ==> r.value.tracks[m].heightOffset == Some(HeightOffsetFor(l, m, screenY).value)
  {
    var t := l.tracks[m];
    var ho :- HeightOffsetFor(l, m, screenY);
    var cki := IndexOf(l.order, m);
    if c >= n then Err(IndexError)
    else
      var s :- ScanOf(l, n, m, c);
      var tracks := AddDisplaced(l.tracks, s.displaced, ho);
      var own := OwnTrack(t, cki, c, ho, s, screenY[m]);
      Ok(Layout(NewOrder(l.order, cki, |s.displaced|), tracks[m := own]))
  }

  // ---------------------------------------------------------------------------
  // The rank splice
  // ---------------------------------------------------------------------------

  /** The elements other than the moved one keep their relative order. */
  lemma {:induction false} SpliceShape(keys: seq<Member>, from: nat, to: nat)
    requires from < |keys| && to < |keys|
    ensures |Splice(keys, from, to)| == |keys|
    ensures Splice(keys, from, to)[to] == keys[from]
    ensures var s := Splice(keys, from, to); s[..to] + s[to + 1..] == keys[..from] + keys[from + 1..]
  {
    var rest := keys[..from] + keys[from + 1..];
    var s := Splice(keys, from, to);
    assert s[..to] == rest[..to];
    assert s[to + 1..] == rest[to..];
  }

  lemma {:induction false} SpliceMultiset(keys: seq<Member>, from: nat, to: nat)
    requires from < |keys| && to < |keys|
    ensures multiset(Splice(keys, from, to)) == multiset(keys)
  {
    var rest := keys[..from] + keys[from + 1..];
    var x := keys[from];
    assert rest == rest[..to] + rest[to..];
    assert keys == keys[..from] + [x] + keys[from + 1..];
    calc {
      multiset(Splice(keys, from, to));
      multiset(rest[..to] + [x] + rest[to..]);
      multiset(rest[..to]) + multiset(rest[to..]) + multiset([x]);
      multiset(rest) + multiset([x]);
      multiset(keys[..from]) + multiset(keys[from + 1..]) + multiset([x]);
      multiset(keys[..from] + [x] + keys[from + 1..]);
    }
  }

  lemma {:induction false} SpliceDistinct(keys: seq<Member>, from: nat, to: nat)
    requires from < |keys| && to < |keys|
    ensures Distinct(keys) ==> Distinct(Splice(keys, from, to))
  {
    SpliceMultiset(keys, from, to);
  }

  // ---------------------------------------------------------------------------
  // What one checkAndSwap call does to the layout
  // ---------------------------------------------------------------------------

  lemma {:induction false} QueuedForAbsent(ds: seq<Displacement>, x: Member, ho: HeightOffset)
    requires forall k :: 0 <= k < |ds| ==> ds[k].member != x
    ensures QueuedFor(ds, x, ho) == []
  {
    if ds != [] {
      assert forall k :: 0 <= k < |ds[1..]| ==> ds[1..][k] == ds[k + 1];
      QueuedForAbsent(ds[1..], x, ho);
    }
  }

  lemma {:induction false} QueuedForUnique(ds: seq<Displacement>, x: Member, ho: HeightOffset, k: nat)
    requires k < |ds| && ds[k].member == x
    requires forall j :: 0 <= j < |ds| && j != k ==> ds[j].member != x
    ensures QueuedFor(ds, x, ho) == [DisplacedAnim(ds[k], ho)]
    decreases k
  {
    assert forall j :: 0 <= j < |ds[1..]| ==> ds[1..][j] == ds[j + 1];
    if k == 0 {
      QueuedForAbsent(ds[1..], x, ho);
    } else {
      QueuedForUnique(ds[1..], x, ho, k - 1);
    }
  }

  /** The scan ScanOf runs when there is a higher rank to read. */
  lemma {:induction false} ScanOfFrom(l: Layout, n: nat, m: Member, c: nat)
    requires ValidLayout(l, n) && m in l.tracks && c < n
    requires IndexOf(l.order, m) > 0 && c + LookAhead < n
    ensures var cki := IndexOf(l.order, m);
      ScanOf(l, n, m, c) == Ok(ScanAbove(l.tracks[m].counts, l.order, LookAheadValues(l, n, c), c, cki - 1))
  {
  }

  /** The members a scan from `cki - 1` overtakes are distinct members ranked above `cki`. */
  lemma {:induction false} ScanMembers(l: Layout, n: nat, m: Member, c: nat)
    requires ValidLayout(l, n) && m in l.tracks && c < n
    requires ScanOf(l, n, m, c).Ok?
    ensures var ds := ScanOf(l, n, m, c).value.displaced;
      && (forall k :: 0 <= k < |ds| ==> ds[k].row < IndexOf(l.order, m) && ds[k].member == l.order[ds[k].row])
      && (forall k1, k2 :: 0 <= k1 < k2 < |ds| ==> ds[k2].row < ds[k1].row)
  {
    var cki := IndexOf(l.order, m);
    if cki > 0 {
      var own, vals := l.tracks[m].counts, LookAheadValues(l, n, c);
      ScanOfFrom(l, n, m, c);
      ScanAboveRanks(own, l.order, vals, c, cki - 1);
      ScanAboveRows(own, l.order, vals, c, cki - 1);
    }
  }

  /**
    The timing of every overtaken member, for any scan: the `k`-th one passed
    the overtake test with `k` members already overtaken, and its slide runs
    from `c + 2 * k` for the base length of its own look-ahead value.
   */
  lemma {:induction false} ScanOfOvertakes(l: Layout, n: nat, m: Member, c: nat)
    requires ValidLayout(l, n) && m in l.tracks && c < n
    requires ScanOf(l, n, m, c).Ok?
    ensures var ds := ScanOf(l, n, m, c).value.displaced;
      |ds| > 0 ==>
        && c + LookAhead < n
        && forall k :: 0 <= k < |ds| ==> Overtaken(l.order, LookAheadValues(l, n, c), l.tracks[m].counts, c, ds, k)
  {
    var cki := IndexOf(l.order, m);
    if cki > 0 {
      var own, vals := l.tracks[m].counts, LookAheadValues(l, n, c);
      ScanOfFrom(l, n, m, c);
      assert ScanAbove(own, l.order, vals, c, cki - 1) == ScanFrom(own, l.order, vals, c, cki - 1, Scan(cki, [], 0));
      var s0 := Scan(cki, [], 0);
      var ds := ScanOf(l, n, m, c).value.displaced;
      assert ds == ScanFrom(own, l.order, vals, c, cki - 1, s0).displaced;
      ScanOvertakes(own, l.order, vals, c, cki - 1, s0);
      forall k | 0 <= k < |ds|
        ensures Overtaken(l.order, vals, own, c, ds, k)
      {
        assert |s0.displaced| <= k < |ScanFrom(own, l.order, vals, c, cki - 1, s0).displaced|;
        assert Overtaken(l.order, vals, own, c, ScanFrom(own, l.order, vals, c, cki - 1, s0).displaced, k);
      }
    }
  }

  /** Unfolds a successful checkAndSwap into its new rank order. */
  lemma {:induction false} UnfoldOrder(l: Layout, n: nat, m: Member, c: nat, screenY: map<Member, real>)
    requires ValidLayout(l, n) && m in l.tracks
    requires forall x :: x in l.tracks ==> x in screenY
    requires CheckAndSwap(l, n, m, c, screenY).Ok?
    ensures c < n && ScanOf(l, n, m, c).Ok?
    ensures |ScanOf(l, n, m, c).value.displaced| <= IndexOf(l.order, m)
    ensures CheckAndSwap(l, n, m, c, screenY).value.order ==
      NewOrder(l.order, IndexOf(l.order, m), |ScanOf(l, n, m, c).value.displaced|)
  {
  }

  /** Unfolds a successful checkAndSwap into the member's own track. */
  lemma {:induction false} UnfoldOwn(l: Layout, n: nat, m: Member, c: nat, screenY: map<Member, real>)
    requires ValidLayout(l, n) && m in l.tracks
    requires forall x :: x in l.tracks ==> x in screenY
    requires CheckAndSwap(l, n, m, c, screenY).Ok?
    ensures HeightOffsetFor(l, m, screenY).Ok? && c < n && ScanOf(l, n, m, c).Ok?
    ensures CheckAndSwap(l, n, m, c, screenY).value.tracks[m] ==
      OwnTrack(l.tracks[m], IndexOf(l.order, m), c, HeightOffsetFor(l, m, screenY).value,
               ScanOf(l, n, m, c).value, screenY[m])
  {
  }

  /**
    After a successful checkAndSwap that passed `p` members, the member sits
    at rank `cki - p`, and the order with the member taken out is the old
    order with the member taken out.
   */
  lemma {:induction false} CheckAndSwapOrder(l: Layout, n: nat, m: Member, c: nat, screenY: map<Member, real>, r: Layout)
    requires ValidLayout(l, n) && m in l.tracks
    requires forall x :: x in l.tracks ==> x in screenY
    requires CheckAndSwap(l, n, m, c, screenY) == Ok(r)
    ensures c < n && ScanOf(l, n, m, c).Ok?
    ensures var cki, p := IndexOf(l.order, m), |ScanOf(l, n, m, c).value.displaced|;
      && p <= cki
      && MovedUp(l.order, r.order, cki, cki - p)
      && r.order[cki - p] == m
  {
    OrderMovedUp(l.order, m, |ScanOf(l, n, m, c).value.displaced|, r.order);
    assert r.order[IndexOf(l.order, m) - |ScanOf(l, n, m, c).value.displaced|] == m;
  }

  /** The order NewOrder computes from the rank of `m` has `m` moved up by `p`. */
  lemma {:induction false} OrderMovedUp(order: seq<Member>, m: Member, p: nat, o: seq<Member>)
    requires m in order && p <= IndexOf(order, m) && o == NewOrder(order, IndexOf(order, m), p)
    ensures var cki := IndexOf(order, m); MovedUp(order, o, cki, cki - p) && o[cki - p] == m
  {
    NewOrderMovedUp(order, o, IndexOf(order, m), p, m);
  }

  /** An order `o` computed by NewOrder is the old one with rank `cki` moved up by `p`. */
  lemma {:induction false} NewOrderMovedUp(order: seq<Member>, o: seq<Member>, cki: nat, p: nat, m: Member)
    requires cki < |order| && order[cki] == m && p <= cki && o == NewOrder(order, cki, p)
    ensures MovedUp(order, o, cki, cki - p) && o[cki - p] == m
  {
    NewOrderShape(order, cki, p);
  }

  /**
    `o` is `order` with the element at `from` moved to `to`, every other
    element keeping its relative order.
   */
  predicate MovedUp(order: seq<Member>, o: seq<Member>, from: nat, to: nat) {
    && from < |order| && |o| == |order| && to < |o|
    && o[to] == order[from]
    && o[..to] + o[to + 1..] == order[..from] + order[from + 1..]
  }

  /** NewOrder moves the member up by the number passed, including when nobody is passed. */
  lemma {:induction false} NewOrderShape(order: seq<Member>, cki: nat, p: nat)
    requires cki < |order| && p <= cki
    ensures MovedUp(order, NewOrder(order, cki, p), cki, cki - p)
  {
    if p > 0 {
      SpliceShape(order, cki, cki - p);
    }
  }

  /**
    The member's own transitions after a successful checkAndSwap `r`: when
    it passed `p > 0` members it gains one slide from its own row to the row
    of the last member passed, lasting the base length read from rank 0's
    look-ahead chunk plus two chunks per further member passed.
   */
  lemma {:induction false} CheckAndSwapOwn(l: Layout, n: nat, m: Member, c: nat, screenY: map<Member, real>, r: Layout)
    requires ValidLayout(l, n) && m in l.tracks
    requires forall x :: x in l.tracks ==> x in screenY
    requires CheckAndSwap(l, n, m, c, screenY) == Ok(r)
    ensures HeightOffsetFor(l, m, screenY).Ok? && c < n && ScanOf(l, n, m, c).Ok? && m in r.tracks
    ensures |ScanOf(l, n, m, c).value.displaced| == 0 ==> r.tracks[m].anims == l.tracks[m].anims
    ensures |ScanOf(l, n, m, c).value.displaced| > 0 ==>
      && c + LookAhead < n
      && ScanOf(l, n, m, c).value.base == BaseLength(l.tracks[l.order[0]].counts[c + LookAhead])
    ensures var ho, ds := HeightOffsetFor(l, m, screenY).value, ScanOf(l, n, m, c).value.displaced;
      |ds| > 0 ==>
        r.tracks[m].anims == l.tracks[m].anims +
          [Anim(RowY(IndexOf(l.order, m), ho), RowY(ds[|ds| - 1].row, ho), c,
                c + ScanOf(l, n, m, c).value.base + 2 * (|ds| - 1))]
  {
    UnfoldOwn(l, n, m, c, screenY);
    ScanOfEnds(l, n, m, c);
  }

  /**
    A scan that overtook anyone ends on the row of the last member overtaken
    and leaves the base length read from rank 0's look-ahead chunk.
   */
  lemma {:induction false} ScanOfEnds(l: Layout, n: nat, m: Member, c: nat)
    requires ValidLayout(l, n) && m in l.tracks && c < n
    requires ScanOf(l, n, m, c).Ok?
    ensures var s := ScanOf(l, n, m, c).value;
      |s.displaced| > 0 ==>
        && c + LookAhead < n
        && s.endingRow == s.displaced[|s.displaced| - 1].row
        && s.base == BaseLength(l.tracks[l.order[0]].counts[c + LookAhead])
  {
    var cki := IndexOf(l.order, m);
    if |ScanOf(l, n, m, c).value.displaced| > 0 {
      var own, vals := l.tracks[m].counts, LookAheadValues(l, n, c);
      ScanOfFrom(l, n, m, c);
      ScanAboveEnds(own, l.order, vals, c, cki - 1);
    }
  }

  /** Every other member's track after a successful checkAndSwap. */
  lemma {:induction false} CheckAndSwapOthers(l: Layout, n: nat, m: Member, c: nat, screenY: map<Member, real>, x: Member)
    requires ValidLayout(l, n) && m in l.tracks
    requires forall y :: y in l.tracks ==> y in screenY
    requires CheckAndSwap(l, n, m, c, screenY).Ok?
    requires x in l.tracks && x != m
    ensures HeightOffsetFor(l, m, screenY).Ok? && c < n && ScanOf(l, n, m, c).Ok?
    ensures CheckAndSwap(l, n, m, c, screenY).value.tracks[x] ==
      WithQueued(l.tracks[x], ScanOf(l, n, m, c).value.displaced, x, HeightOffsetFor(l, m, screenY).value)
  {
    AddDisplacedQueues(l.tracks, ScanOf(l, n, m, c).value.displaced, HeightOffsetFor(l, m, screenY).value, x);
  }

  /**
    One checkAndSwap call writes only the member's own position at chunk `c`,
    sets its heightOffset once, never touches a timeline, and keeps the
    layout well formed.
   */
  lemma {:induction false} CheckAndSwapFrame(l: Layout, n: nat, m: Member, c: nat, screenY: map<Member, real>)
    requires ValidLayout(l, n) && m in l.tracks
    requires forall x :: x in l.tracks ==> x in screenY
    requires CheckAndSwap(l, n, m, c, screenY).Ok?
    ensures var r := CheckAndSwap(l, n, m, c, screenY).value;
      && ValidLayout(r, n)
      && (forall x :: x in l.tracks ==> r.tracks[x].counts == l.tracks[x].counts)
      && r.tracks[m].positions == l.tracks[m].positions[c := screenY[m]]
      && (forall x :: x in l.tracks && x != m ==>
            r.tracks[x].positions == l.tracks[x].positions && r.tracks[x].heightOffset == l.tracks[x].heightOffset)
      && r.tracks[m].heightOffset.Some?
      && (l.tracks[m].heightOffset.Some? ==> r.tracks[m].heightOffset == l.tracks[m].heightOffset)
  {
    var r := CheckAndSwap(l, n, m, c, screenY).value;
    UnfoldOwn(l, n, m, c, screenY);
    forall x | x in l.tracks && x != m
      ensures && r.tracks[x].counts == l.tracks[x].counts
              && r.tracks[x].positions == l.tracks[x].positions
              && r.tracks[x].heightOffset == l.tracks[x].heightOffset
    {
      CheckAndSwapOthers(l, n, m, c, screenY, x);
    }
    forall x
      ensures x in r.tracks <==> x in r.order
    {
      assert x in r.order <==> multiset(r.order)[x] > 0;
      assert x in l.order <==> multiset(l.order)[x] > 0;
    }
  }

  /** Members ranked below `m` are left entirely unchanged. */
  lemma {:induction false} LowerRanksUntouched(l: Layout, n: nat, m: Member, c: nat, screenY: map<Member, real>, x: Member)
    requires ValidLayout(l, n) && m in l.tracks
    requires forall y :: y in l.tracks ==> y in screenY
    requires CheckAndSwap(l, n, m, c, screenY).Ok?
    requires x in l.tracks && IndexOf(l.order, x) > IndexOf(l.order, m)
    ensures CheckAndSwap(l, n, m, c, screenY).value.tracks[x] == l.tracks[x]
  {
    assert x != m;
    CheckAndSwapOthers(l, n, m, c, screenY, x);
    var ho := HeightOffsetFor(l, m, screenY).value;
    var ds := ScanOf(l, n, m, c).value.displaced;
    ScanMembers(l, n, m, c);
    forall k | 0 <= k < |ds|
      ensures ds[k].member != x
    {
      assert l.order[IndexOf(l.order, x)] == x;
    }
    QueuedForAbsent(ds, x, ho);
    WithQueuedNone(l.tracks[x], ds, x, ho);
  }

  /** Member `m`'s value at `c` is at most the look-ahead value of every member ranked above it. */
  ghost predicate BehindAll(l: Layout, n: nat, m: Member, c: nat)
    requires ValidLayout(l, n) && m in l.tracks && c < n
  {
    forall j :: 0 <= j < IndexOf(l.order, m) ==>
      c + LookAhead < n && l.tracks[m].counts[c] <= l.tracks[l.order[j]].counts[c + LookAhead]
  }

  /** Member `m`'s value at `c` exceeds the look-ahead value of every member ranked above it. */
  ghost predicate AheadOfAll(l: Layout, n: nat, m: Member, c: nat)
    requires ValidLayout(l, n) && m in l.tracks && c < n
  {
    forall j :: 0 <= j < IndexOf(l.order, m) ==>
      c + LookAhead < n && l.tracks[m].counts[c] > l.tracks[l.order[j]].counts[c + LookAhead]
  }

  /** The base length of the member at rank 0, the one the scan's last iteration leaves. */
  function TopBase(l: Layout, n: nat, c: nat): nat
    requires ValidLayout(l, n) && |l.order| > 0 && c + LookAhead < n
  {
    BaseLength(l.tracks[l.order[0]].counts[c + LookAhead])
  }

  /** BehindAll, read off the look-ahead values the scan compares with. */
  lemma {:induction false} BehindValues(l: Layout, n: nat, m: Member, c: nat)
    requires ValidLayout(l, n) && m in l.tracks && c < n
    requires BehindAll(l, n, m, c) && IndexOf(l.order, m) > 0
    ensures c + LookAhead < n
    ensures forall j :: 0 <= j < IndexOf(l.order, m) ==> l.tracks[m].counts[c] <= LookAheadValues(l, n, c)[j]
  {
    assert l.tracks[m].counts[c] <= l.tracks[l.order[0]].counts[c + LookAhead];
  }

  /** AheadOfAll, read off the look-ahead values the scan compares with. */
  lemma {:induction false} AheadValues(l: Layout, n: nat, m: Member, c: nat)
    requires ValidLayout(l, n) && m in l.tracks && c < n
    requires AheadOfAll(l, n, m, c) && IndexOf(l.order, m) > 0
    ensures c + LookAhead < n
    ensures forall j :: 0 <= j < IndexOf(l.order, m) ==> l.tracks[m].counts[c] > LookAheadValues(l, n, c)[j]
  {
    assert l.tracks[m].counts[c] > l.tracks[l.order[0]].counts[c + LookAhead];
  }

  /** With no higher rank behind it, the scan for `m` overtakes nobody. */
  lemma {:induction false} ScanOfBehind(l: Layout, n: nat, m: Member, c: nat)
    requires ValidLayout(l, n) && m in l.tracks && c < n
    requires BehindAll(l, n, m, c)
    ensures ScanOf(l, n, m, c).Ok? && ScanOf(l, n, m, c).value.displaced == []
  {
    var cki := IndexOf(l.order, m);
    if cki > 0 {
      BehindValues(l, n, m, c);
      ScanOfFrom(l, n, m, c);
      ScanAboveBehind(l.tracks[m].counts, l.order, LookAheadValues(l, n, c), c, cki - 1);
    }
  }

  /**
    Ahead of every higher rank, the scan for `m` overtakes all of them, ends
    at row 0 and leaves the base length of rank 0.
   */
  lemma {:induction false} ScanOfAhead(l: Layout, n: nat, m: Member, c: nat)
    requires ValidLayout(l, n) && m in l.tracks && c < n
    requires AheadOfAll(l, n, m, c)
    ensures ScanOf(l, n, m, c).Ok?
    ensures var s := ScanOf(l, n, m, c).value;
      var cki := IndexOf(l.order, m);
      && |s.displaced| == cki
      && (cki > 0 ==> s.endingRow == 0 && s.base == TopBase(l, n, c))
  {
    var cki := IndexOf(l.order, m);
    if cki > 0 {
      var own, vals := l.tracks[m].counts, LookAheadValues(l, n, c);
      AheadValues(l, n, m, c);
      ScanOfFrom(l, n, m, c);
      var r := ScanAbove(own, l.order, vals, c, cki - 1);
      assert ScanOf(l, n, m, c).value == r;
      ScanAboveAhead(own, l.order, vals, c, cki - 1);
      assert r.base == TopBase(l, n, c);
    }
  }

  /** Ahead of every higher rank, the member at rank `j` receives exactly one transition. */
  lemma {:induction false} ScanOfAheadQueues(l: Layout, n: nat, m: Member, c: nat, j: nat, ho: HeightOffset)
    requires ValidLayout(l, n) && m in l.tracks && c < n
    requires AheadOfAll(l, n, m, c)
    requires j < IndexOf(l.order, m)
    ensures ScanOf(l, n, m, c).Ok?
    ensures var cki := IndexOf(l.order, m);
      var x := l.order[j];
      var start := c + 2 * (cki - 1 - j);
      QueuedFor(ScanOf(l, n, m, c).value.displaced, x, ho) ==
        [Anim(RowY(j, ho), RowY(j + 1, ho), start, start + BaseLength(l.tracks[x].counts[c + LookAhead]))]
  {
    AheadValues(l, n, m, c);
    ScanOfFrom(l, n, m, c);
    AheadQueuesAt(l, n, m, c, j, ho, l.tracks[m].counts, LookAheadValues(l, n, c), IndexOf(l.order, m) - 1);
  }

  /** ScanAheadQueues, read back in terms of the layout. */
  lemma {:induction false} AheadQueuesAt(l: Layout, n: nat, m: Member, c: nat, j: nat, ho: HeightOffset, own: seq<nat>, vals: seq<nat>, i: nat)
    requires ValidLayout(l, n) && m in l.tracks && c + LookAhead < n
    requires j <= i && i + 1 == IndexOf(l.order, m)
    requires own == l.tracks[m].counts && vals == LookAheadValues(l, n, c)
    requires forall j' :: 0 <= j' < IndexOf(l.order, m) ==> own[c] > vals[j']
    ensures QueuedFor(ScanAbove(own, l.order, vals, c, i).displaced, l.order[j], ho) ==
      [Anim(RowY(j, ho), RowY(j + 1, ho), c + 2 * (i - j), c + 2 * (i - j) + BaseLength(l.tracks[l.order[j]].counts[c + LookAhead]))]
  {
    ScanAheadQueues(own, l.order, vals, c, i, j, ho);
  }

  /**
    A member that is not ahead of any higher-ranked member's look-ahead value
    keeps its rank, and no animation is queued.
   */
  lemma {:induction false} StaysWhenBehind(l: Layout, n: nat, m: Member, c: nat, screenY: map<Member, real>)
    requires ValidLayout(l, n) && m in l.tracks
    requires forall y :: y in l.tracks ==> y in screenY
    requires CheckAndSwap(l, n, m, c, screenY).Ok?
    requires BehindAll(l, n, m, c)
    ensures var r := CheckAndSwap(l, n, m, c, screenY).value;
      && r.order == l.order
      && forall x :: x in l.tracks ==> r.tracks[x].anims == l.tracks[x].anims
  {
    UnfoldOrder(l, n, m, c, screenY);
    UnfoldOwn(l, n, m, c, screenY);
    ScanOfBehind(l, n, m, c);
    forall x | x in l.tracks && x != m
      ensures CheckAndSwap(l, n, m, c, screenY).value.tracks[x].anims == l.tracks[x].anims
    {
      CheckAndSwapOthers(l, n, m, c, screenY, x);
      WithQueuedNone(l.tracks[x], [], x, HeightOffsetFor(l, m, screenY).value);
    }
  }

  /**
    A member ahead of every higher-ranked member's look-ahead value moves to
    rank 0, the others keeping their relative order.
   */
  lemma {:induction false} LeadsWhenAhead(l: Layout, n: nat, m: Member, c: nat, screenY: map<Member, real>)
    requires ValidLayout(l, n) && m in l.tracks
    requires forall y :: y in l.tracks ==> y in screenY
    requires CheckAndSwap(l, n, m, c, screenY).Ok?
    requires AheadOfAll(l, n, m, c)
    ensures var cki := IndexOf(l.order, m);
      CheckAndSwap(l, n, m, c, screenY).value.order == [m] + l.order[..cki] + l.order[cki + 1..]
  {
    var cki := IndexOf(l.order, m);
    UnfoldOrder(l, n, m, c, screenY);
    ScanOfAhead(l, n, m, c);
    assert CheckAndSwap(l, n, m, c, screenY).value.order == NewOrder(l.order, cki, cki);
    NewOrderToTop(l.order, cki);
  }

  /** Overtaking every higher rank moves the member to the front. */
  lemma {:induction false} NewOrderToTop(order: seq<Member>, cki: nat)
    requires cki < |order|
    ensures NewOrder(order, cki, cki) == [order[cki]] + order[..cki] + order[cki + 1..]
  {
    if cki > 0 {
      var rest := order[..cki] + order[cki + 1..];
      assert Splice(order, cki, 0) == rest[..0] + [order[cki]] + rest[0..];
      assert rest[..0] == [] && rest[0..] == rest;
    } else {
      assert order == [order[0]] + order[..0] + order[1..];
    }
  }

  /**
    In the same situation, the member at rank `j` above it is pushed one row
    down, starting `2 * (cki - 1 - j)` chunks after `c` and lasting the base
    length of its own look-ahead value.
   */
  lemma {:induction false} PushedDownWhenAhead(l: Layout, n: nat, m: Member, c: nat, screenY: map<Member, real>, j: nat)
    requires ValidLayout(l, n) && m in l.tracks
    requires forall y :: y in l.tracks ==> y in screenY
    requires CheckAndSwap(l, n, m, c, screenY).Ok?
    requires AheadOfAll(l, n, m, c)
    requires j < IndexOf(l.order, m)
    ensures var r := CheckAndSwap(l, n, m, c, screenY).value;
      var cki := IndexOf(l.order, m);
      var ho := HeightOffsetFor(l, m, screenY).value;
      var x := l.order[j];
      var start := c + 2 * (cki - 1 - j);
      r.tracks[x].anims == l.tracks[x].anims +
        [Anim(RowY(j, ho), RowY(j + 1, ho), start, start + BaseLength(l.tracks[x].counts[c + LookAhead]))]
  {
    var x := l.order[j];
    assert x != m;
    CheckAndSwapOthers(l, n, m, c, screenY, x);
    ScanOfAheadQueues(l, n, m, c, j, HeightOffsetFor(l, m, screenY).value);
  }
}
