/**
  TrackItem.animatePosition / updateAnimations: the list of queued linear
  position transitions of one member and how a chunk's Y value is taken
  from them.
 */
module Animation {
  import opened Common

  /** One queued transition from `startY` to `endY` over `startChunk..endChunk`. */
  datatype Anim = Anim(startY: real, endY: real, startChunk: int, endChunk: int)

  /** An animation whose span is empty or negative; updateAnimations drops it once started. */
  predicate Degenerate(a: Anim) {
    a.endChunk - a.startChunk <= 0
  }

  /** The animation has started by chunk `c` and has a proper span, so it writes a value. */
  predicate Applies(a: Anim, c: int) {
    a.startChunk <= c && !Degenerate(a)
  }

  /** updateAnimations removes exactly the started degenerate entries. */
  predicate Dropped(a: Anim, c: int) {
    a.startChunk <= c && Degenerate(a)
  }

  function Min(x: real, y: real): real {
    if x <= y then x else y
  }

  /** `min((c - startChunk) / (endChunk - startChunk), 1.0)`. */
  function Progress(a: Anim, c: int): real
    requires Applies(a, c)
  {
    Min((c - a.startChunk) as real / (a.endChunk - a.startChunk) as real, 1.0)
  }


  /** `s + (e - s) * p`: the point a fraction `p` of the way from `s` to `e`. */
  function Lerp(s: real, e: real, p: real): real {
    s + (e - s) * p
  }

  /**
    The Y value an applying animation writes at chunk `c`: the linear
    interpolation, locked to `endY` once progress reaches 1.
   */
  function Interpolate(a: Anim, c: int): (y: real)
    requires Applies(a, c)
    ensures c == a.startChunk ==> y == a.startY
    ensures c >= a.endChunk ==> y == a.endY
    ensures Min(a.startY, a.endY) <= y
    ensures y <= (if a.startY <= a.endY then a.endY else a.startY)
  {
    var p := Progress(a, c);
    ProgressBounds(a, c);
    LerpBounds(a.startY, a.endY, p);
    if p == 1.0 then a.endY else Lerp(a.startY, a.endY, p)
  }

  /** Sign of a product, the one fact about multiplication the proofs below use. */
  lemma {:induction false} ProductSign(a: real, b: real)
    ensures 0.0 <= a && 0.0 <= b ==> 0.0 <= a * b
  {
  }

  lemma {:induction false} ProductPositive(a: real, b: real)
    requires 0.0 < a && 0.0 < b
    ensures 0.0 < a * b
  {
  }

  lemma {:induction false} LerpBounds(s: real, e: real, p: real)
    requires 0.0 <= p <= 1.0
    ensures p == 0.0 ==> Lerp(s, e, p) == s
    ensures Min(s, e) <= Lerp(s, e, p)
    ensures Lerp(s, e, p) <= (if s <= e then e else s)
  {
    ProductSign(e - s, p);
    ProductSign(e - s, 1.0 - p);
    ProductSign(s - e, p);
    ProductSign(s - e, 1.0 - p);
  }

  lemma {:induction false} LerpMonotone(s: real, e: real, p1: real, p2: real)
    requires p1 <= p2
    ensures s <= e ==> Lerp(s, e, p1) <= Lerp(s, e, p2)
    ensures e <= s ==> Lerp(s, e, p2) <= Lerp(s, e, p1)
  {
    ProductSign(e - s, p2 - p1);
    ProductSign(s - e, p2 - p1);
  }

  lemma {:induction false} LerpStrictlyMonotone(s: real, e: real, p1: real, p2: real)
    requires p1 < p2
    ensures s < e ==> Lerp(s, e, p1) < Lerp(s, e, p2)
    ensures e < s ==> Lerp(s, e, p2) < Lerp(s, e, p1)
  {
    var d := Lerp(s, e, p2) - Lerp(s, e, p1);
    assert d == (e - s) * (p2 - p1);
    if s < e {
      ProductPositive(e - s, p2 - p1);
    } else if e < s {
      assert (s - e) * (p2 - p1) == -d;
      ProductPositive(s - e, p2 - p1);
    }
  }

  /** Dividing by a positive span keeps the strict order of the numerators. */
  lemma {:induction false} DivStrictlyMonotone(x1: real, x2: real, span: real)
    requires x1 < x2 && 0.0 < span
    ensures x1 / span < x2 / span
  {
    var q1, q2 := x1 / span, x2 / span;
    assert q1 * span == x1 && q2 * span == x2;
    if q2 <= q1 {
      ProductSign(q1 - q2, span);
    }
  }

  /** Dividing by a positive span keeps the order of the numerators. */
  lemma {:induction false} DivMonotone(x1: real, x2: real, span: real)
    requires x1 <= x2 && 0.0 < span
    ensures x1 / span <= x2 / span
  {
    var q1, q2 := x1 / span, x2 / span;
    assert q1 * span == x1 && q2 * span == x2;
    ProductSign(q2 - q1, span);
    ProductSign(q1 - q2, span);
  }

  lemma {:induction false} ProgressBounds(a: Anim, c: int)
    requires Applies(a, c)
    ensures 0.0 <= Progress(a, c) <= 1.0
    ensures c == a.startChunk ==> Progress(a, c) == 0.0
    ensures c >= a.endChunk ==> Progress(a, c) == 1.0
  {
    var span := (a.endChunk - a.startChunk) as real;
    var x := (c - a.startChunk) as real;
    DivMonotone(0.0, x, span);
    assert 0.0 / span == 0.0;
    if c == a.startChunk {
      DivMonotone(x, 0.0, span);
    }
    if c >= a.endChunk {
      DivMonotone(span, x, span);
      assert span / span == 1.0;
    }
  }

  /** animatePosition: queue a transition at the end of the list. */
  function AnimatePosition(anims: seq<Anim>, startY: real, endY: real, startChunk: int, endChunk: int): (r: seq<Anim>)
    ensures |r| == |anims| + 1 && r[..|anims|] == anims
    ensures r[|anims|] == Anim(startY, endY, startChunk, endChunk)
  {
    anims + [Anim(startY, endY, startChunk, endChunk)]
  }

  /**
    The update loop over the snapshot `snap` (the `self.animations[:]` copy),
    at position `k`, with the live list `live` and the position timeline `pos`.
   */
  function UpdateFrom(snap: seq<Anim>, k: nat, live: seq<Anim>, pos: seq<real>, c: int): Result<(seq<Anim>, seq<real>)>
    requires k <= |snap|
    decreases |snap| - k
  {
    if k == |snap| then Ok((live, pos))
    else
      var a := snap[k];
      if c < a.startChunk then UpdateFrom(snap, k + 1, live, pos, c)
      else if Degenerate(a) then
        if a !in live then Err(ValueError)
        else UpdateFrom(snap, k + 1, RemoveFirst(live, a), pos, c)
      else
        match PyIndex(c, |pos|)
        case None => Err(IndexError)
        case Some(j) => UpdateFrom(snap, k + 1, live, pos[j := Interpolate(a, c)], c)
  }

  /** updateAnimations(currentChunk): returns the new animation list and position timeline. */
  function UpdateAnimations(anims: seq<Anim>, pos: seq<real>, c: int): (r: Result<(seq<Anim>, seq<real>)>)
    ensures r.Ok? <==> LastApplying(anims, c).None? || PyIndex(c, |pos|).Some?
    ensures r.Ok? ==> r.value.0 == Kept(anims, c)
    ensures r.Ok? ==> r.value.1 == match LastApplying(anims, c)
                                   case None => pos
                                   case Some(a) => pos[PyIndex(c, |pos|).value := Interpolate(a, c)]
    ensures r.Ok? ==> |r.value.1| == |pos|
  {
    assert anims[..0] == [] && anims[0..] == anims;
    UpdateFromSpec(anims, 0, anims, pos, c);
    UpdateFrom(anims, 0, anims, pos, c)
  }

  // ---------------------------------------------------------------------------
  // Reference semantics
  // ---------------------------------------------------------------------------

  /** The animations that survive chunk `c`: all but the started degenerate ones, in order. */
  function Kept(s: seq<Anim>, c: int): seq<Anim> {
    if s == [] then []
    else Kept(s[..|s| - 1], c) + (if Dropped(s[|s| - 1], c) then [] else [s[|s| - 1]])
  }

  /** The last animation in list order that writes a value at chunk `c`. */
  function LastApplying(s: seq<Anim>, c: int): (r: Option<Anim>)
    ensures r.None? <==> forall a :: a in s ==> !Applies(a, c)
    ensures r.Some? ==> Applies(r.value, c)
    ensures r.Some? ==>
      exists i :: 0 <= i < |s| && s[i] == r.value && forall j :: i < j < |s| ==> !Applies(s[j], c)
  {
    if s == [] then None
    else match LastApplying(s[1..], c)
      case Some(a) =>
        ghost var i :| 0 <= i < |s[1..]| && s[1..][i] == a && forall j :: i < j < |s[1..]| ==> !Applies(s[1..][j], c);
        assert s[i + 1] == a && forall j :: i + 1 < j < |s| ==> !Applies(s[j], c) by {
          forall j | i + 1 < j < |s| ensures !Applies(s[j], c) {
            assert s[j] == s[1..][j - 1];
          }
        }
        Some(a)
      case None =>
        assert forall j :: 0 < j < |s| ==> !Applies(s[j], c) by {
          forall j | 0 < j < |s| ensures !Applies(s[j], c) {
            assert s[j] in s[1..];
          }
        }
        if Applies(s[0], c) then Some(s[0]) else None
  }

  lemma {:induction false} KeptMembers(s: seq<Anim>, c: int, x: Anim)
    ensures x in Kept(s, c) <==> x in s && !Dropped(x, c)
  {
    if s != [] {
      KeptMembers(s[..|s| - 1], c, x);
      assert s == s[..|s| - 1] + [s[|s| - 1]];
    }
  }

  /** The position result of UpdateFrom, as a function of the remaining snapshot. */
  function WriteLast(pos: seq<real>, c: int, last: Option<Anim>): seq<real>
    requires last.Some? ==> Applies(last.value, c) && PyIndex(c, |pos|).Some?
  {
    match last
    case None => pos
    case Some(a) => pos[PyIndex(c, |pos|).value := Interpolate(a, c)]
  }

  lemma {:induction false} UpdateFromSpec(snap: seq<Anim>, k: nat, live: seq<Anim>, pos: seq<real>, c: int)
    requires k <= |snap|
    requires live == Kept(snap[..k], c) + snap[k..]
    ensures var r := UpdateFrom(snap, k, live, pos, c);
      && (r.Ok? <==> LastApplying(snap[k..], c).None? || PyIndex(c, |pos|).Some?)
      && (r.Ok? ==> r.value.0 == Kept(snap, c))
      && (r.Ok? ==> r.value.1 == WriteLast(pos, c, LastApplying(snap[k..], c)))
    decreases |snap| - k, 1
  {
    if k == |snap| {
      assert snap[..k] == snap;
      assert snap[k..] == [];
    } else {
      var a := snap[k];
      var rest := LastApplying(snap[k + 1..], c);
      SnapshotStep(snap, k, c);
      if c < a.startChunk {
        LiveStep(snap, k, live, c);
        UpdateFromSpec(snap, k + 1, live, pos, c);
      } else if Degenerate(a) {
        LiveDrop(snap, k, live, c);
        UpdateFromSpec(snap, k + 1, RemoveFirst(live, a), pos, c);
      } else {
        UpdateFromApplies(snap, k, live, pos, c);
      }
    }
  }

  /** UpdateFromSpec at an entry `snap[k]` that applies and writes its value. */
  lemma {:induction false} UpdateFromApplies(snap: seq<Anim>, k: nat, live: seq<Anim>, pos: seq<real>, c: int)
    requires k < |snap|
    requires live == Kept(snap[..k], c) + snap[k..]
    requires snap[k].startChunk <= c && !Degenerate(snap[k])
    ensures var r := UpdateFrom(snap, k, live, pos, c);
      && (r.Ok? <==> LastApplying(snap[k..], c).None? || PyIndex(c, |pos|).Some?)
      && (r.Ok? ==> r.value.0 == Kept(snap, c))
      && (r.Ok? ==> r.value.1 == WriteLast(pos, c, LastApplying(snap[k..], c)))
    decreases |snap| - k, 0
  {
    var a := snap[k];
    var rest := LastApplying(snap[k + 1..], c);
    SnapshotStep(snap, k, c);
    LiveStep(snap, k, live, c);
    match PyIndex(c, |pos|)
    case None =>
      assert UpdateFrom(snap, k, live, pos, c) == Err(IndexError);
    case Some(j) =>
      var pos' := pos[j := Interpolate(a, c)];
      assert UpdateFrom(snap, k, live, pos, c) == UpdateFrom(snap, k + 1, live, pos', c);
      UpdateFromSpec(snap, k + 1, live, pos', c);
      if rest.Some? {
        assert pos'[j := Interpolate(rest.value, c)] == pos[j := Interpolate(rest.value, c)];
      }
  }

  /** Past an entry `snap[k]` that is not dropped, the live list keeps its shape. */
  lemma {:induction false} LiveStep(snap: seq<Anim>, k: nat, live: seq<Anim>, c: int)
    requires k < |snap| && live == Kept(snap[..k], c) + snap[k..]
    requires !Dropped(snap[k], c)
    ensures live == Kept(snap[..k + 1], c) + snap[k + 1..]
  {
    SnapshotStep(snap, k, c);
    assert snap[k..] == [snap[k]] + snap[k + 1..];
  }

  /**
    A dropped entry `snap[k]` is the first of its value in the live list,
    so removing it leaves the live list's shape for `k + 1`.
   */
  lemma {:induction false} LiveDrop(snap: seq<Anim>, k: nat, live: seq<Anim>, c: int)
    requires k < |snap| && live == Kept(snap[..k], c) + snap[k..]
    requires Dropped(snap[k], c)
    ensures snap[k] in live && RemoveFirst(live, snap[k]) == Kept(snap[..k + 1], c) + snap[k + 1..]
  {
    var p, a, q := Kept(snap[..k], c), snap[k], snap[k + 1..];
    SnapshotStep(snap, k, c);
    assert snap[k..] == [a] + q;
    assert live == p + [a] + q;
    KeptMembers(snap[..k], c, a);
    RemoveFirstSkips(p, q, a);
  }

  /** Moving the snapshot position past `snap[k]`, for the two reference definitions. */
  lemma {:induction false} SnapshotStep(snap: seq<Anim>, k: nat, c: int)
    requires k < |snap|
    ensures var a, rest := snap[k], LastApplying(snap[k + 1..], c);
      LastApplying(snap[k..], c) == if rest.Some? then rest else if Applies(a, c) then Some(a) else None
    ensures Kept(snap[..k + 1], c) == Kept(snap[..k], c) + (if Dropped(snap[k], c) then [] else [snap[k]])
  {
    assert snap[k..][1..] == snap[k + 1..];
    var pre := snap[..k + 1];
    assert pre[..|pre| - 1] == snap[..k] && pre[|pre| - 1] == snap[k];
  }

  /** The lock to `endY` agrees with the interpolation formula at progress 1. */
  lemma {:induction false} InterpolateIsLinear(a: Anim, c: int)
    requires Applies(a, c)
    ensures Interpolate(a, c) == Lerp(a.startY, a.endY, Progress(a, c))
  {
  }

  lemma {:induction false} ProgressMonotone(a: Anim, c1: int, c2: int)
    requires Applies(a, c1) && c1 <= c2
    ensures 0.0 <= Progress(a, c1) <= Progress(a, c2) <= 1.0
  {
    var span := (a.endChunk - a.startChunk) as real;
    ProgressBounds(a, c1);
    ProgressBounds(a, c2);
    DivMonotone((c1 - a.startChunk) as real, (c2 - a.startChunk) as real, span);
  }

  /**
    Interpolation moves monotonically from `startY` towards `endY` as the
    chunk advances.
   */
  lemma {:induction false} InterpolateMonotone(a: Anim, c1: int, c2: int)
    requires Applies(a, c1) && c1 <= c2
    ensures a.startY <= a.endY ==> Interpolate(a, c1) <= Interpolate(a, c2)
    ensures a.endY <= a.startY ==> Interpolate(a, c2) <= Interpolate(a, c1)
  {
    InterpolateIsLinear(a, c1);
    InterpolateIsLinear(a, c2);
    ProgressMonotone(a, c1, c2);
    LerpMonotone(a.startY, a.endY, Progress(a, c1), Progress(a, c2));
  }

  /** Before the end chunk, progress grows strictly with the chunk. */
  lemma {:induction false} ProgressStrictlyMonotone(a: Anim, c1: int, c2: int)
    requires Applies(a, c1) && c1 < c2 <= a.endChunk
    ensures Progress(a, c1) < Progress(a, c2)
  {
    var span := (a.endChunk - a.startChunk) as real;
    var x1, x2 := (c1 - a.startChunk) as real, (c2 - a.startChunk) as real;
    DivStrictlyMonotone(x1, x2, span);
    DivMonotone(x2, span, span);
    DivMonotone(x1, span, span);
    assert span / span == 1.0;
  }

  /**
    Between the start chunk and the end chunk of a transition that really
    moves, interpolation is strictly monotone: each later chunk is strictly
    closer to `endY`.
   */
  lemma {:induction false} InterpolateStrictlyMonotone(a: Anim, c1: int, c2: int)
    requires Applies(a, c1) && c1 < c2 <= a.endChunk
    ensures a.startY < a.endY ==> Interpolate(a, c1) < Interpolate(a, c2)
    ensures a.endY < a.startY ==> Interpolate(a, c2) < Interpolate(a, c1)
  {
    InterpolateIsLinear(a, c1);
    InterpolateIsLinear(a, c2);
    ProgressStrictlyMonotone(a, c1, c2);
    LerpStrictlyMonotone(a.startY, a.endY, Progress(a, c1), Progress(a, c2));
  }
}
