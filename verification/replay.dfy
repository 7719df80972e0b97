/**
  VoiceDetectionApp.initializePositions: the replay that walks every chunk
  of the song and, for every member, runs checkAndSwap and updateAnimations
  (or, for the last four chunks, copies a held position), producing every
  member's position timeline.

  The members are visited in the rank order current when the chunk begins:
  the source iterates over the values view of the dictionary object that
  was current then, while checkAndSwap replaces the parent's dictionary.
 */
module Replay {
  import opened Common
  import opened Animation
  import opened Reorder

  /** Chunks at and after `n - TailChunks` are not simulated. */
  const TailChunks: nat := 4

  /**
    First chunk that is copied rather than simulated: the chunks `c` with
    `c < n - TailChunks` are simulated, the others copied.
   */
  function TailStart(n: nat): (t: nat)
    ensures t <= n
    ensures n >= TailChunks ==> t == n - TailChunks
    ensures n < TailChunks ==> t == 0
  {
    if n >= TailChunks then n - TailChunks else 0
  }

  /** `l2` has the shape of `l1`: the same members, rank order a permutation, timelines untouched. */
  ghost predicate SameShape(l1: Layout, l2: Layout, n: nat) {
    && ValidLayout(l2, n)
    && l2.tracks.Keys == l1.tracks.Keys
    && multiset(l2.order) == multiset(l1.order)
    && |l2.order| == |l1.order|
    && (forall x :: x in l1.tracks ==> l2.tracks[x].counts == l1.tracks[x].counts)
  }

  /** Every position slot other than `c` is as in `l1`. */
  ghost predicate PositionsKeptExcept(l1: Layout, l2: Layout, c: int) {
    forall x :: x in l1.tracks ==>
      && x in l2.tracks
      && |l2.tracks[x].positions| == |l1.tracks[x].positions|
      && (forall i :: 0 <= i < |l1.tracks[x].positions| && i != c ==>
            l2.tracks[x].positions[i] == l1.tracks[x].positions[i])
  }

  lemma {:induction false} ShapeTrans(l1: Layout, l2: Layout, l3: Layout, n: nat)
    requires SameShape(l1, l2, n) && SameShape(l2, l3, n)
    ensures SameShape(l1, l3, n)
  {
  }

  lemma {:induction false} KeptTrans(l1: Layout, l2: Layout, l3: Layout, c: int)
    requires PositionsKeptExcept(l1, l2, c) && PositionsKeptExcept(l2, l3, c)
    requires l2.tracks.Keys == l1.tracks.Keys
    ensures PositionsKeptExcept(l1, l3, c)
  {
  }

  /** checkAndSwap keeps the shape and writes only slot `c`. */
  lemma {:induction false} CheckAndSwapShape(l: Layout, n: nat, x: Member, c: nat, screenY: map<Member, real>)
    requires ValidLayout(l, n) && x in l.tracks
    requires forall y :: y in l.tracks ==> y in screenY
    requires CheckAndSwap(l, n, x, c, screenY).Ok?
    ensures SameShape(l, CheckAndSwap(l, n, x, c, screenY).value, n)
    ensures PositionsKeptExcept(l, CheckAndSwap(l, n, x, c, screenY).value, c)
  {
    CheckAndSwapFrame(l, n, x, c, screenY);
    var l1 := CheckAndSwap(l, n, x, c, screenY).value;
    assert |l1.order| == |l.order| by {
      assert |multiset(l1.order)| == |multiset(l.order)|;
    }
  }

  /** updateAnimations for member `x` at chunk `c`, stored back into the layout. */
  function ApplyAnimations(l: Layout, n: nat, x: Member, c: nat): (r: Layout)
    requires ValidLayout(l, n) && x in l.tracks && c < n
    ensures SameShape(l, r, n) && PositionsKeptExcept(l, r, c)
    ensures r.order == l.order
  {
    var t := l.tracks[x];
    var u := UpdateAnimations(t.anims, t.positions, c).value;
    l.(tracks := l.tracks[x := t.(anims := u.0, positions := u.1)])
  }

  /** checkAndSwap then updateAnimations for member `x` at a simulated chunk `c`. */
  function MemberStep(l: Layout, n: nat, x: Member, c: nat, screenY: map<Member, real>): (r: Result<Layout>)
    requires ValidLayout(l, n) && x in l.tracks && c + TailChunks < n
    requires forall y :: y in l.tracks ==> y in screenY
    ensures r.Ok? <==> l.tracks[x].heightOffset.Some? || |l.order| >= 2
    ensures r.Ok? ==> SameShape(l, r.value, n) && PositionsKeptExcept(l, r.value, c)
  {
    var l1 :- CheckAndSwap(l, n, x, c, screenY);
    CheckAndSwapShape(l, n, x, c, screenY);
    var l2 := ApplyAnimations(l1, n, x, c);
    ShapeTrans(l, l1, l2, n);
    KeptTrans(l, l1, l2, c);
    Ok(l2)
  }


  // ---------------------------------------------------------------------------
  // The simulated chunks
  // ---------------------------------------------------------------------------

  /** The inner loop at a simulated chunk `c`, over the members `ms` (the rank order at the chunk's start). */
  function SimChunk(l: Layout, n: nat, ms: seq<Member>, c: nat, screenY: map<Member, real>): (r: Result<Layout>)
    requires ValidLayout(l, n) && c + TailChunks < n
    requires forall x :: x in ms ==> x in l.tracks
    requires forall y :: y in l.tracks ==> y in screenY
    ensures |l.order| >= 2 ==> r.Ok?
    ensures r.Ok? ==> SameShape(l, r.value, n) && PositionsKeptExcept(l, r.value, c)
    decreases |ms|
  {
    if ms == [] then Ok(l)
    else
      var l1 :- MemberStep(l, n, ms[0], c, screenY);
      var l2 :- SimChunk(l1, n, ms[1..], c, screenY);
      ShapeTrans(l, l1, l2, n);
      KeptTrans(l, l1, l2, c);
      Ok(l2)
  }

  /** Every position slot outside `lo..hi - 1` is as in `l1`. */
  ghost predicate PositionsKeptOutside(l1: Layout, l2: Layout, lo: int, hi: int) {
    forall x :: x in l1.tracks ==>
      && x in l2.tracks
      && |l2.tracks[x].positions| == |l1.tracks[x].positions|
      && (forall i :: 0 <= i < |l1.tracks[x].positions| && (i < lo || hi <= i) ==>
            l2.tracks[x].positions[i] == l1.tracks[x].positions[i])
  }

  /**
    The outer loop over the simulated chunks `c, c + 1, ..., TailStart(n) - 1`;
    it writes no slot outside them.
   */
  function SimulateFrom(l: Layout, n: nat, c: nat, screenY: map<Member, real>): (r: Result<Layout>)
    requires ValidLayout(l, n)
    requires forall y :: y in l.tracks ==> y in screenY
    ensures |l.order| >= 2 ==> r.Ok?
    ensures r.Ok? ==> SameShape(l, r.value, n) && PositionsKeptOutside(l, r.value, c, TailStart(n))
    decreases n - c
  {
    if c >= TailStart(n) then Ok(l)
    else
      var l1 :- SimChunk(l, n, l.order, c, screenY);
      var l2 :- SimulateFrom(l1, n, c + 1, screenY);
      ShapeTrans(l, l1, l2, n);
      Ok(l2)
  }

  // ---------------------------------------------------------------------------
  // The last four chunks
  // ---------------------------------------------------------------------------

  /** The copy for a tail chunk: `positionTimeline[c] = positionTimeline[j]`. */
  function TailStep(l: Layout, n: nat, x: Member, c: nat, j: nat): (r: Layout)
    requires ValidLayout(l, n) && x in l.tracks && c < n && j < n
    ensures r.order == l.order && SameShape(l, r, n) && PositionsKeptExcept(l, r, c)
    ensures forall y :: y in l.tracks && y != x ==> r.tracks[y] == l.tracks[y]
    ensures r.tracks[x].positions[c] == l.tracks[x].positions[j]
  {
    var t := l.tracks[x];
    l.(tracks := l.tracks[x := t.(positions := t.positions[c := t.positions[j]])])
  }

  /** The inner loop at a tail chunk `c`, over the members `ms`. */
  function CopyChunk(l: Layout, n: nat, ms: seq<Member>, c: nat, j: nat): (r: Layout)
    requires ValidLayout(l, n) && c < n && j < n
    requires forall x :: x in ms ==> x in l.tracks
    ensures r.order == l.order && SameShape(l, r, n) && PositionsKeptExcept(l, r, c)
    decreases |ms|
  {
    if ms == [] then l
    else
      var l1 := TailStep(l, n, ms[0], c, j);
      var l2 := CopyChunk(l1, n, ms[1..], c, j);
      ShapeTrans(l, l1, l2, n);
      KeptTrans(l, l1, l2, c);
      l2
  }

  /** The outer loop over the tail chunks `c, c + 1, ..., n - 1`, all copying slot `j`. */
  function HoldFrom(l: Layout, n: nat, c: nat, j: nat): (r: Layout)
    requires ValidLayout(l, n) && j < n
    ensures r.order == l.order && SameShape(l, r, n)
    decreases n - c
  {
    if c >= n then l
    else
      var l1 := CopyChunk(l, n, l.order, c, j);
      var l2 := HoldFrom(l1, n, c + 1, j);
      ShapeTrans(l, l1, l2, n);
      l2
  }

  /**
    The tail chunks `TailStart(n) .. n - 1`. With a source slot `i` (a
    Python index, so it may wrap) the first copy raises IndexError when `i`
    is out of range; the copy runs only if there is a tail chunk and a member.
   */
  function Tail(l: Layout, n: nat, source: Option<int>): (r: Result<Layout>)
    requires ValidLayout(l, n)
    ensures r.Ok? <==> source.None? || TailStart(n) == n || l.order == [] || PyIndex(source.value, n).Some?
    ensures r.Ok? ==> r.value.order == l.order && SameShape(l, r.value, n)
  {
    match source
    case None => Ok(l)
    case Some(i) =>
      if TailStart(n) == n || l.order == [] then Ok(l)
      else match PyIndex(i, n)
        case None => Err(IndexError)
        case Some(j) => Ok(HoldFrom(l, n, TailStart(n), j))
  }

  /**
    Every tail slot of every member of `l` shows, in `r`, the value slot `j`
    has in `l`.
   */
  ghost predicate TailShows(r: Layout, l: Layout, n: nat, j: nat) {
    forall y, k :: y in l.tracks && TailStart(n) <= k < n ==>
      && y in r.tracks && k < |r.tracks[y].positions| && j < |l.tracks[y].positions|
      && r.tracks[y].positions[k] == l.tracks[y].positions[j]
  }

  /**
    initializePositions: for every chunk, every member runs checkAndSwap and
    updateAnimations when the chunk is simulated, or copies slot `source`
    when it is a tail chunk. The source's single loop tests `c < n - 4` at
    each chunk; that test holds exactly for the chunks before TailStart(n),
    so the loop is the simulated run followed by the tail run.
   */
  function Replay(l: Layout, n: nat, screenY: map<Member, real>, source: Option<int>): (r: Result<Layout>)
    requires ValidLayout(l, n)
    requires forall y :: y in l.tracks ==> y in screenY
    ensures |l.order| >= 2 && (source.None? || TailStart(n) == n || PyIndex(source.value, n).Some?) ==> r.Ok?
    ensures r.Ok? ==> SameShape(l, r.value, n)
  {
    var l1 :- SimulateFrom(l, n, 0, screenY);
    var l2 :- Tail(l1, n, source);
    ShapeTrans(l, l1, l2, n);
    Ok(l2)
  }

  /**
    What the tail of a replay shows: a copied slot before TailStart(n) is
    held through the tail; a copied tail slot shows its value from before
    the replay, since the simulated chunks never write it.
   */
  lemma {:induction false} ReplayTail(l: Layout, n: nat, screenY: map<Member, real>, source: Option<int>)
    requires ValidLayout(l, n)
    requires forall y :: y in l.tracks ==> y in screenY
    ensures var r := Replay(l, n, screenY, source);
      r.Ok? && source.Some? && PyIndex(source.value, n).Some? ==>
      var j := PyIndex(source.value, n).value;
      && (j < TailStart(n) ==> TailShows(r.value, r.value, n, j))
      && (j >= TailStart(n) ==> TailShows(r.value, l, n, j))
  {
    var s := SimulateFrom(l, n, 0, screenY);
    if s.Ok? {
      TailFacts(l, s.value, n, source);
    }
  }

  /** initializePositions as written: the tail chunks copy slot `len(chunks) - 4`. */
  function InitializePositionsAsWritten(l: Layout, n: nat, screenY: map<Member, real>): (r: Result<Layout>)
    requires ValidLayout(l, n)
    requires forall y :: y in l.tracks ==> y in screenY
    ensures |l.order| >= 2 && n != 1 ==> r.Ok?
    ensures r.Ok? ==> SameShape(l, r.value, n)
    ensures r.Ok? && n >= 2 ==> TailShows(r.value, l, n, PyIndex(n - TailChunks, n).value)
  {
    ReplayTail(l, n, screenY, Some(n - TailChunks));
    Replay(l, n, screenY, Some(n - TailChunks))
  }

  /**
    initializePositions with the tail holding the last simulated slot
    `len(chunks) - 5`; with no simulated chunk the tail is left as it is.
   */
  function InitializePositions(l: Layout, n: nat, screenY: map<Member, real>): (r: Result<Layout>)
    requires ValidLayout(l, n)
    requires forall y :: y in l.tracks ==> y in screenY
    ensures |l.order| >= 2 ==> r.Ok?
    ensures r.Ok? ==> SameShape(l, r.value, n)
  {
    Replay(l, n, screenY, LastSimulated(n))
  }

  /** The slot the corrected tail copies: the last simulated chunk, if there is one. */
  function LastSimulated(n: nat): (s: Option<int>)
    ensures s.Some? <==> n > TailChunks
    ensures s.Some? ==> s.value == n - TailChunks - 1 && PyIndex(s.value, n) == Some(n - TailChunks - 1)
  {
    if n > TailChunks then Some(n - TailChunks - 1) else None
  }

  /** With a simulated chunk, every tail slot holds the last simulated slot. */
  lemma {:induction false} InitializePositionsHoldsLast(l: Layout, n: nat, screenY: map<Member, real>)
    requires ValidLayout(l, n)
    requires forall y :: y in l.tracks ==> y in screenY
    requires n > TailChunks
    ensures var r := InitializePositions(l, n, screenY);
      r.Ok? ==> TailShows(r.value, r.value, n, n - TailChunks - 1)
  {
    var s := LastSimulated(n);
    assert InitializePositions(l, n, screenY) == Replay(l, n, screenY, s);
    ReplayHoldsSlot(l, n, screenY, s, n - TailChunks - 1);
  }

  /** A replay that copies a simulated slot `j` holds it through the tail. */
  lemma {:induction false} ReplayHoldsSlot(l: Layout, n: nat, screenY: map<Member, real>, s: Option<int>, j: nat)
    requires ValidLayout(l, n)
    requires forall y :: y in l.tracks ==> y in screenY
    requires s == Some(j) && j < TailStart(n)
    ensures var r := Replay(l, n, screenY, s);
      r.Ok? ==> TailShows(r.value, r.value, n, j)
  {
    assert PyIndex(j, n) == Some(j);
    ReplayTail(l, n, screenY, s);
  }


  // ---------------------------------------------------------------------------
  // When the replay succeeds
  // ---------------------------------------------------------------------------

  /** A one-chunk song with any member raises IndexError: slot `1 - 4` does not exist. */
  lemma {:induction false} InitializePositionsAsWrittenOneChunk(l: Layout, screenY: map<Member, real>)
    requires ValidLayout(l, 1) && |l.order| > 0
    requires forall y :: y in l.tracks ==> y in screenY
    ensures InitializePositionsAsWritten(l, 1, screenY) == Err(IndexError)
  {
    assert SimulateFrom(l, 1, 0, screenY) == Ok(l);
    assert Tail(l, 1, Some(-3)) == Err(IndexError);
  }

  /**
    A group of one member raises IndexError on the first simulated chunk:
    heightOffset needs the first two ranked images.
   */
  lemma {:induction false} SingleMemberFails(l: Layout, n: nat, screenY: map<Member, real>)
    requires ValidLayout(l, n) && |l.order| == 1
    requires l.tracks[l.order[0]].heightOffset.None?
    requires forall y :: y in l.tracks ==> y in screenY
    requires n > TailChunks
    ensures InitializePositions(l, n, screenY) == Err(IndexError)
    ensures InitializePositionsAsWritten(l, n, screenY) == Err(IndexError)
  {
    var x := l.order[0];
    assert x in l.tracks;
    assert CheckAndSwap(l, n, x, 0, screenY) == Err(IndexError);
    assert SimChunk(l, n, l.order, 0, screenY) == Err(IndexError);
    assert SimulateFrom(l, n, 0, screenY) == Err(IndexError);
  }

  // ---------------------------------------------------------------------------
  // What the tail holds
  // ---------------------------------------------------------------------------

  /**
    At a tail chunk every member in `ms` copies slot `j` into slot `c`;
    slot `j` itself keeps its value and members outside `ms` are untouched.
   */
  lemma {:induction false} CopyChunkSlots(l: Layout, n: nat, ms: seq<Member>, c: nat, j: nat, y: Member)
    requires ValidLayout(l, n) && c < n && j < n
    requires forall x :: x in ms ==> x in l.tracks
    requires y in l.tracks
    ensures var r := CopyChunk(l, n, ms, c, j);
      && r.tracks[y].positions[j] == l.tracks[y].positions[j]
      && (y in ms ==> r.tracks[y].positions[c] == l.tracks[y].positions[j])
      && (y !in ms ==> r.tracks[y].positions == l.tracks[y].positions)
    decreases |ms|
  {
    if ms != [] {
      var x := ms[0];
      var l1 := TailStep(l, n, x, c, j);
      CopyChunkSlots(l1, n, ms[1..], c, j, y);
      assert l1.tracks[y].positions[j] == l.tracks[y].positions[j];
      assert y in ms <==> y == x || y in ms[1..] by {
        assert ms == [x] + ms[1..];
      }
    }
  }

  /**
    The tail run from `c`: every slot from `c` on holds the value slot `j`
    had when the run began, and the slots before `c` are kept.
   */
  lemma {:induction false} HoldRun(l: Layout, n: nat, c: nat, j: nat, y: Member)
    requires ValidLayout(l, n) && j < n && y in l.tracks && y in l.order
    ensures var r := HoldFrom(l, n, c, j);
      && r.tracks[y].positions[j] == l.tracks[y].positions[j]
      && (forall k :: c <= k < n ==> r.tracks[y].positions[k] == l.tracks[y].positions[j])
      && (forall k :: 0 <= k < c && k < n ==> r.tracks[y].positions[k] == l.tracks[y].positions[k])
    decreases n - c
  {
    if c < n {
      CopyChunkSlots(l, n, l.order, c, j, y);
      var l1 := CopyChunk(l, n, l.order, c, j);
      assert y in l1.order;
      HoldRun(l1, n, c + 1, j, y);
    }
  }

  /**
    After the simulated run, which writes no tail slot, a tail that copies
    slot `j >= TailStart(n)` shows the value slot `j` had before the replay.
   */
  lemma {:induction false} TailAfterSimulation(l: Layout, l1: Layout, n: nat, i: int)
    requires ValidLayout(l, n) && SameShape(l, l1, n) && PositionsKeptOutside(l, l1, 0, TailStart(n))
    requires PyIndex(i, n).Some? && PyIndex(i, n).value >= TailStart(n)
    ensures Tail(l1, n, Some(i)).Ok?
    ensures TailShows(Tail(l1, n, Some(i)).value, l, n, PyIndex(i, n).value)
  {
    var j := PyIndex(i, n).value;
    if TailStart(n) < n && l1.order != [] {
      var r := HoldFrom(l1, n, TailStart(n), j);
      assert Tail(l1, n, Some(i)) == Ok(r);
      forall y, k | y in l.tracks && TailStart(n) <= k < n
        ensures r.tracks[y].positions[k] == l.tracks[y].positions[j]
      {
        assert y in l1.tracks && y in l1.order;
        HoldRun(l1, n, TailStart(n), j, y);
      }
    }
  }

  /**
    For freshly built tracks, whose position timelines are all 0.0, the last
    four chunks of every song of at least four chunks put every image at Y 0.0,
    whatever the simulated chunks computed.
   */
  lemma {:induction false} AsWrittenTailIsInitialValue(l: Layout, n: nat, screenY: map<Member, real>)
    requires ValidLayout(l, n) && n >= TailChunks
    requires forall y :: y in l.tracks ==> y in screenY
    requires forall y, k :: y in l.tracks && 0 <= k < n ==> l.tracks[y].positions[k] == 0.0
    requires InitializePositionsAsWritten(l, n, screenY).Ok?
    ensures var r := InitializePositionsAsWritten(l, n, screenY).value;
      forall y, k :: y in l.tracks && n - TailChunks <= k < n ==> y in r.tracks && k < |r.tracks[y].positions| && r.tracks[y].positions[k] == 0.0
  {
  }

  /** A tail copying slot `j` leaves every tail slot equal to slot `j` of the result. */
  lemma {:induction false} TailHoldsSlot(l1: Layout, n: nat, j: nat)
    requires ValidLayout(l1, n) && j < TailStart(n)
    ensures Tail(l1, n, Some(j)).Ok?
    ensures TailShows(Tail(l1, n, Some(j)).value, Tail(l1, n, Some(j)).value, n, j)
  {
    if l1.order != [] {
      var r := HoldFrom(l1, n, TailStart(n), j);
      assert Tail(l1, n, Some(j)) == Ok(r);
      forall y, k | y in r.tracks && TailStart(n) <= k < n
        ensures r.tracks[y].positions[k] == r.tracks[y].positions[j]
      {
        assert y in l1.order;
        HoldRun(l1, n, TailStart(n), j, y);
      }
    }
  }

  /** TailAfterSimulation and TailHoldsSlot, by where the copied slot lies. */
  lemma {:induction false} TailFacts(l: Layout, l1: Layout, n: nat, source: Option<int>)
    requires ValidLayout(l, n) && SameShape(l, l1, n) && PositionsKeptOutside(l, l1, 0, TailStart(n))
    ensures Tail(l1, n, source).Ok? && source.Some? && PyIndex(source.value, n).Some? ==>
      var r := Tail(l1, n, source).value;
      var j := PyIndex(source.value, n).value;
      && (j < TailStart(n) ==> TailShows(r, r, n, j))
      && (j >= TailStart(n) ==> TailShows(r, l, n, j))
  {
    if source.Some? && PyIndex(source.value, n).Some? {
      var j := PyIndex(source.value, n).value;
      if j < TailStart(n) {
        TailHoldsSlot(l1, n, j);
        assert Tail(l1, n, source) == Tail(l1, n, Some(j));
      } else {
        TailAfterSimulation(l, l1, n, source.value);
      }
    }
  }

}
