/**
  The label bookkeeping of VoiceDetectionApp: dropping the labels of a
  deleted marker, merging the in-memory labels into the saved ones, sorting
  the markers into progress-bar sections, moving the selected marker one
  chunk, and pairing start and end markers back into labels. The JSON file
  is the sequence read before and written after each operation.
 */
module Labels {
  import opened Common
  import opened Sorting
  import opened Timeline

  datatype MarkerKind = StartMarker | EndMarker

  /** A marker on the progress bar, as the `("start", chunkIndex)` pairs and the selected-marker dict hold it. */
  datatype Marker = Marker(kind: MarkerKind, chunk: int)

  // ---------------------------------------------------------------------------
  // removeLabelFromJSON
  // ---------------------------------------------------------------------------

  /** The label starts (or ends, for an end marker) at the deleted marker's chunk. */
  predicate MarkedBy(l: Label, chunk: int, kind: MarkerKind) {
    (kind == StartMarker && l.start == chunk) || (kind == EndMarker && l.end == chunk)
  }

  /** The list comprehension of removeLabelFromJSON: keep the labels the deleted marker does not bound. */
  function RemoveLabels(labels: seq<Label>, chunk: int, kind: MarkerKind): (r: seq<Label>)
    ensures |r| <= |labels|
    ensures forall i :: 0 <= i < |r| ==> !MarkedBy(r[i], chunk, kind)
    decreases |labels|
  {
    if labels == [] then []
    else (if MarkedBy(labels[0], chunk, kind) then [] else [labels[0]]) + RemoveLabels(labels[1..], chunk, kind)
  }

  /**
    Removal takes out every copy of every label the marker bounds and keeps
    every copy of every other label.
   */
  lemma {:induction false} RemoveLabelsCounts(labels: seq<Label>, chunk: int, kind: MarkerKind, x: Label)
    ensures multiset(RemoveLabels(labels, chunk, kind))[x] == if MarkedBy(x, chunk, kind) then 0 else multiset(labels)[x]
    decreases |labels|
  {
    if labels != [] {
      RemoveLabelsCounts(labels[1..], chunk, kind, x);
      assert labels == [labels[0]] + labels[1..];
    }
  }

  /** Removing the labels of the same marker twice removes nothing more. */
  lemma {:induction false} RemoveLabelsIdempotent(labels: seq<Label>, chunk: int, kind: MarkerKind)
    ensures RemoveLabels(RemoveLabels(labels, chunk, kind), chunk, kind) == RemoveLabels(labels, chunk, kind)
    decreases |labels|
  {
    if labels != [] {
      RemoveLabelsIdempotent(labels[1..], chunk, kind);
      var tail := RemoveLabels(labels[1..], chunk, kind);
      if MarkedBy(labels[0], chunk, kind) {
        assert RemoveLabels(labels, chunk, kind) == [] + tail == tail;
      } else {
        var r := RemoveLabels(labels, chunk, kind);
        assert r == [labels[0]] + tail;
        assert r[0] == labels[0] && r[1..] == tail;
      }
    }
  }

  // ---------------------------------------------------------------------------
  // saveLabels
  // ---------------------------------------------------------------------------

  function StartOf(l: Label): int {
    l.start
  }

  /** `newLabels`: the current labels not already saved, in order and with their repeats. */
  function NewLabels(current: seq<Label>, existing: seq<Label>): (r: seq<Label>)
    ensures forall i :: 0 <= i < |r| ==> r[i] !in existing
    decreases |current|
  {
    if current == [] then []
    else (if current[0] in existing then [] else [current[0]]) + NewLabels(current[1..], existing)
  }

  lemma {:induction false} NewLabelsCounts(current: seq<Label>, existing: seq<Label>, x: Label)
    ensures multiset(NewLabels(current, existing))[x] == if x in existing then 0 else multiset(current)[x]
    decreases |current|
  {
    if current != [] {
      NewLabelsCounts(current[1..], existing, x);
      assert current == [current[0]] + current[1..];
    }
  }

  /**
    The merge of saveLabels: the saved labels followed by the new ones,
    stably sorted by start chunk.
   */
  function MergeLabels(existing: seq<Label>, current: seq<Label>): (r: seq<Label>)
    ensures SortedBy(r, StartOf)
    ensures multiset(r) == multiset(existing) + multiset(NewLabels(current, existing))
    ensures forall v :: WithKey(r, StartOf, v) == WithKey(existing, StartOf, v) + WithKey(NewLabels(current, existing), StartOf, v)
  {
    var combined := existing + NewLabels(current, existing);
    SortByIsStableSort(combined, StartOf);
    forall v
      ensures WithKey(combined, StartOf, v) == WithKey(existing, StartOf, v) + WithKey(NewLabels(current, existing), StartOf, v)
    {
      WithKeyAppend(existing, NewLabels(current, existing), StartOf, v);
    }
    SortBy(combined, StartOf)
  }

  /**
    Every saved and every current label is in the merged file, and nothing
    else is; a label not saved before keeps all its copies from the current
    list, repeats included.
   */
  lemma {:induction false} MergeLabelsMembers(existing: seq<Label>, current: seq<Label>, x: Label)
    ensures x in MergeLabels(existing, current) <==> x in existing || x in current
    ensures x !in existing ==> multiset(MergeLabels(existing, current))[x] == multiset(current)[x]
    ensures x in existing ==> multiset(MergeLabels(existing, current))[x] == multiset(existing)[x]
  {
    NewLabelsCounts(current, existing, x);
  }

  /** Saving the same labels a second time leaves the file as the first save wrote it. */
  lemma {:induction false} MergeLabelsIdempotent(existing: seq<Label>, current: seq<Label>)
    ensures MergeLabels(MergeLabels(existing, current), current) == MergeLabels(existing, current)
  {
    var saved := MergeLabels(existing, current);
    forall x | x in current
      ensures x in saved
    {
      MergeLabelsMembers(existing, current, x);
    }
    NewLabelsNone(current, saved);
    assert saved + [] == saved;
    SortBySorted(saved, StartOf);
  }

  lemma {:induction false} NewLabelsNone(current: seq<Label>, existing: seq<Label>)
    requires forall x :: x in current ==> x in existing
    ensures NewLabels(current, existing) == []
    decreases |current|
  {
    if current != [] {
      assert current[0] in current;
      NewLabelsNone(current[1..], existing);
    }
  }

  // ---------------------------------------------------------------------------
  // updateTimeMarkersDict
  // ---------------------------------------------------------------------------

  /** The markers of kind `kind` among chunks `cs` that fall in section `s`, in list order. */
  function InSection(cs: seq<int>, kind: MarkerKind, chunksInView: nat, s: int): (r: seq<Marker>)
    requires chunksInView > 0
    decreases |cs|
  {
    if cs == [] then []
    else (if cs[0] / chunksInView == s then [Marker(kind, cs[0])] else []) + InSection(cs[1..], kind, chunksInView, s)
  }

  /** The list stored under `s`, or the empty list the source creates for a new key. */
  function Bucket(m: map<int, seq<Marker>>, s: int): seq<Marker> {
    if s in m then m[s] else []
  }

  /** One loop of updateTimeMarkersDict: append each chunk's marker to its section's list. */
  function AddMarkers(m: map<int, seq<Marker>>, cs: seq<int>, kind: MarkerKind, chunksInView: nat): map<int, seq<Marker>>
    requires chunksInView > 0
    decreases |cs|
  {
    if cs == [] then m
    else
      var s := cs[0] / chunksInView;
      AddMarkers(m[s := Bucket(m, s) + [Marker(kind, cs[0])]], cs[1..], kind, chunksInView)
  }

  /** updateTimeMarkersDict: start markers first, then end markers, keyed by `chunk // chunksInView`. */
  function TimeMarkers(startPoints: seq<int>, endPoints: seq<int>, chunksInView: nat): map<int, seq<Marker>>
    requires chunksInView > 0
  {
    AddMarkers(AddMarkers(map[], startPoints, StartMarker, chunksInView), endPoints, EndMarker, chunksInView)
  }

  lemma {:induction false} AddMarkersSpec(m: map<int, seq<Marker>>, cs: seq<int>, kind: MarkerKind, chunksInView: nat, s: int)
    requires chunksInView > 0
    ensures s in AddMarkers(m, cs, kind, chunksInView) <==> s in m || InSection(cs, kind, chunksInView, s) != []
    ensures Bucket(AddMarkers(m, cs, kind, chunksInView), s) == Bucket(m, s) + InSection(cs, kind, chunksInView, s)
    decreases |cs|
  {
    if cs != [] {
      var t := cs[0] / chunksInView;
      var m' := m[t := Bucket(m, t) + [Marker(kind, cs[0])]];
      AddMarkersSpec(m', cs[1..], kind, chunksInView, s);
      if t == s {
        assert Bucket(m', s) == Bucket(m, s) + [Marker(kind, cs[0])];
      } else {
        assert Bucket(m', s) == Bucket(m, s);
      }
    }
  }

  /**
    Section `s` has an entry exactly when some start or end marker lies in
    it, and the entry lists that section's start markers, then its end
    markers, each in list order.
   */
  lemma {:induction false} TimeMarkersSpec(startPoints: seq<int>, endPoints: seq<int>, chunksInView: nat, s: int)
    requires chunksInView > 0
    ensures var m := TimeMarkers(startPoints, endPoints, chunksInView);
      && (s in m <==> InSection(startPoints, StartMarker, chunksInView, s) != [] || InSection(endPoints, EndMarker, chunksInView, s) != [])
      && (s in m ==> m[s] == InSection(startPoints, StartMarker, chunksInView, s) + InSection(endPoints, EndMarker, chunksInView, s))
  {
    var m0 := AddMarkers(map[], startPoints, StartMarker, chunksInView);
    AddMarkersSpec(map[], startPoints, StartMarker, chunksInView, s);
    AddMarkersSpec(m0, endPoints, EndMarker, chunksInView, s);
    assert Bucket(map[], s) == [];
  }

  /** Every marker in a section's list lies in that section. */
  lemma {:induction false} InSectionBelongs(cs: seq<int>, kind: MarkerKind, chunksInView: nat, s: int)
    requires chunksInView > 0
    ensures forall i :: 0 <= i < |InSection(cs, kind, chunksInView, s)| ==>
      var mk := InSection(cs, kind, chunksInView, s)[i];
      mk.kind == kind && mk.chunk in cs && s * chunksInView <= mk.chunk < s * chunksInView + chunksInView
    decreases |cs|
  {
    if cs != [] {
      InSectionBelongs(cs[1..], kind, chunksInView, s);
      var r := InSection(cs, kind, chunksInView, s);
      var tail := InSection(cs[1..], kind, chunksInView, s);
      forall i | 0 <= i < |r|
        ensures r[i].kind == kind && r[i].chunk in cs && s * chunksInView <= r[i].chunk < s * chunksInView + chunksInView
      {
        if cs[0] / chunksInView == s {
          if i == 0 {
            FloorDivBounds(cs[0], chunksInView);
          } else {
            assert r[i] == tail[i - 1];
          }
        } else {
          assert r[i] == tail[i];
        }
      }
    }
  }

  lemma {:induction false} FloorDivBounds(c: int, n: nat)
    requires n > 0
    ensures (c / n) * n <= c < (c / n) * n + n
  {
  }

  // ---------------------------------------------------------------------------
  // moveMarker
  // ---------------------------------------------------------------------------

  /**
    The markers of one kind: the chunk list (`startPoints` or `endPoints`)
    and the chunks that have a line on the canvas (the keys of
    `startPointMarkers` or `endPointMarkers`).
   */
  datatype MarkerSet = MarkerSet(points: seq<int>, drawn: set<int>)

  /** The editor state moveMarker reads and writes. */
  datatype Editor = Editor(
    starts: MarkerSet,
    ends: MarkerSet,
    labels: seq<Label>,
    selectedMarker: Option<Marker>,
    selectedLabel: Option<Label>)

  function MarkersOf(e: Editor, kind: MarkerKind): MarkerSet {
    if kind == StartMarker then e.starts else e.ends
  }

  /**
    Move one marker's bookkeeping from chunk `from` to chunk `to`: a drawn
    marker loses its line and its first entry in the point list; the new
    chunk always gets a line and a list entry.
   */
  function Relocate(ms: MarkerSet, from: int, to: int): (r: MarkerSet)
    ensures to in r.drawn && to in r.points
    ensures from in ms.drawn ==> r.drawn == ms.drawn - {from} + {to}
    ensures from !in ms.drawn ==> r.drawn == ms.drawn + {to} && r.points == ms.points + [to]
  {
    if from in ms.drawn then MarkerSet(RemoveFirst(ms.points, from) + [to], ms.drawn - {from} + {to})
    else MarkerSet(ms.points + [to], ms.drawn + {to})
  }

  /** A drawn and listed marker moves its one list entry from `from` to `to`. */
  lemma {:induction false} RelocateCounts(ms: MarkerSet, from: int, to: int)
    requires from in ms.drawn && from in ms.points
    ensures multiset(Relocate(ms, from, to).points) == multiset(ms.points) - multiset{from} + multiset{to}
  {
    RemoveFirstCount(ms.points, from);
  }

  /** The label with the moved end set to the new chunk. */
  function Retarget(l: Label, kind: MarkerKind, to: int): Label {
    if kind == StartMarker then l.(start := to) else l.(end := to)
  }

  /** The chunk of the label end a marker kind refers to. */
  function EndAt(l: Label, kind: MarkerKind): int {
    if kind == StartMarker then l.start else l.end
  }

  /**
    The label loop of moveMarker: the first label equal to the selected one
    gets the new chunk, and the selection follows it; with no equal label
    nothing changes.
   */
  function UpdateSelectedLabel(labels: seq<Label>, sel: Label, kind: MarkerKind, to: int): (r: (seq<Label>, Label))
    ensures sel !in labels ==> r == (labels, sel)
    ensures sel in labels ==> r.1 == Retarget(sel, kind, to) && r.0 == labels[IndexOf(labels, sel) := r.1]
  {
    if sel in labels then
      var u := Retarget(sel, kind, to);
      (labels[IndexOf(labels, sel) := u], u)
    else (labels, sel)
  }

  /** The label list and the selected label after the marker moved to `to`. */
  function LabelsAfterMove(e: Editor, kind: MarkerKind, to: int): (r: (seq<Label>, Option<Label>))
    ensures e.selectedLabel.None? ==> r == (e.labels, None)
    ensures e.selectedLabel.Some? ==>
      r.1.Some? && (r.0, r.1.value) == UpdateSelectedLabel(e.labels, e.selectedLabel.value, kind, to)
  {
    match e.selectedLabel
    case None => (e.labels, None)
    case Some(sel) =>
      var (ls, u) := UpdateSelectedLabel(e.labels, sel, kind, to);
      (ls, Some(u))
  }

  /** The body of moveMarker once the move is known to stay in bounds. */
  function MoveTo(e: Editor, kind: MarkerKind, from: int, to: int): (r: Editor)
    ensures r.selectedMarker == Some(Marker(kind, to))
    ensures MarkersOf(r, kind) == Relocate(MarkersOf(e, kind), from, to)
    ensures kind == StartMarker ==> r.ends == e.ends
    ensures kind == EndMarker ==> r.starts == e.starts
    ensures (r.labels, r.selectedLabel) == LabelsAfterMove(e, kind, to)
  {
    var e1 := if kind == StartMarker then e.(starts := Relocate(e.starts, from, to))
              else e.(ends := Relocate(e.ends, from, to));
    var (ls, sel) := LabelsAfterMove(e, kind, to);
    e1.(labels := ls, selectedLabel := sel, selectedMarker := Some(Marker(kind, to)))
  }

  /**
    moveMarker(direction) on a song of `chunkCount` chunks: without a
    selected marker, or when the marker would leave `[0, chunkCount)`,
    nothing changes.
   */
  function MoveMarker(e: Editor, direction: int, chunkCount: nat): (r: Editor)
    ensures e.selectedMarker.None? ==> r == e
    ensures e.selectedMarker.Some? && !(0 <= e.selectedMarker.value.chunk + direction < chunkCount) ==> r == e
    ensures e.selectedMarker.Some? && 0 <= e.selectedMarker.value.chunk + direction < chunkCount ==>
      r == MoveTo(e, e.selectedMarker.value.kind, e.selectedMarker.value.chunk, e.selectedMarker.value.chunk + direction)
  {
    match e.selectedMarker
    case None => e
    case Some(Marker(kind, from)) =>
      var to := from + direction;
      if to < 0 || to >= chunkCount then e
      else MoveTo(e, kind, from, to)
  }

  /**
    Moving the selected marker one way and then back restores the editor:
    the same marker is selected, the same chunks carry lines, the point
    list holds the same chunks, and the selected label and the label list
    are as before. This needs the marker to be drawn and listed, its
    neighbour chunk to be free, and the selected label (if any) to be in
    the list with its end at the marker and no copy of its moved form.
   */
  lemma {:induction false} MoveMarkerBack(e: Editor, kind: MarkerKind, from: int, direction: int, chunkCount: nat)
    requires e.selectedMarker == Some(Marker(kind, from)) && direction != 0
    requires 0 <= from < chunkCount && 0 <= from + direction < chunkCount
    requires from in MarkersOf(e, kind).drawn && from in MarkersOf(e, kind).points
    requires from + direction !in MarkersOf(e, kind).drawn
    requires e.selectedLabel.Some? ==>
      && e.selectedLabel.value in e.labels
      && EndAt(e.selectedLabel.value, kind) == from
      && Retarget(e.selectedLabel.value, kind, from + direction) !in e.labels
    ensures var back := MoveMarker(MoveMarker(e, direction, chunkCount), -direction, chunkCount);
      && back.selectedMarker == e.selectedMarker
      && back.labels == e.labels
      && back.selectedLabel == e.selectedLabel
      && MarkersOf(back, kind).drawn == MarkersOf(e, kind).drawn
      && multiset(MarkersOf(back, kind).points) == multiset(MarkersOf(e, kind).points)
      && (kind == StartMarker ==> back.ends == e.ends)
      && (kind == EndMarker ==> back.starts == e.starts)
  {
    var to := from + direction;
    var e1 := MoveTo(e, kind, from, to);
    assert MoveMarker(e, direction, chunkCount) == e1;
    assert to + -direction == from;
    assert MoveMarker(e1, -direction, chunkCount) == MoveTo(e1, kind, to, from);
    RelocateBack(MarkersOf(e, kind), from, to);
    LabelsAfterMoveBack(e, kind, from, to);
  }

  /** The label part of a move and its reverse. */
  lemma {:induction false} LabelsAfterMoveBack(e: Editor, kind: MarkerKind, from: int, to: int)
    requires e.selectedLabel.Some? ==>
      && e.selectedLabel.value in e.labels
      && EndAt(e.selectedLabel.value, kind) == from
      && Retarget(e.selectedLabel.value, kind, to) !in e.labels
    ensures LabelsAfterMove(MoveTo(e, kind, from, to), kind, from) == (e.labels, e.selectedLabel)
  {
    var e1 := MoveTo(e, kind, from, to);
    if e.selectedLabel.Some? {
      var sel := e.selectedLabel.value;
      var (ls, u) := UpdateSelectedLabel(e.labels, sel, kind, to);
      assert e1.labels == ls && e1.selectedLabel == Some(u);
      UpdateSelectedLabelBack(e.labels, sel, kind, from, to);
    }
  }

  /** Relocating a drawn, listed marker to a free chunk and back restores its kind's bookkeeping. */
  lemma {:induction false} RelocateBack(ms: MarkerSet, from: int, to: int)
    requires from in ms.drawn && from in ms.points && to !in ms.drawn
    ensures Relocate(Relocate(ms, from, to), to, from).drawn == ms.drawn
    ensures multiset(Relocate(Relocate(ms, from, to), to, from).points) == multiset(ms.points)
  {
    var ms1 := Relocate(ms, from, to);
    RelocateCounts(ms, from, to);
    RelocateCounts(ms1, to, from);
  }

  lemma {:induction false} RetargetBack(l: Label, kind: MarkerKind, from: int, to: int)
    requires EndAt(l, kind) == from
    ensures Retarget(Retarget(l, kind, to), kind, from) == l
  {
  }

  /** Renaming the selected label and renaming it back restores the list when the renamed form was new. */
  lemma {:induction false} UpdateSelectedLabelBack(labels: seq<Label>, sel: Label, kind: MarkerKind, from: int, to: int)
    requires sel in labels && EndAt(sel, kind) == from && Retarget(sel, kind, to) !in labels
    ensures var (ls, u) := UpdateSelectedLabel(labels, sel, kind, to);
      UpdateSelectedLabel(ls, u, kind, from) == (labels, sel)
  {
    var i := IndexOf(labels, sel);
    var u := Retarget(sel, kind, to);
    var ls := labels[i := u];
    assert ls[i] == u;
    forall j | 0 <= j < i
      ensures ls[j] != u
    {
      assert ls[j] == labels[j];
    }
    assert IndexOf(ls, u) == i;
    RetargetBack(sel, kind, from, to);
    assert ls[i := sel] == labels;
  }

  /** Consistent bookkeeping: the listed chunks are distinct and are exactly the drawn ones. */
  ghost predicate Consistent(ms: MarkerSet) {
    Distinct(ms.points) && forall c :: c in ms.drawn <==> c in ms.points
  }

  /** Moving a drawn marker to a free chunk keeps the bookkeeping consistent. */
  lemma {:induction false} RelocateConsistent(ms: MarkerSet, from: int, to: int)
    requires Consistent(ms) && from in ms.drawn && to !in ms.drawn
    ensures Consistent(Relocate(ms, from, to))
  {
    var r := Relocate(ms, from, to);
    RelocateCounts(ms, from, to);
    assert multiset(ms.points)[to] == 0;
    assert multiset(ms.points)[from] == 1;
    forall c
      ensures c in r.drawn <==> c in r.points
    {
      assert c in r.points <==> multiset(r.points)[c] > 0;
      assert c in ms.points <==> multiset(ms.points)[c] > 0;
    }
  }

  // ---------------------------------------------------------------------------
  // getLabels
  // ---------------------------------------------------------------------------

  /** A paired start and end marker, with the member of the saved label they match if any. */
  datatype Pairing = Pairing(member: Option<Member>, start: int, end: int)

  function Id(x: int): int {
    x
  }

  /** The first end index from `i` on that is unused and lies strictly after `s`. */
  function FreeEndFrom(ends: seq<int>, used: set<nat>, s: int, i: nat): (r: Option<nat>)
    requires i <= |ends|
    ensures r.Some? ==> i <= r.value < |ends| && r.value !in used && ends[r.value] > s
    ensures forall j :: i <= j < |ends| && (r.None? || j < r.value) ==> j in used || ends[j] <= s
    decreases |ends| - i
  {
    if i == |ends| then None
    else if i !in used && ends[i] > s then Some(i)
    else FreeEndFrom(ends, used, s, i + 1)
  }

  /**
    The matched-label loop of getLabels: the member of the first label
    spanning exactly `start..end`, or None when there is none or its member
    is falsy (the empty string).
   */
  function MemberOf(labels: seq<Label>, start: int, end: int): (r: Option<Member>)
    ensures r.Some? ==> r.value != "" && Label(r.value, start, end) in labels
    ensures (forall i :: 0 <= i < |labels| ==> !Spans(labels[i], start, end)) ==> r.None?
    ensures forall i :: FirstSpanning(labels, start, end, i) ==>
      r == (if labels[i].member != "" then Some(labels[i].member) else None)
    decreases |labels|
  {
    if labels == [] then None
    else if Spans(labels[0], start, end) then
      (if labels[0].member != "" then Some(labels[0].member) else None)
    else
      var r := MemberOf(labels[1..], start, end);
      assert forall i :: FirstSpanning(labels, start, end, i) ==> FirstSpanning(labels[1..], start, end, i - 1) by {
        forall i | FirstSpanning(labels, start, end, i)
          ensures FirstSpanning(labels[1..], start, end, i - 1)
        {
          assert i > 0;
          forall j | 0 <= j < i - 1
            ensures !Spans(labels[1..][j], start, end)
          {
            assert labels[1..][j] == labels[j + 1];
          }
        }
      }
      assert (forall i :: 0 <= i < |labels| ==> !Spans(labels[i], start, end)) ==>
        (forall i :: 0 <= i < |labels[1..]| ==> !Spans(labels[1..][i], start, end)) by {
        if forall i :: 0 <= i < |labels| ==> !Spans(labels[i], start, end) {
          forall i | 0 <= i < |labels[1..]|
            ensures !Spans(labels[1..][i], start, end)
          {
            assert labels[1..][i] == labels[i + 1];
          }
        }
      }
      r
  }

  /** The label covers exactly `start..end`. */
  predicate Spans(l: Label, start: int, end: int) {
    l.start == start && l.end == end
  }

  /** Label `i` is the first in list order that covers exactly `start..end`. */
  predicate FirstSpanning(labels: seq<Label>, start: int, end: int, i: int) {
    && 0 <= i < |labels| && Spans(labels[i], start, end)
    && forall j :: 0 <= j < i ==> !Spans(labels[j], start, end)
  }

  /**
    The start loop of getLabels over the sorted starts: each start takes the
    first free end after it, recorded as (start, end index); a start with
    no free end is dropped.
   */
  function Picks(starts: seq<int>, ends: seq<int>, used: set<nat>): (r: seq<(int, nat)>)
    ensures |r| <= |starts|
    ensures forall k :: 0 <= k < |r| ==>
      r[k].1 < |ends| && r[k].1 !in used && r[k].0 < ends[r[k].1]
    ensures forall k, l :: 0 <= k < l < |r| ==> r[k].1 != r[l].1
    decreases |starts|
  {
    if starts == [] then []
    else
      match FreeEndFrom(ends, used, starts[0], 0)
      case None => Picks(starts[1..], ends, used)
      case Some(i) => [(starts[0], i)] + Picks(starts[1..], ends, used + {i})
  }

  /** The end indices a run of picks has used up. */
  function PickedEnds(ps: seq<(int, nat)>): set<nat> {
    if ps == [] then {} else {ps[0].1} + PickedEnds(ps[1..])
  }

  /**
    The start loop over `a + b` is the loop over `a` followed by the loop
    over `b` with the ends `a` used up marked as used.
   */
  lemma {:induction false} PicksSplit(a: seq<int>, b: seq<int>, ends: seq<int>, used: set<nat>)
    ensures var pa := Picks(a, ends, used);
      Picks(a + b, ends, used) == pa + Picks(b, ends, used + PickedEnds(pa))
    decreases |a|, 1
  {
    if a == [] {
      assert a + b == b;
      assert Picks(a, ends, used) == [];
      assert used + PickedEnds([]) == used;
    } else {
      var ab := a + b;
      assert ab[0] == a[0] && ab[1..] == a[1..] + b;
      match FreeEndFrom(ends, used, a[0], 0)
      case None =>
        assert Picks(ab, ends, used) == Picks(a[1..] + b, ends, used);
        assert Picks(a, ends, used) == Picks(a[1..], ends, used);
        PicksSplit(a[1..], b, ends, used);
      case Some(i) =>
        PicksSplitTaken(a, b, ends, used, i);
    }
  }

  /** PicksSplit when the first start of `a` takes end `i`. */
  lemma {:induction false} PicksSplitTaken(a: seq<int>, b: seq<int>, ends: seq<int>, used: set<nat>, i: nat)
    requires a != [] && FreeEndFrom(ends, used, a[0], 0) == Some(i)
    ensures var pa := Picks(a, ends, used);
      Picks(a + b, ends, used) == pa + Picks(b, ends, used + PickedEnds(pa))
    decreases |a|, 0
  {
    var pa, rest := Picks(a, ends, used), Picks(a[1..], ends, used + {i});
    var tail := Picks(b, ends, used + {i} + PickedEnds(rest));
    assert pa == [(a[0], i)] + rest by {
      PicksTaken(a, ends, used, i);
    }
    assert Picks(a + b, ends, used) == [(a[0], i)] + Picks(a[1..] + b, ends, used + {i}) by {
      PicksTaken(a + b, ends, used, i);
      assert (a + b)[1..] == a[1..] + b;
    }
    assert Picks(a[1..] + b, ends, used + {i}) == rest + tail by {
      PicksSplit(a[1..], b, ends, used + {i});
    }
    assert used + {i} + PickedEnds(rest) == used + PickedEnds(pa) by {
      PickedEndsCons((a[0], i), rest);
    }
    assert [(a[0], i)] + (rest + tail) == pa + tail;
  }

  /** A start that finds free end `i` takes it, and the loop goes on with `i` used. */
  lemma {:induction false} PicksTaken(starts: seq<int>, ends: seq<int>, used: set<nat>, i: nat)
    requires starts != [] && FreeEndFrom(ends, used, starts[0], 0) == Some(i)
    ensures Picks(starts, ends, used) == [(starts[0], i)] + Picks(starts[1..], ends, used + {i})
  {
  }

  lemma {:induction false} PickedEndsCons(p: (int, nat), ps: seq<(int, nat)>)
    ensures PickedEnds([p] + ps) == {p.1} + PickedEnds(ps)
  {
    assert ([p] + ps)[1..] == ps;
  }

  /**
    The start loop's decision for the start at position `i`: with the ends
    that the earlier starts used up marked as used, it takes the first free
    end after it, and it is dropped exactly when there is none.
   */
  lemma {:induction false} PicksAt(starts: seq<int>, ends: seq<int>, used: set<nat>, i: nat)
    requires i < |starts|
    ensures var before := Picks(starts[..i], ends, used);
      var f := FreeEndFrom(ends, used + PickedEnds(before), starts[i], 0);
      && (f.None? ==> Picks(starts[..i + 1], ends, used) == before)
      && (f.Some? ==> Picks(starts[..i + 1], ends, used) == before + [(starts[i], f.value)])
      && Picks(starts[..i + 1], ends, used) <= Picks(starts, ends, used)
  {
    var before := Picks(starts[..i], ends, used);
    var u := used + PickedEnds(before);
    assert starts[..i + 1] == starts[..i] + [starts[i]];
    PicksSplit(starts[..i], [starts[i]], ends, used);
    assert [starts[i]][1..] == [];
    assert Picks([starts[i]], ends, u) ==
      match FreeEndFrom(ends, u, starts[i], 0)
      case None => Picks([], ends, u)
      case Some(j) => [(starts[i], j)] + Picks([], ends, u + {j});
    assert starts == starts[..i + 1] + starts[i + 1..];
    PicksSplit(starts[..i + 1], starts[i + 1..], ends, used);
  }

  /** The end indices the start loop picks, over the sorted marker lists. */
  function EndPicks(startPoints: seq<int>, endPoints: seq<int>): seq<(int, nat)> {
    Picks(SortBy(startPoints, Id), SortBy(endPoints, Id), {})
  }

  /** Each pick becomes a pairing, its member looked up among the saved labels. */
  function Pairings(ps: seq<(int, nat)>, ends: seq<int>, labels: seq<Label>): (r: seq<Pairing>)
    requires forall k :: 0 <= k < |ps| ==> ps[k].1 < |ends|
    ensures |r| == |ps|
    ensures forall k :: 0 <= k < |r| ==>
      r[k] == Pairing(MemberOf(labels, ps[k].0, ends[ps[k].1]), ps[k].0, ends[ps[k].1])
  {
    if ps == [] then []
    else [Pairing(MemberOf(labels, ps[0].0, ends[ps[0].1]), ps[0].0, ends[ps[0].1])] + Pairings(ps[1..], ends, labels)
  }

  /**
    getLabels: each start (in ascending order) paired with the first unused
    end after it, each start strictly before its end, with the member looked
    up among the saved labels.
   */
  function GetLabels(startPoints: seq<int>, endPoints: seq<int>, labels: seq<Label>): (r: seq<Pairing>)
    ensures |r| == |EndPicks(startPoints, endPoints)| <= |startPoints|
    ensures forall k :: 0 <= k < |r| ==>
      && r[k].start < r[k].end
      && r[k].start == EndPicks(startPoints, endPoints)[k].0
      && r[k].end == SortBy(endPoints, Id)[EndPicks(startPoints, endPoints)[k].1]
      && r[k].member == MemberOf(labels, r[k].start, r[k].end)
  {
    SortByPermutes(startPoints, Id);
    Pairings(EndPicks(startPoints, endPoints), SortBy(endPoints, Id), labels)
  }

  /** Every paired start and end is one of the markers. */
  predicate FromMarkers(r: seq<Pairing>, startPoints: seq<int>, endPoints: seq<int>) {
    forall k :: 0 <= k < |r| ==> r[k].start in startPoints && r[k].end in endPoints
  }

  /** Pairings in ascending order of start. */
  predicate Ascending(r: seq<Pairing>) {
    forall k, l :: 0 <= k < l < |r| ==> r[k].start <= r[l].start
  }

  /** Picks in ascending order of start. */
  predicate PicksAscending(ps: seq<(int, nat)>) {
    forall k, l :: 0 <= k < l < |ps| ==> ps[k].0 <= ps[l].0
  }

  /** getLabels pairs only the markers it is given: every start and end comes from the marker lists. */
  lemma {:induction false} GetLabelsFromMarkers(startPoints: seq<int>, endPoints: seq<int>, labels: seq<Label>)
    ensures FromMarkers(GetLabels(startPoints, endPoints, labels), startPoints, endPoints)
  {
    var r := GetLabels(startPoints, endPoints, labels);
    var starts, ends := SortBy(startPoints, Id), SortBy(endPoints, Id);
    var ps := EndPicks(startPoints, endPoints);
    SortByPermutes(startPoints, Id);
    SortByPermutes(endPoints, Id);
    PicksFromStarts(starts, ends, {});
    forall k | 0 <= k < |r|
      ensures r[k].start in startPoints && r[k].end in endPoints
    {
      assert r[k].start == ps[k].0 && ps[k].0 in starts;
      assert r[k].start in multiset(startPoints);
      assert r[k].end == ends[ps[k].1];
      assert ends[ps[k].1] in multiset(ends);
    }
  }

  /** getLabels lists its pairs in ascending order of start. */
  lemma {:induction false} GetLabelsOrdered(startPoints: seq<int>, endPoints: seq<int>, labels: seq<Label>)
    ensures Ascending(GetLabels(startPoints, endPoints, labels))
  {
    SortByPermutes(startPoints, Id);
    PicksSorted(SortBy(startPoints, Id), SortBy(endPoints, Id), {});
  }

  /** Over sorted starts the picks come out in ascending start order. */
  lemma {:induction false} PicksSorted(starts: seq<int>, ends: seq<int>, used: set<nat>)
    requires SortedBy(starts, Id)
    ensures PicksAscending(Picks(starts, ends, used))
    decreases |starts|
  {
    if starts != [] {
      var tail := starts[1..];
      assert SortedBy(tail, Id) by {
        forall i, j | 0 <= i < j < |tail|
          ensures Id(tail[i]) <= Id(tail[j])
        {
          assert tail[i] == starts[i + 1] && tail[j] == starts[j + 1];
        }
      }
      match FreeEndFrom(ends, used, starts[0], 0)
      case None =>
        PicksSorted(tail, ends, used);
        assert Picks(starts, ends, used) == Picks(tail, ends, used);
      case Some(i) =>
        PicksSorted(tail, ends, used + {i});
        forall m | 0 <= m < |tail|
          ensures starts[0] <= tail[m]
        {
          assert Id(starts[0]) <= Id(starts[m + 1]);
        }
        PicksAbove(tail, ends, used + {i}, starts[0]);
        var rest := Picks(tail, ends, used + {i});
        var r := Picks(starts, ends, used);
        assert r == [(starts[0], i)] + rest;
        forall k, l | 0 <= k < l < |r|
          ensures r[k].0 <= r[l].0
        {
          assert r[l] == rest[l - 1];
          if k > 0 {
            assert r[k] == rest[k - 1];
          }
        }
    }
  }

  /** Picks never invent a start: every picked start is one of the starts. */
  lemma {:induction false} PicksFromStarts(starts: seq<int>, ends: seq<int>, used: set<nat>)
    ensures forall k :: 0 <= k < |Picks(starts, ends, used)| ==> Picks(starts, ends, used)[k].0 in starts
    decreases |starts|
  {
    if starts != [] {
      var tail := starts[1..];
      match FreeEndFrom(ends, used, starts[0], 0)
      case None =>
        PicksFromStarts(tail, ends, used);
        assert Picks(starts, ends, used) == Picks(tail, ends, used);
      case Some(i) =>
        PicksFromStarts(tail, ends, used + {i});
        var rest := Picks(tail, ends, used + {i});
        var r := Picks(starts, ends, used);
        assert r == [(starts[0], i)] + rest;
        forall k | 0 < k < |r|
          ensures r[k].0 in starts
        {
          assert r[k] == rest[k - 1];
          var m :| 0 <= m < |tail| && tail[m] == rest[k - 1].0;
          assert starts[m + 1] == tail[m];
        }
    }
  }

  /** A lower bound on the starts bounds the picked ones. */
  lemma {:induction false} PicksAbove(starts: seq<int>, ends: seq<int>, used: set<nat>, b: int)
    requires forall i :: 0 <= i < |starts| ==> b <= starts[i]
    ensures forall k :: 0 <= k < |Picks(starts, ends, used)| ==> b <= Picks(starts, ends, used)[k].0
  {
    var r := Picks(starts, ends, used);
    PicksFromStarts(starts, ends, used);
    forall k | 0 <= k < |r|
      ensures b <= r[k].0
    {
      var m :| 0 <= m < |starts| && starts[m] == r[k].0;
    }
  }

  /** Each label ends before every later label starts, starts before it ends, and names a member. */
  predicate Separated(labels: seq<Label>) {
    && (forall k :: 0 <= k < |labels| ==> labels[k].start < labels[k].end && labels[k].member != "")
    && (forall j, k :: 0 <= j < k < |labels| ==> labels[j].end < labels[k].start)
  }

  function Starts(labels: seq<Label>): (r: seq<int>)
    ensures |r| == |labels| && forall k :: 0 <= k < |labels| ==> r[k] == labels[k].start
  {
    seq(|labels|, k requires 0 <= k < |labels| => labels[k].start)
  }

  function Ends(labels: seq<Label>): (r: seq<int>)
    ensures |r| == |labels| && forall k :: 0 <= k < |labels| ==> r[k] == labels[k].end
  {
    seq(|labels|, k requires 0 <= k < |labels| => labels[k].end)
  }

  /**
    The markers of well-separated labels pair back into exactly those
    labels: getLabels recovers every (member, start, end) triple in order.
   */
  lemma {:induction false} GetLabelsRecoversLabels(labels: seq<Label>)
    requires Separated(labels)
    ensures var r := GetLabels(Starts(labels), Ends(labels), labels);
      && |r| == |labels|
      && forall k :: 0 <= k < |labels| ==> r[k] == Pairing(Some(labels[k].member), labels[k].start, labels[k].end)
  {
    var starts, ends := Starts(labels), Ends(labels);
    SortedStartsEnds(labels);
    SortBySorted(starts, Id);
    SortBySorted(ends, Id);
    PicksSeparated(labels, 0);
    assert starts[0..] == starts;
    var r := GetLabels(starts, ends, labels);
    forall k | 0 <= k < |labels|
      ensures r[k] == Pairing(Some(labels[k].member), labels[k].start, labels[k].end)
    {
      MemberOfSeparated(labels, k);
    }
  }

  lemma {:induction false} SortedStartsEnds(labels: seq<Label>)
    requires Separated(labels)
    ensures SortedBy(Starts(labels), Id) && SortedBy(Ends(labels), Id)
  {
    var starts, ends := Starts(labels), Ends(labels);
    forall i, j | 0 <= i < j < |labels|
      ensures Id(starts[i]) <= Id(starts[j]) && Id(ends[i]) <= Id(ends[j])
    {
      assert labels[i].end < labels[j].start;
    }
  }

  /** The end indices below `k`. */
  function Below(k: nat): (u: set<nat>)
    ensures forall j: nat :: j in u <==> j < k
  {
    if k == 0 then {} else Below(k - 1) + {k - 1}
  }

  /** Every label from `k` on, paired with its own index. */
  function OwnPicks(labels: seq<Label>, k: nat): (r: seq<(int, nat)>)
    requires k <= |labels|
    ensures |r| == |labels| - k
    ensures forall i :: 0 <= i < |r| ==> r[i] == (labels[k + i].start, k + i)
    decreases |labels| - k
  {
    if k == |labels| then [] else [(labels[k].start, k)] + OwnPicks(labels, k + 1)
  }

  /** From label `k` on, every start picks its own label's end. */
  lemma {:induction false} PicksSeparated(labels: seq<Label>, k: nat)
    requires Separated(labels) && k <= |labels|
    ensures Picks(Starts(labels)[k..], Ends(labels), Below(k)) == OwnPicks(labels, k)
    decreases |labels| - k
  {
    var starts, ends := Starts(labels), Ends(labels);
    if k < |labels| {
      FreeEndSeparated(labels, k, 0);
      assert starts[k..][0] == labels[k].start;
      assert starts[k..][1..] == starts[k + 1..];
      assert Below(k) + {k} == Below(k + 1);
      PicksSeparated(labels, k + 1);
    }
  }

  /** Scanning from `i <= k`, the first free end after label `k`'s start is label `k`'s end. */
  lemma {:induction false} FreeEndSeparated(labels: seq<Label>, k: nat, i: nat)
    requires Separated(labels) && i <= k < |labels|
    ensures FreeEndFrom(Ends(labels), Below(k), labels[k].start, i) == Some(k)
    decreases k - i
  {
    if i < k {
      FreeEndSeparated(labels, k, i + 1);
    }
  }

  /** In well-separated labels, label `k` is the first spanning its own start and end. */
  lemma {:induction false} MemberOfSeparated(labels: seq<Label>, k: nat)
    requires Separated(labels) && k < |labels|
    ensures MemberOf(labels, labels[k].start, labels[k].end) == Some(labels[k].member)
    decreases k
  {
    if k > 0 {
      assert labels[0].end < labels[k].start;
      var tail := labels[1..];
      assert Separated(tail) by {
        forall j, l | 0 <= j < l < |tail|
          ensures tail[j].end < tail[l].start
        {
          assert tail[j] == labels[j + 1] && tail[l] == labels[l + 1];
        }
      }
      assert tail[k - 1] == labels[k];
      MemberOfSeparated(tail, k - 1);
    }
  }
}
