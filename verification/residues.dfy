/**
  audio_processing: the 0/1 voice-activity array built from frame energies,
  the detector for isolated runs of ones ("music residues") and the zeroing
  of the runs the user confirms. Frame energies and the threshold are given
  reals; the confirmation dialog is a parameter holding one answer per
  residue.
 */
module Residues {
  import opened Common

  /** One residue as the detector reports it: `(start, end)`. */
  datatype Residue = Residue(start: int, end: int)

  /** Default run length of `findMusicResidues`. */
  const DefaultThreshold: nat := 5

  /** The thresholding loop of processAudioFile: 1 exactly where the energy exceeds the threshold. */
  method Binarize(energies: seq<real>, threshold: real) returns (bits: seq<int>)
    ensures |bits| == |energies|
    ensures forall i :: 0 <= i < |bits| ==> (bits[i] == 1 <==> energies[i] > threshold)
    ensures forall i :: 0 <= i < |bits| ==> bits[i] == 0 || bits[i] == 1
  {
    bits := [];
    var k := 0;
    while k < |energies|
      invariant 0 <= k <= |energies| && |bits| == k
      invariant forall i :: 0 <= i < k ==> (bits[i] == 1 <==> energies[i] > threshold)
      invariant forall i :: 0 <= i < k ==> bits[i] == 0 || bits[i] == 1
    {
      bits := bits + [if energies[k] > threshold then 1 else 0];
      k := k + 1;
    }
  }

  /**
    Start `i` begins a residue: `a[i - 1]` is 0, the `t` frames from `i` are
    all 1 and the frame right after them is 0, so the run has exactly `t` ones.
   */
  predicate IsResidueAt(a: seq<int>, t: nat, i: int)
    requires 1 <= i && i + t < |a|
  {
    && (forall k :: i <= k < i + t ==> a[k] == 1)
    && a[i - 1] == 0
    && a[i + t] == 0
  }

  /** The largest start the loop `range(1, len(a) - t - 1)` visits. */
  function LastStart(a: seq<int>, t: nat): int {
    |a| - t - 2
  }

  /** The loop from start `i` on: every visited start that begins a residue. */
  function StartsFrom(a: seq<int>, t: nat, i: nat): seq<int>
    requires i >= 1
    decreases |a| - i
  {
    if i > LastStart(a, t) then []
    else (if IsResidueAt(a, t, i) then [i] else []) + StartsFrom(a, t, i + 1)
  }

  /**
    The reported starts are exactly the visited starts that begin a residue,
    in strictly increasing order.
   */
  lemma {:induction false} StartsFromSpec(a: seq<int>, t: nat, i: nat)
    requires i >= 1
    ensures forall x :: x in StartsFrom(a, t, i) <==> i <= x <= LastStart(a, t) && IsResidueAt(a, t, x)
    ensures forall p, q :: 0 <= p < q < |StartsFrom(a, t, i)| ==> StartsFrom(a, t, i)[p] < StartsFrom(a, t, i)[q]
    ensures forall p :: 0 <= p < |StartsFrom(a, t, i)| ==> i <= StartsFrom(a, t, i)[p]
    decreases |a| - i
  {
    StartsFromMembers(a, t, i);
    StartsFromOrdered(a, t, i);
  }

  /** Membership half of StartsFromSpec. */
  lemma {:induction false} StartsFromMembers(a: seq<int>, t: nat, i: nat)
    requires i >= 1
    ensures forall x :: x in StartsFrom(a, t, i) <==> i <= x <= LastStart(a, t) && IsResidueAt(a, t, x)
    decreases |a| - i
  {
    if i <= LastStart(a, t) {
      StartsFromMembers(a, t, i + 1);
      var head: seq<int> := if IsResidueAt(a, t, i) then [i] else [];
      var rest := StartsFrom(a, t, i + 1);
      var s := StartsFrom(a, t, i);
      assert s == head + rest;
      forall x
        ensures x in s <==> i <= x <= LastStart(a, t) && IsResidueAt(a, t, x)
      {
        assert x in s <==> x in head || x in rest;
      }
    }
  }

  /** Ordering half of StartsFromSpec: increasing, and none below `i`. */
  lemma {:induction false} StartsFromOrdered(a: seq<int>, t: nat, i: nat)
    requires i >= 1
    ensures forall p, q :: 0 <= p < q < |StartsFrom(a, t, i)| ==> StartsFrom(a, t, i)[p] < StartsFrom(a, t, i)[q]
    ensures forall p :: 0 <= p < |StartsFrom(a, t, i)| ==> i <= StartsFrom(a, t, i)[p]
    decreases |a| - i
  {
    if i <= LastStart(a, t) {
      StartsFromOrdered(a, t, i + 1);
      var head: seq<int> := if IsResidueAt(a, t, i) then [i] else [];
      var rest := StartsFrom(a, t, i + 1);
      var s := StartsFrom(a, t, i);
      assert s == head + rest;
      forall p | 0 <= p < |s|
        ensures i <= s[p] && (p >= |head| ==> s[p] == rest[p - |head|] && i < s[p])
      {
        if p >= |head| {
          assert s[p] == rest[p - |head|];
        }
      }
    }
  }

  /** findMusicResidues as written: each start `i` is reported as `(i, i + t + i)`. */
  function FindMusicResiduesAsWritten(a: seq<int>, t: nat): (r: seq<Residue>)
    ensures var s := StartsFrom(a, t, 1);
      |r| == |s| && forall k :: 0 <= k < |r| ==> r[k] == Residue(s[k], s[k] + t + s[k])
  {
    var s := StartsFrom(a, t, 1);
    seq(|s|, k requires 0 <= k < |s| => Residue(s[k], s[k] + t + s[k]))
  }

  /** findMusicResidues with the run's last frame as its end: `(i, i + t - 1)`. */
  function FindMusicResidues(a: seq<int>, t: nat): (r: seq<Residue>)
    ensures var s := StartsFrom(a, t, 1);
      |r| == |s| && forall k :: 0 <= k < |r| ==> r[k] == Residue(s[k], s[k] + t - 1)
  {
    var s := StartsFrom(a, t, 1);
    seq(|s|, k requires 0 <= k < |s| => Residue(s[k], s[k] + t - 1))
  }

  /**
    The corrected detector reports each run of exactly `t` ones between two
    zeros, as the frames it covers, in increasing order of start.
   */
  lemma {:induction false} FindMusicResiduesSpec(a: seq<int>, t: nat)
    ensures var r := FindMusicResidues(a, t);
      && (forall k :: 0 <= k < |r| ==>
            && 1 <= r[k].start && r[k].end == r[k].start + t - 1 && r[k].start + t < |a|
            && (forall j :: r[k].start <= j <= r[k].end ==> a[j] == 1)
            && a[r[k].start - 1] == 0 && a[r[k].end + 1] == 0)
      && (forall i :: 1 <= i <= LastStart(a, t) && IsResidueAt(a, t, i) ==> exists k :: 0 <= k < |r| && r[k].start == i)
      && (forall p, q :: 0 <= p < q < |r| ==> r[p].start < r[q].start)
  {
    StartsFromSpec(a, t, 1);
    var r := FindMusicResidues(a, t);
    var s := StartsFrom(a, t, 1);
    forall k | 0 <= k < |r|
      ensures 1 <= r[k].start && r[k].start + t < |a|
      ensures IsResidueAt(a, t, r[k].start)
    {
      assert s[k] in s;
    }
    forall i | 1 <= i <= LastStart(a, t) && IsResidueAt(a, t, i)
      ensures exists k :: 0 <= k < |r| && r[k].start == i
    {
      assert i in s;
      var k :| 0 <= k < |s| && s[k] == i;
      assert r[k].start == i;
    }
  }

  // ---------------------------------------------------------------------------
  // userResolveResidues: zeroing the confirmed residues
  // ---------------------------------------------------------------------------

  /** `for i in range(lo, hi + 1): a[i] = 0`, each write with Python's index rule. */
  function ZeroRange(a: seq<int>, lo: int, hi: int): (r: Result<seq<int>>)
    ensures r.Ok? ==> |r.value| == |a|
    decreases hi - lo + 1
  {
    if lo > hi then Ok(a)
    else match PyIndex(lo, |a|)
      case None => Err(IndexError)
      case Some(j) => ZeroRange(a[j := 0], lo + 1, hi)
  }

  /** A range inside the array is zeroed and nothing else changes. */
  lemma {:induction false} ZeroRangeInside(a: seq<int>, lo: int, hi: int)
    requires 0 <= lo && hi < |a|
    ensures ZeroRange(a, lo, hi).Ok?
    ensures forall j :: 0 <= j < |a| ==> ZeroRange(a, lo, hi).value[j] == if lo <= j <= hi then 0 else a[j]
    decreases hi - lo + 1
  {
    if lo <= hi {
      ZeroRangeInside(a[lo := 0], lo + 1, hi);
    }
  }

  /** A range that runs from inside the array to past its end raises IndexError. */
  lemma {:induction false} ZeroRangePastEnd(a: seq<int>, lo: int, hi: int)
    requires 0 <= lo <= |a| <= hi
    ensures ZeroRange(a, lo, hi) == Err(IndexError)
    decreases |a| - lo
  {
    if lo < |a| {
      ZeroRangePastEnd(a[lo := 0], lo + 1, hi);
    }
  }

  /** userResolveResidues: zero the residues whose dialog was answered yes, in order. */
  function ResolveResidues(a: seq<int>, residues: seq<Residue>, answers: seq<bool>): (r: Result<seq<int>>)
    requires |answers| == |residues|
    ensures r.Ok? ==> |r.value| == |a|
    decreases |residues|
  {
    if residues == [] then Ok(a)
    else
      var a1 :- if answers[0] then ZeroRange(a, residues[0].start, residues[0].end) else Ok(a);
      ResolveResidues(a1, residues[1..], answers[1..])
  }

  /** Frame `j` lies in some residue the user confirmed. */
  ghost predicate Confirmed(residues: seq<Residue>, answers: seq<bool>, j: int)
    requires |answers| == |residues|
  {
    exists k :: 0 <= k < |residues| && answers[k] && residues[k].start <= j <= residues[k].end
  }

  /**
    When every residue lies inside the array, resolving them succeeds and
    zeroes exactly the frames of the confirmed residues.
   */
  lemma {:induction false} ResolveInside(a: seq<int>, residues: seq<Residue>, answers: seq<bool>)
    requires |answers| == |residues|
    requires forall k :: 0 <= k < |residues| ==> 0 <= residues[k].start && residues[k].end < |a|
    ensures ResolveResidues(a, residues, answers).Ok?
    ensures forall j :: 0 <= j < |a| ==>
      ResolveResidues(a, residues, answers).value[j] == if Confirmed(residues, answers, j) then 0 else a[j]
    decreases |residues|
  {
    if residues != [] {
      var r0 := residues[0];
      if answers[0] {
        ZeroRangeInside(a, r0.start, r0.end);
      }
      var a1 := if answers[0] then ZeroRange(a, r0.start, r0.end).value else a;
      assert forall k :: 0 <= k < |residues[1..]| ==> residues[1..][k] == residues[k + 1];
      ResolveInside(a1, residues[1..], answers[1..]);
      forall j | 0 <= j < |a|
        ensures ResolveResidues(a, residues, answers).value[j] == if Confirmed(residues, answers, j) then 0 else a[j]
      {
        ConfirmedCons(residues, answers, j);
      }
    }
  }

  /** Whether frame `j` is confirmed, split into the first residue and the rest. */
  lemma {:induction false} ConfirmedCons(residues: seq<Residue>, answers: seq<bool>, j: int)
    requires |answers| == |residues| && residues != []
    ensures Confirmed(residues, answers, j) <==>
      (answers[0] && residues[0].start <= j <= residues[0].end) || Confirmed(residues[1..], answers[1..], j)
  {
    if Confirmed(residues[1..], answers[1..], j) {
      var k :| 0 <= k < |residues[1..]| && answers[1..][k] && residues[1..][k].start <= j <= residues[1..][k].end;
      assert residues[k + 1] == residues[1..][k] && answers[k + 1] == answers[1..][k];
    }
    if Confirmed(residues, answers, j) {
      var k :| 0 <= k < |residues| && answers[k] && residues[k].start <= j <= residues[k].end;
      if k > 0 {
        assert residues[1..][k - 1] == residues[k] && answers[1..][k - 1] == answers[k];
      }
    }
  }

  /**
    The corrected pipeline: resolving what FindMusicResidues reports never
    raises, and it zeroes exactly the frames of the confirmed runs of ones.
   */
  lemma {:induction false} ResolveFoundResidues(a: seq<int>, t: nat, answers: seq<bool>)
    requires |answers| == |FindMusicResidues(a, t)|
    ensures var rs := FindMusicResidues(a, t);
      && ResolveResidues(a, rs, answers).Ok?
      && forall j :: 0 <= j < |a| ==>
           ResolveResidues(a, rs, answers).value[j] == if Confirmed(rs, answers, j) then 0 else a[j]
  {
    FindMusicResiduesSpec(a, t);
    ResolveInside(a, FindMusicResidues(a, t), answers);
  }

  /**
    As written, the reported end `2 * i + t` runs past the array: for
    `0 0 0 1 1 1 1 1 0 0 0` the run of five ones at frame 3 is reported as
    `(3, 11)`, and confirming it raises IndexError at frame 11.
   */
  lemma {:induction false} AsWrittenEndOverruns()
    ensures var a := [0, 0, 0, 1, 1, 1, 1, 1, 0, 0, 0];
      && FindMusicResiduesAsWritten(a, DefaultThreshold) == [Residue(3, 11)]
      && ResolveResidues(a, FindMusicResiduesAsWritten(a, DefaultThreshold), [true]) == Err(IndexError)
      && FindMusicResidues(a, DefaultThreshold) == [Residue(3, 7)]
  {
    var a := [0, 0, 0, 1, 1, 1, 1, 1, 0, 0, 0];
    var t := DefaultThreshold;
    assert !IsResidueAt(a, t, 1) && !IsResidueAt(a, t, 2) && !IsResidueAt(a, t, 4);
    assert IsResidueAt(a, t, 3);
    assert StartsFrom(a, t, 5) == [];
    assert StartsFrom(a, t, 1) == [3];
    ZeroRangePastEnd(a, 3, 11);
  }
}
