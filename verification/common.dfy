/**
  Shared vocabulary of the line-distribution model: the error outcomes a Python
  statement can raise, Python's list-index rule, and the chunk clock.
 */
module Common {

  /** Python exceptions that the modelled code can raise. */
  datatype Error = IndexError | KeyError | ValueError

  datatype Option<+T> = None | Some(value: T)

  /** The outcome of a computation that may raise. */
  datatype Result<+T> = Ok(value: T) | Err(error: Error) {
    predicate IsFailure() { Err? }

    function PropagateFailure<U>(): Result<U>
      requires Err?
    {
      Err(error)
    }

    function Extract(): T
      requires Ok?
    {
      value
    }
  }

  /** A member of the group is identified by its name. */
  type Member = string

  /** Length of one timeline chunk in milliseconds (audio_tester.py:67). */
  const ChunkDurationMs: int := 40

  /**
    Python's reading of index `i` into a list of length `n`: negative indices
    count from the end, anything outside `[-n, n)` raises IndexError.
   */
  function PyIndex(i: int, n: nat): (r: Option<nat>)
    ensures r.Some? <==> -(n as int) <= i < n
    ensures r.Some? ==> r.value < n && (if i < 0 then r.value == i + n else r.value == i)
  {
    if 0 <= i < n then Some(i)
    else if -(n as int) <= i < 0 then Some(i + n)
    else None
  }

  /**
    Number of 40 ms chunks the song of `durationMs` milliseconds is cut into:
    one chunk per start offset 0, 40, 80, ... below the duration, the last one
    possibly short.
   */
  function ChunkCount(durationMs: nat): (n: nat)
    ensures durationMs == 0 ==> n == 0
    ensures durationMs > 0 ==> (n - 1) * ChunkDurationMs < durationMs <= n * ChunkDurationMs
  {
    (durationMs + ChunkDurationMs - 1) / ChunkDurationMs
  }

  /**
    Python's `list.remove(x)` once `x` is known to be present: drop the first
    element equal to `x`.
   */
  function RemoveFirst<T(==)>(s: seq<T>, x: T): (r: seq<T>)
    ensures x !in s ==> r == s
  {
    if s == [] then []
    else if s[0] == x then s[1..]
    else [s[0]] + RemoveFirst(s[1..], x)
  }

  /** Removing an element present takes exactly one copy of it out. */
  lemma {:induction false} RemoveFirstCount<T>(s: seq<T>, x: T)
    requires x in s
    ensures multiset(RemoveFirst(s, x)) == multiset(s) - multiset{x}
  {
    assert s == [s[0]] + s[1..];
    if s[0] != x {
      RemoveFirstCount(s[1..], x);
    }
  }

  /** The element removed is the first occurrence: everything before it stays. */
  lemma {:induction false} RemoveFirstSkips<T>(p: seq<T>, q: seq<T>, x: T)
    requires x !in p
    ensures RemoveFirst(p + [x] + q, x) == p + q
  {
    if p == [] {
      assert p + [x] + q == [x] + q;
      assert ([x] + q)[1..] == q;
    } else {
      ConsSplit(p, q, x);
      RemoveFirstSkips(p[1..], q, x);
    }
  }

  /** How `p + [x] + q` and `p + q` split at the head of a non-empty `p`. */
  lemma ConsSplit<T>(p: seq<T>, q: seq<T>, x: T)
    requires p != []
    ensures (p + [x] + q)[0] == p[0]
    ensures (p + [x] + q)[1..] == p[1..] + [x] + q
    ensures p + q == [p[0]] + (p[1..] + q)
  {
    assert p == [p[0]] + p[1..];
  }

  /** No element occurs twice. */
  ghost predicate Distinct<T(!new)>(s: seq<T>) {
    forall x :: multiset(s)[x] <= 1
  }

  /** Two positions holding the same element make it occur twice. */
  lemma {:induction false} DuplicateCount<T>(s: seq<T>, i: nat, j: nat)
    requires i < j < |s|
    ensures s[i] == s[j] ==> multiset(s)[s[i]] >= 2
  {
    assert s == s[..j] + s[j..];
    assert s[..j][i] == s[i];
    assert s[j..][0] == s[j];
    assert multiset(s)[s[i]] == multiset(s[..j])[s[i]] + multiset(s[j..])[s[i]];
  }

  /** In a sequence without repeats, different positions hold different elements. */
  lemma {:induction false} DistinctAt<T(!new)>(s: seq<T>, i: nat, j: nat)
    requires Distinct(s) && i < |s| && j < |s| && i != j
    ensures s[i] != s[j]
  {
    if i < j {
      DuplicateCount(s, i, j);
    } else {
      DuplicateCount(s, j, i);
    }
    assert multiset(s)[s[i]] <= 1;
  }

  /** Python's `list.index(x)` once `x` is known to be present: its first position. */
  function IndexOf<T(==)>(s: seq<T>, x: T): (i: nat)
    requires x in s
    ensures i < |s| && s[i] == x
    ensures forall j :: 0 <= j < i ==> s[j] != x
  {
    if s[0] == x then 0 else 1 + IndexOf(s[1..], x)
  }
}
