/**
  RLSSingerRecogAgent: a score counter and the list of singers it may guess.
  The guess itself is a random choice and is not part of the model.
 */
module Agent {
  import opened Common

  /** `points` is the running score, `actions` the singers in the order they were added. */
  datatype Agent = Agent(points: int, actions: seq<Member>)

  /** A fresh agent: no points and no singers. */
  function New(): (a: Agent)
    ensures a.points == 0 && a.actions == []
  {
    Agent(0, [])
  }

  /** addSinger: append `singer` unless it is already listed. */
  function AddSinger(a: Agent, singer: Member): (r: Agent)
    ensures r.points == a.points
    ensures singer in a.actions ==> r == a
    ensures singer !in a.actions ==> r.actions == a.actions + [singer]
    ensures forall x :: x in r.actions <==> x in a.actions || x == singer
  {
    if singer in a.actions then a else a.(actions := a.actions + [singer])
  }

  /** reward: one point up for a correct guess, one down for a wrong one. */
  function Reward(a: Agent, correct: bool): (r: Agent)
    ensures r.actions == a.actions
    ensures r.points == a.points + (if correct then 1 else -1)
  {
    if correct then a.(points := a.points + 1) else a.(points := a.points - 1)
  }

  /** getPoints. */
  function GetPoints(a: Agent): (p: int)
    ensures p == a.points
  {
    a.points
  }

  /** The reward calls `rs`, applied in order. */
  function RewardAll(a: Agent, rs: seq<bool>): Agent
    decreases |rs|
  {
    if rs == [] then a else RewardAll(Reward(a, rs[0]), rs[1..])
  }

  /** Number of `b` entries in `rs`. */
  function CountOf(rs: seq<bool>, b: bool): (k: nat)
    ensures k <= |rs|
  {
    if rs == [] then 0 else (if rs[0] == b then 1 else 0) + CountOf(rs[1..], b)
  }

  /**
    After any run of reward calls on a fresh agent, getPoints is the number of
    correct guesses minus the number of wrong ones, and no singer was added.
   */
  lemma {:induction false} PointsCountGuesses(rs: seq<bool>)
    ensures GetPoints(RewardAll(New(), rs)) == CountOf(rs, true) - CountOf(rs, false)
    ensures RewardAll(New(), rs).actions == []
  {
    RewardAllShifts(New(), rs);
  }

  lemma {:induction false} RewardAllShifts(a: Agent, rs: seq<bool>)
    ensures RewardAll(a, rs).points == a.points + CountOf(rs, true) - CountOf(rs, false)
    ensures RewardAll(a, rs).actions == a.actions
    decreases |rs|
  {
    if rs != [] {
      RewardAllShifts(Reward(a, rs[0]), rs[1..]);
    }
  }

  /** The singers `ss`, added in order. */
  function AddAll(a: Agent, ss: seq<Member>): Agent
    decreases |ss|
  {
    if ss == [] then a else AddAll(AddSinger(a, ss[0]), ss[1..])
  }

  /** Whatever singers are added, the list never holds a singer twice. */
  lemma {:induction false} AddAllDistinct(a: Agent, ss: seq<Member>)
    requires Distinct(a.actions)
    ensures Distinct(AddAll(a, ss).actions)
    decreases |ss|
  {
    if ss != [] {
      AddSingerDistinct(a, ss[0]);
      AddAllDistinct(AddSinger(a, ss[0]), ss[1..]);
    }
  }

  /** Adding singers keeps the existing list in front, in its order. */
  lemma {:induction false} AddAllKeepsOrder(a: Agent, ss: seq<Member>)
    ensures |AddAll(a, ss).actions| >= |a.actions|
    ensures AddAll(a, ss).actions[..|a.actions|] == a.actions
    decreases |ss|
  {
    if ss != [] {
      var a1 := AddSinger(a, ss[0]);
      AddAllKeepsOrder(a1, ss[1..]);
      var r := AddAll(a1, ss[1..]).actions;
      assert r[..|a1.actions|][..|a.actions|] == r[..|a.actions|];
    }
  }

  /** After adding `ss`, the listed singers are the old ones and those of `ss`. */
  lemma {:induction false} AddAllMembers(a: Agent, ss: seq<Member>, x: Member)
    ensures x in AddAll(a, ss).actions <==> x in a.actions || x in ss
    decreases |ss|
  {
    if ss != [] {
      AddAllMembers(AddSinger(a, ss[0]), ss[1..], x);
      assert x in ss <==> x == ss[0] || x in ss[1..] by {
        assert ss == [ss[0]] + ss[1..];
      }
    }
  }

  lemma {:induction false} AddSingerDistinct(a: Agent, singer: Member)
    requires Distinct(a.actions)
    ensures Distinct(AddSinger(a, singer).actions)
  {
    if singer !in a.actions {
      var r := AddSinger(a, singer).actions;
      assert multiset(r) == multiset(a.actions) + multiset{singer};
      forall x
        ensures multiset(r)[x] <= 1
      {
        if x == singer {
          assert multiset(a.actions)[x] == 0;
        }
      }
    }
  }

  /** addSinger is idempotent. */
  lemma {:induction false} AddSingerIdempotent(a: Agent, singer: Member)
    ensures AddSinger(AddSinger(a, singer), singer) == AddSinger(a, singer)
  {
  }
}
