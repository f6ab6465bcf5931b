/** What a turn does to the simulation goal and to the counters, told from the commands'
    bytes. */
module Goals {
  import opened Bytes
  import opened Lockstep

  // 115 is 's', 32 is the space; 4294967295 is UINT32_MAX.

  predicate SetsGoal(cmd: Bytes) { |cmd| >= 1 && cmd[0] == 115 }

  predicate NoGoal(cmds: Commands) {
    forall i :: 0 <= i < |cmds| ==> !SetsGoal(cmds[i])
  }

  /** The goal that a simulation command sets: without a space the greatest one, and with one
      the number after the first space, as 32 bits. */
  ghost predicate Sets(strtol: Bytes -> int, s: Bytes, goal: int) {
    && ((forall k :: 0 <= k < |s| ==> s[k] != 32) ==> goal == 4294967295)
    && (forall i :: 0 <= i < |s| && s[i] == 32 && (forall k :: 0 <= k < i ==> s[k] != 32) ==>
                      goal == strtol(s[i + 1..]) % 4294967296)
  }

  lemma {:induction false} ExecuteAllAppend(strtol: Bytes -> int, goal: nat, a: Commands, b: Commands)
    ensures ExecuteAll(strtol, goal, a + b) == ExecuteAll(strtol, ExecuteAll(strtol, goal, a), b)
    decreases |a|
  {
    if a == [] {
      assert a + b == b;
    } else {
      assert (a + b)[1..] == a[1..] + b;
      ExecuteAllAppend(strtol, Execute(strtol, goal, a[0]), a[1..], b);
    }
  }

  /** Without a simulation command the goal stays. */
  lemma {:induction false} GoalStays(strtol: Bytes -> int, goal: nat, cmds: Commands)
    requires NoGoal(cmds)
    ensures ExecuteAll(strtol, goal, cmds) == goal
    decreases |cmds|
  {
    if cmds != [] {
      assert !SetsGoal(cmds[0]);
      GoalStays(strtol, goal, cmds[1..]);
    }
  }

  /** The last simulation command decides. */
  lemma GoalOfLast(strtol: Bytes -> int, goal: nat, a: Commands, s: Bytes, b: Commands)
    requires SetsGoal(s) && NoGoal(b)
    ensures Sets(strtol, s, ExecuteAll(strtol, goal, a + [s] + b))
  {
    ExecuteAllAppend(strtol, goal, a + [s], b);
    ExecuteAllAppend(strtol, goal, a, [s]);
    GoalStays(strtol, ExecuteAll(strtol, goal, a + [s]), b);
    assert [s][1..] == [];
    var g := ExecuteAll(strtol, goal, a);
    assert ExecuteAll(strtol, g, [s]) == Execute(strtol, g, s);
    hide ExecuteAll;
    OneGoal(strtol, g, s);
  }

  lemma OneGoal(strtol: Bytes -> int, goal: nat, s: Bytes)
    requires SetsGoal(s)
    ensures Sets(strtol, s, Execute(strtol, goal, s))
  {
    var f := Find(SPACE, s);
    forall i | 0 <= i < |s| && s[i] == 32 && (forall k :: 0 <= k < i ==> s[k] != 32)
      ensures Execute(strtol, goal, s) == strtol(s[i + 1..]) % 4294967296
    {
      assert i == f;
    }
  }

  // ---- the counters

  /** A turn is a frame below the goal it leaves, and a pause at or above it. */
  lemma TurnCounts(strtol: Bytes -> int, at: Counters, cmds: Commands)
    ensures var z := Turn(strtol, at, cmds);
            && z.goal == ExecuteAll(strtol, at.goal, cmds)
            && z.frame == at.frame + (if at.frame < z.goal then 1 else 0)
            && z.frame + z.pause == at.frame + at.pause + 1
  {
    hide ExecuteAll;
  }

  predicate Quiet(turns: seq<Commands>) {
    forall t :: 0 <= t < |turns| ==> NoGoal(turns[t])
  }

  /** Between simulation commands, a run of turns advances the frame up to the goal and pauses
      for the rest: the counters follow from their number alone. */
  lemma {:induction false} ReplayRuns(strtol: Bytes -> int, before: seq<Commands>, more: seq<Commands>)
    requires Quiet(more)
    ensures var a, z := Replay(strtol, before), Replay(strtol, before + more);
            && z.goal == a.goal
            && z.frame == a.frame + Min(|more|, Max(a.goal - a.frame, 0))
            && z.frame + z.pause == a.frame + a.pause + |more|
    decreases |more|
  {
    if more == [] {
      assert before + more == before;
    } else {
      var front, last := more[..|more| - 1], more[|more| - 1];
      ReplayRuns(strtol, before, front);
      var all := before + more;
      assert all[..|all| - 1] == before + front && all[|all| - 1] == last;
      assert NoGoal(last);
      var at := Replay(strtol, before + front);
      GoalStays(strtol, at.goal, last);
      TurnCounts(strtol, at, last);
      assert Replay(strtol, all) == Turn(strtol, at, last);
      hide Replay, Turn, ExecuteAll;
    }
  }

  /** A turn and the quiet turns after it. */
  lemma AfterTurn(strtol: Bytes -> int, before: seq<Commands>, turn: Commands, more: seq<Commands>)
    requires Quiet(more)
    ensures var at, z := Replay(strtol, before), Replay(strtol, before + [turn] + more);
            var goal := ExecuteAll(strtol, at.goal, turn);
            && z.goal == goal
            && z.frame == at.frame + Min(1 + |more|, Max(goal - at.frame, 0))
            && z.frame + z.pause == at.frame + at.pause + 1 + |more|
  {
    hide *;
    ReplaySnoc(strtol, before, turn);
    TurnCounts(strtol, Replay(strtol, before), turn);
    ReplayRuns(strtol, before + [turn], more);
    OneTurn(Replay(strtol, before).frame, ExecuteAll(strtol, Replay(strtol, before).goal, turn), |more|);
  }

  lemma OneTurn(frame: nat, goal: nat, n: nat)
    ensures var now := frame + (if frame < goal then 1 else 0);
            now + Min(n, Max(goal - now, 0)) == frame + Min(1 + n, Max(goal - frame, 0))
  {
  }

  lemma ReplaySnoc(strtol: Bytes -> int, before: seq<Commands>, turn: Commands)
    ensures Replay(strtol, before + [turn]) == Turn(strtol, Replay(strtol, before), turn)
  {
    assert (before + [turn])[..|before|] == before;
  }

  /** A whole history in two parts: the turn with the last simulation command, whose bytes set
      the goal, and the quiet turns after it, whose number alone counts. */
  lemma AfterGoal(strtol: Bytes -> int, before: seq<Commands>, a: Commands, s: Bytes, b: Commands, more: seq<Commands>)
    requires SetsGoal(s) && NoGoal(b) && Quiet(more)
    ensures var at, z := Replay(strtol, before), Replay(strtol, before + [a + [s] + b] + more);
            && Sets(strtol, s, z.goal)
            && z.frame == at.frame + Min(1 + |more|, Max(z.goal - at.frame, 0))
            && z.frame + z.pause == at.frame + at.pause + 1 + |more|
  {
    hide *;
    AfterTurn(strtol, before, a + [s] + b, more);
    GoalOfLast(strtol, Replay(strtol, before).goal, a, s, b);
  }

  /** Until the first simulation command every turn is a pause. */
  lemma NothingRuns(strtol: Bytes -> int, turns: seq<Commands>)
    requires Quiet(turns)
    ensures Replay(strtol, turns) == Counters(0, |turns|, 0)
  {
    assert [] + turns == turns;
    ReplayRuns(strtol, [], turns);
  }
}
