/** Lockstep determinism, the send window and reload safety, for a client driven by any
    server, any typing, any network chunking and any timing. */
module Determinism {
  import opened Bytes
  import opened Frames
  import opened Lockstep

  /** turn executed, for player i, command t of player i's log. */
  ghost predicate Follows(turn: Commands, logs: Logs, t: nat, i: nat)
    requires i < MAX_PLAYER
  {
    i < |turn| && t < |Log(logs, i)| && turn[i] == Log(logs, i)[t]
  }

  /** Command t is executed exactly at turn t. */
  ghost predicate TurnsFollowLogs(c: Client) {
    forall t, i :: 0 <= t < |c.turns| && 0 <= i < c.players && i < MAX_PLAYER ==> Follows(c.turns[t], c.logs, t, i)
  }

  ghost predicate TurnWidths(c: Client) {
    forall t :: 0 <= t < |c.turns| ==> |c.turns[t]| == c.players
  }

  /** frame + pause_frame == read.command_count for every active player. */
  ghost predicate CursorsAtTurn(c: Client) {
    && c.at.frame + c.at.pause == |c.turns|
    && forall i :: 0 <= i < c.players && i < |c.cursors| ==> c.cursors[i] == |c.turns|
  }

  ghost predicate SendWindow(c: Client) {
    c.sentAtStart <= c.sent <= Max(c.sentAtStart, WriteFrame(c)) && c.sent <= |c.input|
  }

  /** What every step keeps. The counters of a running simulation are a fold over the
      commands its turns executed; nothing else about the past matters. */
  ghost predicate Inv(strtol: Bytes -> int, c: Client) {
    && WellFormed(c)
    && c.queue == c.queueMax
    && CursorsAtTurn(c) && TurnWidths(c) && TurnsFollowLogs(c)
    && SendWindow(c)
    && (c.running ==> c.at == Replay(strtol, c.turns))
    && (c.running ==> c.players == CountPlayers(c.logs))
  }

  lemma PreparedInv(strtol: Bytes -> int, c: Client, e: Event)
    requires Inv(strtol, c)
    ensures Inv(strtol, Prepared(c, e))
  {
    PreparedKeeps(c, e);
  }

  /** CONN_CORRUPT cannot happen: the loop has padded the input log up to the target. */
  lemma NeverCorrupt(strtol: Bytes -> int, c: Client, e: Event)
    requires Inv(strtol, c)
    ensures var p := Prepared(c, e); Sync(p, WriteFrame(p), e.io).1 != Corrupt
  {
    PreparedKeeps(c, e);
  }

  /** A successful sync leaves exactly max(sent at run start, frame + pause + queue) sent. */
  lemma ExactSendWindow(strtol: Bytes -> int, c: Client, e: Event)
    requires Inv(strtol, c)
    ensures var p := Prepared(c, e);
            var (d, status) := Sync(p, WriteFrame(p), e.io);
            && (status == Ok ==> d.sent == Max(d.sentAtStart, d.at.frame + d.at.pause + d.queueMax))
            && (status != Ok ==> d.sent == c.sent)
  {
    PreparedKeeps(c, e);
  }

  lemma GrownLogsKeepTurns(c: Client, d: Client)
    requires TurnsFollowLogs(c) && d.turns == c.turns && d.players == c.players
    requires forall i :: 0 <= i < MAX_PLAYER ==> Grows(c.logs[i], d.logs[i])
    ensures TurnsFollowLogs(d)
  {
    forall t, i | 0 <= t < |d.turns| && 0 <= i < d.players && i < MAX_PLAYER
      ensures Follows(d.turns[t], d.logs, t, i)
    {
      assert Grows(c.logs[i], d.logs[i]) && Follows(c.turns[t], c.logs, t, i);
    }
  }

  lemma SyncInv(strtol: Bytes -> int, c: Client, io: IO)
    requires Inv(strtol, c)
    ensures var (d, status) := Sync(c, WriteFrame(c), io);
            && Inv(strtol, d.(running := false))
            && (status == Ok ==> Inv(strtol, d))
  {
    var (d, status) := Sync(c, WriteFrame(c), io);
    SyncKeeps(c, WriteFrame(c), io);
    GrownLogsKeepTurns(c, d);
  }

  lemma NextFollows(c: Client)
    requires WellFormed(c) && Nearest(c, c.players) != 0 && CursorsAtTurn(c)
    ensures forall i :: 0 <= i < c.players && i < MAX_PLAYER ==> Follows(Unread(c), c.logs, |c.turns|, i)
  {
    UnreadEverywhere(c);
  }

  lemma OneMoreTurn(c: Client, cmds: Commands)
    requires TurnsFollowLogs(c) && TurnWidths(c) && |cmds| == c.players
    requires forall i :: 0 <= i < c.players && i < MAX_PLAYER ==> Follows(cmds, c.logs, |c.turns|, i)
    ensures var d := c.(turns := c.turns + [cmds]); TurnsFollowLogs(d) && TurnWidths(d)
  {
  }

  lemma PlayTurnInv(strtol: Bytes -> int, c: Client)
    requires Inv(strtol, c) && !PlayTurn(strtol, c).crashed
    ensures Inv(strtol, PlayTurn(strtol, c))
  {
    hide Nearest, ExecuteAll, CountPlayers, Follows, PackedLen;
    if Nearest(c, c.players) != 0 {
      var cmds, d := Unread(c), PlayTurn(strtol, c);
      UnreadEverywhere(c);
      assert d.turns[..|c.turns|] == c.turns;
      NextFollows(c);
      OneMoreTurn(c, cmds);
    }
  }

  lemma PassInv(strtol: Bytes -> int, c: Client, e: Event)
    requires Inv(strtol, c) && !Pass(strtol, c, e).crashed
    ensures Inv(strtol, Pass(strtol, c, e))
  {
    PreparedInv(strtol, c, e);
    var p := Prepared(c, e);
    var (d, status) := Sync(p, WriteFrame(p), e.io);
    SyncInv(strtol, p, e.io);
    if status == Ok {
      PlayTurnInv(strtol, d);
    }
  }

  lemma RestartInv(strtol: Bytes -> int, c: Client, framerate: nat)
    requires c.sent <= |c.input|
    ensures Inv(strtol, Restart(c, framerate))
  {
  }

  // ---- whole executions

  /** Pass: one iteration while the loop runs. Reload: the next run, once the loop has
      ended and the program is not exiting. Anything else leaves the client as it is. */
  datatype Act = Play(e: Event) | Reload

  function Step(strtol: Bytes -> int, framerate: nat, c: Client, act: Act): Client
    requires WellFormed(c)
  {
    match act
    case Play(e) => if c.running && !c.crashed then Pass(strtol, c, e) else c
    case Reload => if c.running || c.exiting || c.crashed then c else Restart(c, framerate)
  }

  ghost predicate Good(strtol: Bytes -> int, c: Client) {
    WellFormed(c) && (!c.crashed ==> Inv(strtol, c))
  }

  lemma StepGood(strtol: Bytes -> int, framerate: nat, c: Client, act: Act)
    requires Good(strtol, c)
    ensures Good(strtol, Step(strtol, framerate, c, act))
  {
    if act.Play? && c.running && !c.crashed {
      if !Pass(strtol, c, act.e).crashed {
        PassInv(strtol, c, act.e);
      } else {
        PassWellFormed(strtol, c, act.e);
      }
    } else if act.Reload? && !c.running && !c.exiting && !c.crashed {
      RestartInv(strtol, c, framerate);
    }
  }

  lemma PlayTurnWellFormed(strtol: Bytes -> int, c: Client)
    requires WellFormed(c)
    ensures WellFormed(PlayTurn(strtol, c))
  {
    if Nearest(c, c.players) != 0 {
      UnreadEverywhere(c);
    }
  }

  lemma PassWellFormed(strtol: Bytes -> int, c: Client, e: Event)
    requires WellFormed(c)
    ensures WellFormed(Pass(strtol, c, e))
  {
    PreparedKeeps(c, e);
    var p := Prepared(c, e);
    var (d, status) := Sync(p, WriteFrame(p), e.io);
    SyncKeeps(p, WriteFrame(p), e.io);
    if status == Ok {
      PlayTurnWellFormed(strtol, d);
    }
  }

  function Run(strtol: Bytes -> int, framerate: nat, acts: seq<Act>): (c: Client)
    ensures WellFormed(c)
  {
    if acts == [] then Blank() else
      var before := Run(strtol, framerate, acts[..|acts| - 1]);
      StepWellFormed(strtol, framerate, before, acts[|acts| - 1]);
      Step(strtol, framerate, before, acts[|acts| - 1])
  }

  lemma StepWellFormed(strtol: Bytes -> int, framerate: nat, c: Client, act: Act)
    requires WellFormed(c)
    ensures WellFormed(Step(strtol, framerate, c, act))
  {
    if act.Play? {
      PassWellFormed(strtol, c, act.e);
    }
  }

  lemma IdleInv(strtol: Bytes -> int, c: Client)
    requires WellFormed(c) && !c.running && c.turns == [] && c.players == c.at.frame == c.at.pause == 0
    requires c.queue == c.queueMax && c.sentAtStart == c.sent <= |c.input|
    ensures Inv(strtol, c)
  {
  }

  lemma BlankInv(strtol: Bytes -> int)
    ensures Inv(strtol, Blank())
  {
    IdleInv(strtol, Blank());
  }

  lemma {:induction false} Reachable(strtol: Bytes -> int, framerate: nat, acts: seq<Act>)
    ensures Good(strtol, Run(strtol, framerate, acts))
  {
    if acts == [] {
      BlankInv(strtol);
    } else {
      Reachable(strtol, framerate, acts[..|acts| - 1]);
      StepGood(strtol, framerate, Run(strtol, framerate, acts[..|acts| - 1]), acts[|acts| - 1]);
    }
  }

  /** The active players' logs agree for the first k commands. */
  ghost predicate SameCommands(c: Client, d: Client, k: nat) {
    && c.players == d.players
    && forall t, i :: 0 <= t < k && 0 <= i < c.players && i < MAX_PLAYER ==>
                        t < |Log(c.logs, i)| && t < |Log(d.logs, i)| && Log(c.logs, i)[t] == Log(d.logs, i)[t]
  }

  lemma SameTurns(strtol: Bytes -> int, c: Client, d: Client, k: nat)
    requires Inv(strtol, c) && Inv(strtol, d) && SameCommands(c, d, k) && k <= |c.turns| && k <= |d.turns|
    ensures c.turns[..k] == d.turns[..k]
  {
    forall t | 0 <= t < k
      ensures c.turns[t] == d.turns[t]
    {
      assert |c.turns[t]| == |d.turns[t]| == c.players;
      forall i | 0 <= i < c.players
        ensures c.turns[t][i] == d.turns[t][i]
      {
        assert Follows(c.turns[t], c.logs, t, i) && Follows(d.turns[t], d.logs, t, i);
        assert Log(c.logs, i)[t] == Log(d.logs, i)[t];
      }
    }
  }

  /** Two machines, or two runs, at any two moments of any two executions: where the logs
      agree for the turns the slower one has taken, the faster one took the same turns, and
      while it runs the slower one's frame, pause and goal are exactly the fold over them. Frame
      rate, stalls, chunking and restarts do not enter. */
  lemma LockstepDeterminism(strtol: Bytes -> int, f1: nat, acts1: seq<Act>, f2: nat, acts2: seq<Act>)
    requires var c, d := Run(strtol, f1, acts1), Run(strtol, f2, acts2);
             !c.crashed && !d.crashed && |c.turns| <= |d.turns| && SameCommands(c, d, |c.turns|)
    ensures var c, d := Run(strtol, f1, acts1), Run(strtol, f2, acts2);
            && c.turns == d.turns[..|c.turns|]
            && (c.running ==> c.at == Replay(strtol, d.turns[..|c.turns|]))
            && (c.running && d.running && |c.turns| == |d.turns| ==> c.at == d.at)
  {
    var c, d := Run(strtol, f1, acts1), Run(strtol, f2, acts2);
    Reachable(strtol, f1, acts1);
    Reachable(strtol, f2, acts2);
    SameTurns(strtol, c, d, |c.turns|);
    assert c.turns[..|c.turns|] == c.turns;
    assert |c.turns| == |d.turns| ==> d.turns[..|c.turns|] == d.turns;
  }

  // ---- reload safety

  /** Over any step nothing recorded is taken back and nothing sent is sent again. */
  ghost predicate Extends(c: Client, d: Client) {
    && c.input <= d.input && c.sent <= d.sent
    && forall i :: 0 <= i < MAX_PLAYER ==> Grows(c.logs[i], d.logs[i])
  }

  lemma PlayTurnExtends(strtol: Bytes -> int, c: Client)
    requires WellFormed(c)
    ensures var d := PlayTurn(strtol, c); d.input == c.input && d.sent == c.sent && d.logs == c.logs
  {
  }

  lemma StepExtends(strtol: Bytes -> int, framerate: nat, c: Client, act: Act)
    requires WellFormed(c)
    ensures Extends(c, Step(strtol, framerate, c, act))
  {
    if act.Play? {
      PreparedKeeps(c, act.e);
      var p := Prepared(c, act.e);
      SyncKeeps(p, WriteFrame(p), act.e.io);
      var (d, status) := Sync(p, WriteFrame(p), act.e.io);
      if status == Ok {
        PlayTurnExtends(strtol, d);
      }
    }
  }

  lemma ExtendsOn(a: Client, b: Client, c: Client)
    requires Extends(a, b) && Extends(b, c)
    ensures Extends(a, c) && |Log(a.logs, 0)| <= |Log(c.logs, 0)|
  {
    forall i | 0 <= i < MAX_PLAYER
      ensures Grows(a.logs[i], c.logs[i])
    {
      assert Grows(a.logs[i], b.logs[i]) && Grows(b.logs[i], c.logs[i]);
    }
    assert Grows(a.logs[0], c.logs[0]);
  }

  lemma RunSnoc(strtol: Bytes -> int, framerate: nat, acts: seq<Act>, act: Act)
    ensures Run(strtol, framerate, acts + [act]) == Step(strtol, framerate, Run(strtol, framerate, acts), act)
  {
    assert (acts + [act])[..|acts|] == acts;
  }

  lemma {:induction false} RunExtends(strtol: Bytes -> int, framerate: nat, acts: seq<Act>, more: seq<Act>)
    ensures Extends(Run(strtol, framerate, acts), Run(strtol, framerate, acts + more))
    decreases |more|
  {
    if more == [] {
      assert acts + more == acts;
    } else {
      var front, last := more[..|more| - 1], more[|more| - 1];
      RunExtends(strtol, framerate, acts, front);
      hide Run, Step, Extends, WellFormed;
      assert acts + more == acts + front + [last];
      RunSnoc(strtol, framerate, acts + front, last);
      var m := Run(strtol, framerate, acts + front);
      StepExtends(strtol, framerate, m, last);
      ExtendsOn(Run(strtol, framerate, acts), m, Run(strtol, framerate, acts + more));
    }
  }

  /** Every run with the same players replays the same history from its start: the turns of
      an earlier run and those of a later one agree wherever both have them. */
  lemma RunsReplay(strtol: Bytes -> int, framerate: nat, acts: seq<Act>, more: seq<Act>)
    requires var c, d := Run(strtol, framerate, acts), Run(strtol, framerate, acts + more);
             !c.crashed && !d.crashed && c.players == d.players
    ensures var c, d := Run(strtol, framerate, acts), Run(strtol, framerate, acts + more);
            var k := Min(|c.turns|, |d.turns|);
            c.turns[..k] == d.turns[..k]
  {
    var c, d := Run(strtol, framerate, acts), Run(strtol, framerate, acts + more);
    Reachable(strtol, framerate, acts);
    Reachable(strtol, framerate, acts + more);
    RunExtends(strtol, framerate, acts, more);
    var k := Min(|c.turns|, |d.turns|);
    forall t, i | 0 <= t < k && 0 <= i < c.players && i < MAX_PLAYER
      ensures t < |Log(c.logs, i)| && t < |Log(d.logs, i)| && Log(c.logs, i)[t] == Log(d.logs, i)[t]
    {
      assert Grows(c.logs[i], d.logs[i]);
      assert Follows(c.turns[t], c.logs, t, i) && Follows(d.turns[t], d.logs, t, i);
    }
    SameTurns(strtol, c, d, k);
  }
}
