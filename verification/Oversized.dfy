/** Commands that do not fit the receive buffer: states in which one is next are reached by
    typing it, and delivery gets exactly as far as the first of them. */
module Oversized {
  import opened Bytes
  import opened Frames
  import opened Lockstep
  import opened Pipeline
  import opened EndToEnd
  import opened Startup
  import Demux
  import D = Determinism

  /** Neither a meta command nor one that the receive buffer can hold with its header. */
  ghost predicate LongLine(line: Bytes) {
    Free(NUL, line) && 4088 <= |line| <= 4094 && line[0] != 33
  }

  /** A pass in which one line is typed and nothing arrives. */
  function Typing(line: Bytes): Step { LoopPass(false, [line], Some(0)) }

  function TypingEvent(w: World, line: Bytes): Event { Event(false, [line], Received(w.toClient[..0])) }

  lemma TypedPrepared(c: Client, line: Bytes, io: IO)
    requires c.running && line != [] && line[0] != BANG
    ensures var p := Prepared(c, Event(false, [line], io));
            && p.running && c.input + [line] <= p.input
            && p == c.(input := p.input)
  {
    var e := Event(false, [line], io);
    assert [line][1..] == [];
    assert TypedAll(c, [line]) == TypedAll(Typed(c, line), []) == c.(input := c.input + [line]);
  }

  /** The line is logged and the run goes on. */
  lemma TypedPass(strtol: Bytes -> int, framerate: nat, w: World, line: Bytes)
    requires Inv(strtol, framerate, w) && w.client.running && LongLine(line)
    requires w.client.players == 1 || w.client.inbox == []
    ensures GoodStep(Typing(line))
    ensures var v := Pipeline.Next(strtol, framerate, w, Typing(line));
            && Inv(strtol, framerate, v) && v.client.running
            && v.client.exiting == w.client.exiting && v.client.players == w.client.players
            && w.client.input + [line] <= v.client.input
  {
    var c, e := w.client, TypingEvent(w, line);
    NextInv(strtol, framerate, w, Typing(line));
    TypedPrepared(c, line, e.io);
    EmptyReadDrains(strtol, framerate, w);
    PassNeverCrashes(strtol, w, e, 0);
    D.NeverCorrupt(strtol, c, e);
    DrainedPass(strtol, c, e);
  }

  /** A read of no bytes in a run with a player, or before anything has arrived. */
  lemma EmptyReadDrains(strtol: Bytes -> int, framerate: nat, w: World)
    requires Inv(strtol, framerate, w) && w.client.running
    requires w.client.players == 1 || w.client.inbox == []
    ensures Process(w.client.inbox + w.toClient[..0], w.client.logs).verdict == Drained
  {
    var b, t := w.client.inbox + w.toClient[..0], w.toClient[0..];
    assert b == w.client.inbox && t == w.toClient;
    if w.client.inbox != [] {
      assert w.client.logs[0].Some?;
      var m := LocalProcess(ToLog(w), b, t, w.client.logs);
    }
  }

  /** A pass whose read is drained only plays. */
  lemma DrainedPass(strtol: Bytes -> int, c: Client, e: Event)
    requires WellFormed(c) && c.running && e.io.Received? && Prepared(c, e).running
    requires Process(c.inbox + e.io.bytes, c.logs).verdict == Drained
    requires var p := Prepared(c, e); Sync(p, WriteFrame(p), e.io).1 != Corrupt
    ensures var f, p := Pass(strtol, c, e), Prepared(c, e);
            f.running && f.exiting == p.exiting && f.players == c.players && f.input == p.input
  {
    PreparedKeeps(c, e);
    var p := Prepared(c, e);
    var (d, status) := Sync(p, WriteFrame(p), e.io);
    SyncKeeps(p, WriteFrame(p), e.io);
    assert status == Ok;
  }

  // ---- every run with a player can be brought to a stall

  /** A pass in which nobody types and nothing arrives. */
  const IDLE := LoopPass(false, [], Some(0))

  /** What such passes can still execute: the log, and the whole frames in the buffer. */
  function Backlog(w: World): int
    requires |w.client.cursors| == MAX_PLAYER
  {
    Ahead(w.client, 0) + |Deframe(w.client.inbox)|
  }

  lemma IdlePrepared(c: Client, io: IO)
    requires c.running
    ensures var p := Prepared(c, Event(false, [], io));
            p == c.(input := p.input) && c.input <= p.input && WriteFrame(p) == WriteFrame(c)
  {
  }

  lemma IdleInbox(strtol: Bytes -> int, framerate: nat, w: World)
    requires Inv(strtol, framerate, w) && w.client.running && w.client.players == 1
    ensures var q := Process(w.client.inbox + [], w.client.logs);
            && q.verdict == Drained && !HasFrame(q.buf)
            && |Log(q.logs, 0)| == |Log0(w)| + |Deframe(w.client.inbox)|
  {
    var c := w.client;
    assert c.inbox + [] == c.inbox && c.logs[0].Some?;
    var m := LocalProcess(ToLog(w), c.inbox, w.toClient, c.logs);
    Demux.ProcessDelivers(c.inbox, c.logs);
  }

  lemma IdleSync(strtol: Bytes -> int, framerate: nat, w: World)
    requires Inv(strtol, framerate, w) && w.client.running && w.client.players == 1
    ensures var p := Prepared(w.client, Event(false, [], Received([])));
            var (d, status) := Sync(p, WriteFrame(p), Received([]));
            && status == Ok && WellFormed(d) && !HasFrame(d.inbox)
            && Ahead(d, 0) == Backlog(w) >= 0 && d.running && d.players == 1 && d.queueMax == w.client.queueMax
  {
    var c, e := w.client, Event(false, [], Received([]));
    var p := Prepared(c, e);
    PreparedKeeps(c, e);
    IdlePrepared(c, e.io);
    D.NeverCorrupt(strtol, c, e);
    IdleInbox(strtol, framerate, w);
    hide Process, Prepared, Sound, HasFrame, Deframe, WriteFrame, CountPlayers;
    SyncKeeps(p, WriteFrame(p), e.io);
  }

  /** An idle pass takes a turn and uses up one command, or stalls. */
  lemma IdlePass(strtol: Bytes -> int, framerate: nat, w: World)
    requires Inv(strtol, framerate, w) && w.client.running && w.client.players == 1 && framerate >= 1
    ensures var v := Pipeline.Next(strtol, framerate, w, IDLE);
            && Inv(strtol, framerate, v) && v.client.running && v.client.players == 1
            && if Backlog(w) == 0 then Stalled(v.client) else 0 <= Backlog(v) == Backlog(w) - 1
  {
    var c, e, v := w.client, Event(false, [], Received(w.toClient[..0])), Pipeline.Next(strtol, framerate, w, IDLE);
    NextInv(strtol, framerate, w, IDLE);
    assert w.toClient[..0] == [];
    IdleSync(strtol, framerate, w);
    PassNeverCrashes(strtol, w, e, 0);
    var d := Sync(Prepared(c, e), WriteFrame(Prepared(c, e)), e.io).0;
    assert v.client == PlayTurn(strtol, d);
    hide Prepared, Sync, Sound, D.Inv;
    IdleTurn(strtol, d);
    if Backlog(w) == 0 {
      StallShape(strtol, c, e);
    }
  }

  lemma IdleTurn(strtol: Bytes -> int, d: Client)
    requires WellFormed(d) && d.players == 1 && d.queueMax >= 1 && !PlayTurn(strtol, d).crashed
    ensures var f := PlayTurn(strtol, d);
            && f.running == d.running && f.players == 1 && f.inbox == d.inbox && f.logs == d.logs && WellFormed(f)
            && if Ahead(d, 0) == 0 then f.stall == d.stall + 1 else Ahead(f, 0) == Ahead(d, 0) - 1
  {
    D.PlayTurnWellFormed(strtol, d);
    assert Nearest(d, 1) == Min(Ahead(d, 0), Nearest(d, 0));
    PlayTurnCases(strtol, d);
  }

  /** So idle passes reach a stall. */
  lemma {:induction false} ReachStall(strtol: Bytes -> int, framerate: nat, w: World) returns (steps: seq<Step>)
    requires Inv(strtol, framerate, w) && w.client.running && w.client.players == 1 && framerate >= 1
    requires Backlog(w) >= 0
    ensures GoodSteps(steps)
    ensures Stalled(RunFrom(strtol, framerate, w, steps).client)
    decreases Backlog(w)
  {
    NotCrashed(strtol, framerate, w);
    IdlePass(strtol, framerate, w);
    hide Pipeline.Next, Inv, Stalled, Backlog, RunFrom, GoodSteps, WellFormed;
    var v := Pipeline.Next(strtol, framerate, w, IDLE);
    var more: seq<Step> := [];
    if Backlog(w) == 0 {
      RunFromNothing(strtol, framerate, v);
      GoodNothing();
    } else {
      more := ReachStall(strtol, framerate, v);
    }
    steps := [IDLE] + more;
    RunFromFirst(strtol, framerate, w, IDLE, more);
    GoodIdle(more);
  }

  lemma GoodNothing()
    ensures GoodSteps([])
  {
  }

  lemma GoodIdle(more: seq<Step>)
    requires GoodSteps(more)
    ensures GoodSteps([IDLE] + more)
  {
  }

  // ---- how far delivery gets

  /** Command j is the first that is too long. */
  ghost predicate FirstLong(input: Commands, j: nat) {
    j < |input| && |input[j]| > COMMAND_MAX && forall k :: 0 <= k < j ==> |input[k]| <= COMMAND_MAX
  }

  lemma {:induction false} SomeFirstLong(input: Commands, k: nat) returns (j: nat)
    requires k < |input| && |input[k]| > COMMAND_MAX
    ensures j <= k && FirstLong(input, j)
    decreases k
  {
    if i :| 0 <= i < k && |input[i]| > COMMAND_MAX {
      j := SomeFirstLong(input, i);
    } else {
      j := k;
    }
  }

  /** The first j commands all fit the receive buffer. */
  ghost predicate Short(input: Commands, j: nat) {
    j <= |input| && forall k :: 0 <= k < j ==> |input[k]| <= 4087
  }

  lemma ShortOn(a: Commands, b: Commands, j: nat)
    requires Short(a, j) && a <= b
    ensures Short(b, j)
  {
    assert forall k :: 0 <= k < j ==> b[k] == a[k];
  }

  /** From a stall, any number of commands that fit can be delivered. */
  lemma {:induction false} Advance(strtol: Bytes -> int, framerate: nat, w: World, j: nat) returns (steps: seq<Step>)
    requires Inv(strtol, framerate, w) && Stalled(w.client) && framerate >= 1
    requires Short(w.client.input, j)
    ensures GoodSteps(steps)
    ensures var v := RunFrom(strtol, framerate, w, steps); Stalled(v.client) && |Log0(v)| >= j
    decreases j - |Log0(w)|
  {
    if |Log0(w)| >= j {
      steps := [];
    } else {
      var next := StallEnds(strtol, framerate, w);
      var u := RunFrom(strtol, framerate, w, next);
      RunFromInv(strtol, framerate, w, next);
      var still := StallAgain(strtol, framerate, u);
      var v := RunFrom(strtol, framerate, u, still);
      var both := next + still;
      RunFromAppend(strtol, framerate, w, next, still);
      RunFromExtends(strtol, framerate, w, both);
      ShortOn(w.client.input, v.client.input, j);
      RunFromInv(strtol, framerate, w, both);
      var more := Advance(strtol, framerate, v, j);
      steps := both + more;
      RunFromAppend(strtol, framerate, w, both, more);
    }
  }

  lemma StallAgain(strtol: Bytes -> int, framerate: nat, w: World) returns (steps: seq<Step>)
    requires Inv(strtol, framerate, w) && w.client.running && w.client.players == 1 && framerate >= 1
    ensures GoodSteps(steps)
    ensures var v := RunFrom(strtol, framerate, w, steps); Stalled(v.client) && |Log0(w)| <= |Log0(v)|
  {
    steps := ReachStall(strtol, framerate, w);
    RunFromExtends(strtol, framerate, w, steps);
  }

  /** The first long command stays the first, and the log never reaches past it. */
  lemma KeepsLong(strtol: Bytes -> int, framerate: nat, w: World, j: nat, steps: seq<Step>)
    requires Inv(strtol, framerate, w) && GoodSteps(steps) && FirstLong(w.client.input, j)
    ensures var v := RunFrom(strtol, framerate, w, steps);
            FirstLong(v.client.input, j) && |Log0(v)| <= j
  {
    TooLongIsNeverLogged(strtol, framerate, w, j, steps);
    RunFromExtends(strtol, framerate, w, steps);
    var a, b := w.client.input, RunFrom(strtol, framerate, w, steps).client.input;
    assert forall k :: 0 <= k <= j ==> b[k] == a[k];
  }

  /** Delivery gets exactly as far as the first long command: from a run with a player there
      is a continuation without typing to a stall right before it, and no execution ever logs
      more. */
  lemma DeliversExactly(strtol: Bytes -> int, framerate: nat, w: World, j: nat)
    requires Inv(strtol, framerate, w) && w.client.running && w.client.players == 1 && framerate >= 1
    requires FirstLong(w.client.input, j)
    ensures exists steps :: GoodSteps(steps) && Stalled(RunFrom(strtol, framerate, w, steps).client)
                            && |Log0(RunFrom(strtol, framerate, w, steps))| == j
    ensures forall steps :: GoodSteps(steps) ==> |Log0(RunFrom(strtol, framerate, w, steps))| <= j
  {
    var steps := DeliversUpTo(strtol, framerate, w, j);
    assert GoodSteps(steps) && |Log0(RunFrom(strtol, framerate, w, steps))| == j;
    forall steps | GoodSteps(steps)
      ensures |Log0(RunFrom(strtol, framerate, w, steps))| <= j
    {
      KeepsLong(strtol, framerate, w, j, steps);
    }
  }

  lemma DeliversUpTo(strtol: Bytes -> int, framerate: nat, w: World, j: nat) returns (steps: seq<Step>)
    requires Inv(strtol, framerate, w) && w.client.running && w.client.players == 1 && framerate >= 1
    requires FirstLong(w.client.input, j)
    ensures GoodSteps(steps)
    ensures var v := RunFrom(strtol, framerate, w, steps); Stalled(v.client) && |Log0(v)| == j
  {
    steps := DeliversShort(strtol, framerate, w, j);
    KeepsLong(strtol, framerate, w, j, steps);
  }

  /** From a run with a player, with or without a long command: the first j commands, if they
      fit, can be delivered without typing. */
  lemma DeliversShort(strtol: Bytes -> int, framerate: nat, w: World, j: nat) returns (steps: seq<Step>)
    requires Inv(strtol, framerate, w) && w.client.running && w.client.players == 1 && framerate >= 1
    requires Short(w.client.input, j)
    ensures GoodSteps(steps)
    ensures var v := RunFrom(strtol, framerate, w, steps); Stalled(v.client) && |Log0(v)| >= j
  {
    var still := StallAgain(strtol, framerate, w);
    var v := RunFrom(strtol, framerate, w, still);
    RunFromExtends(strtol, framerate, w, still);
    ShortOn(w.client.input, v.client.input, j);
    RunFromInv(strtol, framerate, w, still);
    var more := Advance(strtol, framerate, v, j);
    steps := still + more;
    RunFromAppend(strtol, framerate, w, still, more);
  }

  /** Exactly when the first j commands of the input log can be delivered: they all fit. */
  lemma DeliverableExactly(strtol: Bytes -> int, framerate: nat, w: World, j: nat)
    requires Inv(strtol, framerate, w) && w.client.running && w.client.players == 1 && framerate >= 1
    requires j <= |w.client.input|
    ensures (exists steps :: GoodSteps(steps) && |Log0(RunFrom(strtol, framerate, w, steps))| >= j)
       <==> Short(w.client.input, j)
  {
    if Short(w.client.input, j) {
      var steps := DeliversShort(strtol, framerate, w, j);
      assert GoodSteps(steps) && |Log0(RunFrom(strtol, framerate, w, steps))| >= j;
    } else {
      var k :| 0 <= k < j && |w.client.input[k]| > COMMAND_MAX;
      forall steps | GoodSteps(steps)
        ensures |Log0(RunFrom(strtol, framerate, w, steps))| < j
      {
        TooLongIsNeverLogged(strtol, framerate, w, k, steps);
      }
    }
  }

  // ---- such states are reached

  lemma Started(strtol: Bytes -> int, framerate: nat)
    ensures var w := Pipeline.Next(strtol, framerate, Idle(), Reload);
            && Inv(strtol, framerate, w) && w.client.running && !w.client.exiting && w.client.players == 0
            && w.client.input == [] && w.client.inbox == []
  {
    hide Pipeline.Next, Inv, D.Step;
    IdleInv(strtol, framerate);
    NextInv(strtol, framerate, Idle(), Reload);
    ReloadNext(strtol, framerate, Idle());
    assert Idle().client == Blank();
    FirstRun(strtol, framerate);
  }

  lemma ReloadNext(strtol: Bytes -> int, framerate: nat, w: World)
    requires WellFormed(w.client)
    ensures Pipeline.Next(strtol, framerate, w, Reload).client == D.Step(strtol, framerate, w.client, D.Reload)
  {
  }

  lemma FirstRun(strtol: Bytes -> int, framerate: nat)
    ensures var c := D.Step(strtol, framerate, Blank(), D.Reload);
            && c.running && !c.exiting && c.players == 0 && c.input == [] && c.inbox == []
  {
    hide Rewound;
    assert CountPlayers(NoLogs()) == 0;
  }

  /** A long line typed before anything else: the program runs, and will never find a player. */
  lemma LongFirst(strtol: Bytes -> int, framerate: nat, line: Bytes)
    requires LongLine(line)
    ensures GoodSteps([Reload, Typing(line)])
    ensures var w := Run(strtol, framerate, [Reload, Typing(line)]);
            Inv(strtol, framerate, w) && Waiting(w.client) && Oversized(w.client)
  {
    Started(strtol, framerate);
    var w := Pipeline.Next(strtol, framerate, Idle(), Reload);
    TypedPass(strtol, framerate, w, line);
    var v := Pipeline.Next(strtol, framerate, w, Typing(line));
    RunningAlone(strtol, framerate, v);
    assert v.client.input[0] == (w.client.input + [line])[0];
    hide Pipeline.Next, Inv;
    TwoSteps(strtol, framerate, Idle(), Reload, Typing(line));
  }

  lemma TwoSteps(strtol: Bytes -> int, framerate: nat, w: World, a: Step, b: Step)
    requires WellFormed(w.client)
    ensures WellFormed(Pipeline.Next(strtol, framerate, w, a).client)
    ensures RunFrom(strtol, framerate, w, [a, b])
         == Pipeline.Next(strtol, framerate, Pipeline.Next(strtol, framerate, w, a), b)
  {
    RunFromFirst(strtol, framerate, w, a, [b]);
    OneStep(strtol, framerate, Pipeline.Next(strtol, framerate, w, a), b);
    assert [a, b] == [a] + [b];
  }

  lemma OneStep(strtol: Bytes -> int, framerate: nat, w: World, s: Step)
    requires WellFormed(w.client)
    ensures RunFrom(strtol, framerate, w, [s]) == Pipeline.Next(strtol, framerate, w, s)
  {
    RunFromFirst(strtol, framerate, w, s, []);
    RunFromNothing(strtol, framerate, Pipeline.Next(strtol, framerate, w, s));
    assert [s] == [s] + [];
  }

  /** Typed in any run with a player, a long line is reached by delivery, in a stall that then
      never ends. */
  lemma LongLater(strtol: Bytes -> int, framerate: nat, w: World, line: Bytes) returns (steps: seq<Step>)
    requires Inv(strtol, framerate, w) && w.client.running && w.client.players == 1 && framerate >= 1
    requires LongLine(line)
    ensures GoodSteps(steps)
    ensures var v := RunFrom(strtol, framerate, w, steps);
            Stalled(v.client) && FirstLong(v.client.input, |Log0(v)|)
  {
    TypedPass(strtol, framerate, w, line);
    var v := Pipeline.Next(strtol, framerate, w, Typing(line));
    NotCrashed(strtol, framerate, w);
    LineAt(w.client.input, line, v.client.input);
    var j := SomeFirstLong(v.client.input, |w.client.input|);
    hide Pipeline.Next, Inv, RunFrom, GoodSteps;
    var more := DeliversUpTo(strtol, framerate, v, j);
    KeepsLong(strtol, framerate, v, j, more);
    steps := [Typing(line)] + more;
    RunFromFirst(strtol, framerate, w, Typing(line), more);
    GoodTyping(line, more);
  }

  lemma LineAt(before: Commands, line: Bytes, after: Commands)
    requires before + [line] <= after
    ensures |before| < |after| && after[|before|] == line
  {
    assert (before + [line])[|before|] == line;
  }

  lemma GoodTyping(line: Bytes, more: seq<Step>)
    requires GoodStep(Typing(line)) && GoodSteps(more)
    ensures GoodSteps([Typing(line)] + more)
  {
  }

  /** So there are executions of the program that end in such a stall. */
  lemma LongStall(strtol: Bytes -> int, framerate: nat, line: Bytes) returns (steps: seq<Step>)
    requires LongLine(line) && framerate >= 1
    ensures GoodSteps(steps)
    ensures var w := Run(strtol, framerate, steps);
            && Inv(strtol, framerate, w) && Stalled(w.client)
            && |Log0(w)| < |w.client.input| && |w.client.input[|Log0(w)|]| > COMMAND_MAX
  {
    Started(strtol, framerate);
    var w := Pipeline.Next(strtol, framerate, Idle(), Reload);
    var found := PlayerFound(strtol, framerate, w);
    RunFromInv(strtol, framerate, w, found);
    var u := RunFrom(strtol, framerate, w, found);
    hide Pipeline.Next, Inv, RunFrom, GoodSteps;
    var later := LongLater(strtol, framerate, u, line);
    RunFromAppend(strtol, framerate, w, found, later);
    steps := [Reload] + (found + later);
    RunFromFirst(strtol, framerate, Idle(), Reload, found + later);
    GoodReload(found, later);
    Reachable(strtol, framerate, steps);
  }

  lemma GoodReload(a: seq<Step>, b: seq<Step>)
    requires GoodSteps(a) && GoodSteps(b)
    ensures GoodSteps([Reload] + (a + b))
  {
  }
}
