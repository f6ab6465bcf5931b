/** Player discovery: before any frame has arrived the loop runs without players; the first
    frame ends that run, and the next run has its player. */
module Startup {
  import opened Bytes
  import opened Frames
  import opened Lockstep
  import opened Pipeline
  import opened EndToEnd
  import D = Determinism

  /** A run without players. */
  ghost predicate Waiting(c: Client) {
    c.running && !c.exiting && !c.crashed && WellFormed(c) && c.players == 0 && NoneYet(c.logs)
  }

  ghost predicate NoneYet(logs: Logs) {
    forall i :: 0 <= i < MAX_PLAYER ==> logs[i].None?
  }

  lemma RunningAlone(strtol: Bytes -> int, framerate: nat, w: World)
    requires Inv(strtol, framerate, w) && w.client.running && !w.client.exiting && w.client.players == 0
    ensures Waiting(w.client)
  {
  }

  lemma Halves<T>(s: seq<T>, n: nat)
    requires n <= |s|
    ensures s == s[..n] + s[n..]
  {
  }

  /** The first frame is not consumed: it only makes the log. */
  lemma FirstFrame(b: Bytes, t: Bytes, owed: Commands, logs: Logs)
    requires NoneYet(logs) && GoodLines(owed) && b + t == LocalStream(owed)
    ensures var p := Process(b, logs);
            p == if HasFrame(b) then Inbox(b, logs[0 := Some([])], NewPlayer) else Inbox(b, logs, Drained)
  {
    LocalWaits(owed, b, t);
    if HasFrame(b) {
      LocalHead(owed, b, t);
      assert Deframe(b)[0] == HeadFrame(b);
    }
  }

  lemma NobodyTurn(strtol: Bytes -> int, c: Client)
    requires WellFormed(c) && c.players == 0 && c.queueMax >= 1
    ensures var f := PlayTurn(strtol, c);
            && !f.crashed == !c.crashed && f.running == c.running && f.exiting == c.exiting
            && SameEnds(c, f) && f.players == 0
  {
    assert Nearest(c, 0) == c.queueMax;
    assert Unread(c) == [];
  }

  /** What the quiet pass puts first in an empty input log is an empty command. */
  lemma PaddedHead(c: Client, io: IO)
    requires Waiting(c) && c.queue >= 1
    ensures var d := Prepared(c, Event(false, [], io));
            && d.running && WriteFrame(d) == WriteFrame(c)
            && d.input != [] && d.input[0] == if c.input != [] then c.input[0] else []
  {
  }

  /** A quiet pass of a run without players finds one if a whole frame has arrived, and else
      only moves bytes into the receive buffer. Either way it sends something. */
  lemma WaitingPass(strtol: Bytes -> int, framerate: nat, w: World)
    requires Inv(strtol, framerate, w) && Waiting(w.client) && framerate >= 1
    ensures var v := Pipeline.Next(strtol, framerate, w, QUIET);
            && Inv(strtol, framerate, v) && !v.client.exiting && v.served == w.served
            && v.client.input != [] && v.client.input[0] == (if w.client.input != [] then w.client.input[0] else [])
            && if HasFrame(Arrived(w, RECEIVE_MAX)) then !v.client.running && CountPlayers(v.client.logs) == 1
               else Waiting(v.client) && v.client.sent >= 1 && v.client.inbox == Arrived(w, RECEIVE_MAX)
                    && v.toClient == w.toClient[Read(RECEIVE_MAX, w.toClient, w.client.inbox)..]
  {
    var n := Read(RECEIVE_MAX, w.toClient, w.client.inbox);
    NextInv(strtol, framerate, w, QUIET);
    FirstArrival(w);
    NextIs(strtol, framerate, w, false, [], Some(RECEIVE_MAX));
    assert Arrived(w, RECEIVE_MAX) == w.client.inbox + w.toClient[..n];
    assert framerate == w.client.queueMax == w.client.queue;
    hide Pipeline.Next, ClientNext, Read, Process, HasFrame, CountPlayers, Inv, Arrived, Waiting, Pass;
    WaitingClient(strtol, w.client, Received(w.toClient[..n]));
  }

  lemma FirstArrival(w: World)
    requires Sound(w) && NoneYet(w.client.logs)
    ensures var b, logs := Arrived(w, RECEIVE_MAX), w.client.logs;
            Process(b, logs) == if HasFrame(b) then Inbox(b, logs[0 := Some([])], NewPlayer)
                                else Inbox(b, logs, Drained)
  {
    hide Process, HasFrame, LocalStream, Join, Read;
    var n := Read(RECEIVE_MAX, w.toClient, w.client.inbox);
    Assoc(w.client.inbox, w.toClient[..n], w.toClient[n..]);
    Halves(w.toClient, n);
    FirstFrame(Arrived(w, RECEIVE_MAX), w.toClient[n..], ToLog(w), w.client.logs);
  }

  lemma WaitingClient(strtol: Bytes -> int, c: Client, io: IO)
    requires Waiting(c) && c.queue == c.queueMax >= 1 && io.Received?
    requires var b := c.inbox + io.bytes;
             Process(b, c.logs) == if HasFrame(b) then Inbox(b, c.logs[0 := Some([])], NewPlayer)
                                   else Inbox(b, c.logs, Drained)
    ensures var f := Pass(strtol, c, Event(false, [], io));
            && f.input != [] && f.input[0] == (if c.input != [] then c.input[0] else []) && !f.exiting
            && if HasFrame(c.inbox + io.bytes) then !f.running && CountPlayers(f.logs) == 1
               else Waiting(f) && f.sent >= 1 && f.inbox == c.inbox + io.bytes
  {
    var e := Event(false, [], io);
    PreparedKeeps(c, e);
    PaddedHead(c, io);
    hide Process, Prepared, HasFrame, CountPlayers, NoneYet, Nearest, Sync, AfterSync;
    WaitingEnd(strtol, Prepared(c, e), io);
  }

  lemma WaitingEnd(strtol: Bytes -> int, p: Client, io: IO)
    requires Waiting(p) && p.queueMax >= 1 && 1 <= WriteFrame(p) <= |p.input| && io.Received?
    requires var b := p.inbox + io.bytes;
             Process(b, p.logs) == if HasFrame(b) then Inbox(b, p.logs[0 := Some([])], NewPlayer)
                                   else Inbox(b, p.logs, Drained)
    ensures var (d, status) := Sync(p, WriteFrame(p), io);
            && WellFormed(d)
            && var f := AfterSync(strtol, d, status);
               && f.input == p.input && !f.exiting
               && if HasFrame(p.inbox + io.bytes) then !f.running && CountPlayers(f.logs) == 1
                  else Waiting(f) && f.sent >= 1 && f.inbox == p.inbox + io.bytes
  {
    hide Process;
    var (d, status) := Sync(p, WriteFrame(p), io);
    SyncKeeps(p, WriteFrame(p), io);
    if status == Ok {
      NobodyTurn(strtol, d);
    }
  }

  /** With a command reframed that fits the receive buffer, quiet passes find the player. */
  lemma {:induction false} QuietDiscovery(strtol: Bytes -> int, framerate: nat, w: World) returns (steps: seq<Step>)
    requires Inv(strtol, framerate, w) && Waiting(w.client) && framerate >= 1
    requires w.served != [] && |w.served[0]| <= COMMAND_MAX
    ensures GoodSteps(steps)
    ensures var v := RunFrom(strtol, framerate, w, steps);
            !v.client.running && !v.client.exiting && CountPlayers(v.client.logs) == 1
    decreases |w.toClient|
  {
    var v := Pipeline.Next(strtol, framerate, w, QUIET);
    WaitingPass(strtol, framerate, w);
    hide Pipeline.Next, HasFrame, LocalStream, Join, Read, CountPlayers, Inv;
    if HasFrame(Arrived(w, RECEIVE_MAX)) {
      steps := [QUIET];
    } else {
      assert Sound(w) by { SoundOf(strtol, framerate, w); }
      QuietReads(w, RECEIVE_MAX);
      var more := QuietDiscovery(strtol, framerate, v);
      steps := [QUIET] + more;
    }
  }

  lemma SoundOf(strtol: Bytes -> int, framerate: nat, w: World)
    requires Inv(strtol, framerate, w)
    ensures Sound(w)
  {
  }

  lemma Discovery(strtol: Bytes -> int, framerate: nat, w: World) returns (steps: seq<Step>)
    requires Inv(strtol, framerate, w) && Waiting(w.client) && framerate >= 1
    requires w.client.sent >= 1 && |w.client.input[0]| <= COMMAND_MAX
    ensures GoodSteps(steps)
    ensures var v := RunFrom(strtol, framerate, w, steps);
            !v.client.running && !v.client.exiting && CountPlayers(v.client.logs) == 1
  {
    var drain := ServerDrains(strtol, framerate, w);
    var u := RunFrom(strtol, framerate, w, drain);
    SoundOf(strtol, framerate, u);
    ServedFirst(u);
    hide RunFrom, Inv, CountPlayers, Sound;
    var quiet := QuietDiscovery(strtol, framerate, u);
    RunFromAppend(strtol, framerate, w, drain, quiet);
    steps := drain + quiet;
  }

  /** From any run without players, provided the first command ever typed fits the receive
      buffer, there is a continuation in which nobody types that reaches a run with its
      player, at turn zero. */
  lemma PlayerFound(strtol: Bytes -> int, framerate: nat, w: World) returns (steps: seq<Step>)
    requires Inv(strtol, framerate, w) && framerate >= 1
    requires w.client.running && !w.client.exiting && w.client.players == 0
    requires w.client.input != [] ==> |w.client.input[0]| <= COMMAND_MAX
    ensures GoodSteps(steps)
    ensures var v := RunFrom(strtol, framerate, w, steps);
            v.client.running && v.client.players == 1 && v.client.at == START
  {
    RunningAlone(strtol, framerate, w);
    var v := Pipeline.Next(strtol, framerate, w, QUIET);
    WaitingPass(strtol, framerate, w);
    hide Pipeline.Next, Inv, HasFrame, Waiting, RunFrom, CountPlayers, GoodSteps;
    var found := FoundFrom(strtol, framerate, v);
    FoundThenReload(strtol, framerate, v, found);
    steps := [QUIET] + (found + [Reload]);
    RunFromFirst(strtol, framerate, w, QUIET, found + [Reload]);
    GoodAround(found);
  }

  lemma GoodAround(found: seq<Step>)
    requires GoodSteps(found)
    ensures GoodSteps([QUIET] + (found + [Reload]))
  {
  }

  lemma FoundFrom(strtol: Bytes -> int, framerate: nat, w: World) returns (found: seq<Step>)
    requires Inv(strtol, framerate, w) && framerate >= 1 && !w.client.exiting
    requires if w.client.running then Waiting(w.client) && w.client.sent >= 1 && w.client.input != []
                                      && |w.client.input[0]| <= COMMAND_MAX
             else CountPlayers(w.client.logs) == 1
    ensures GoodSteps(found)
    ensures var v := RunFrom(strtol, framerate, w, found);
            !v.client.running && !v.client.exiting && CountPlayers(v.client.logs) == 1
  {
    if w.client.running {
      found := Discovery(strtol, framerate, w);
    } else {
      RunFromNothing(strtol, framerate, w);
      found := [];
    }
  }

  lemma FoundThenReload(strtol: Bytes -> int, framerate: nat, w: World, found: seq<Step>)
    requires Inv(strtol, framerate, w) && GoodSteps(found)
    requires var v := RunFrom(strtol, framerate, w, found);
             !v.client.running && !v.client.exiting && CountPlayers(v.client.logs) == 1
    ensures var v := RunFrom(strtol, framerate, w, found + [Reload]);
            v.client.running && v.client.players == 1 && v.client.at == START
  {
    NotCrashed(strtol, framerate, w);
    RunFromAppend(strtol, framerate, w, found, [Reload]);
    RunFromInv(strtol, framerate, w, found);
    hide Inv, CountPlayers, RunFrom;
    var u := RunFrom(strtol, framerate, w, found);
    NotCrashed(strtol, framerate, u);
    ReloadFinds(strtol, framerate, u);
  }

  lemma RunFromNothing(strtol: Bytes -> int, framerate: nat, w: World)
    requires WellFormed(w.client)
    ensures RunFrom(strtol, framerate, w, []) == w
  {
  }

  lemma RunFromFirst(strtol: Bytes -> int, framerate: nat, w: World, s: Step, steps: seq<Step>)
    requires WellFormed(w.client)
    ensures WellFormed(Pipeline.Next(strtol, framerate, w, s).client)
    ensures RunFrom(strtol, framerate, w, [s] + steps)
         == RunFrom(strtol, framerate, Pipeline.Next(strtol, framerate, w, s), steps)
  {
    NextWellFormed(strtol, framerate, w, s);
    assert ([s] + steps)[1..] == steps;
  }

  lemma NotCrashed(strtol: Bytes -> int, framerate: nat, w: World)
    requires Inv(strtol, framerate, w)
    ensures !w.client.crashed && WellFormed(w.client)
  {
  }

  lemma ServedFirst(w: World)
    requires Sound(w) && w.served != [] && w.client.input != []
    ensures w.served[0] == w.client.input[0]
  {
  }

  lemma ReloadFinds(strtol: Bytes -> int, framerate: nat, w: World)
    requires WellFormed(w.client) && !w.client.running && !w.client.exiting && !w.client.crashed
    ensures var v := RunFrom(strtol, framerate, w, [Reload]);
            v.client.running && v.client.players == CountPlayers(w.client.logs) && v.client.at == START
  {
    hide CountPlayers;
    assert [Reload][1..] == [];
  }

  // ---- when it cannot happen

  ghost predicate Oversized(c: Client) {
    c.input != [] && |c.input[0]| > COMMAND_MAX && NoneYet(c.logs) && c.players == 0
  }

  lemma FirstIsFirst(w: World, n: nat)
    requires Sound(w) && w.client.input != [] && NoneYet(w.client.logs) && n <= |w.toClient|
    ensures var b := w.client.inbox + w.toClient[..n]; HasFrame(b) ==> HeadFrame(b).cmd == w.client.input[0]
  {
    var b, t := w.client.inbox + w.toClient[..n], w.toClient[n..];
    if HasFrame(b) {
      Assoc(w.client.inbox, w.toClient[..n], t);
      Halves(w.toClient, n);
      assert Log0(w) == [];
      LocalHead(ToLog(w), b, t);
      assert Deframe(b)[0].cmd == ToLog(w)[0] == w.client.input[0];
    }
  }

  /** The frame of an oversized command is never complete in the receive buffer. */
  lemma NeverComplete(w: World, n: nat)
    requires Sound(w) && Oversized(w.client) && n <= |w.toClient| && |w.client.inbox| + n <= RECEIVE_MAX
    ensures var b := w.client.inbox + w.toClient[..n];
            Process(b, w.client.logs) == Inbox(b, w.client.logs, Drained)
  {
    FirstIsFirst(w, n);
    Assoc(w.client.inbox, w.toClient[..n], w.toClient[n..]);
    Halves(w.toClient, n);
    LocalWaits(ToLog(w), w.client.inbox + w.toClient[..n], w.toClient[n..]);
  }

  lemma OversizedPass(strtol: Bytes -> int, w: World, e: Event, n: nat)
    requires Sound(w) && WellFormed(w.client) && Oversized(w.client)
    requires n <= |w.toClient| && |w.client.inbox| + n <= RECEIVE_MAX
    requires e.io == Received(w.toClient[..n]) || e.io == Failure
    ensures Oversized(Pass(strtol, w.client, e))
  {
    var c := w.client;
    PreparedKeeps(c, e);
    PassShape(strtol, c, e);
    NeverComplete(w, n);
    hide Prepared, Process, Sound, Pass, WriteFrame;
    assert Prepared(c, e).input[0] == c.input[0];
  }

  lemma {:induction false} NeverFound(strtol: Bytes -> int, framerate: nat, w: World, steps: seq<Step>)
    requires Inv(strtol, framerate, w) && Oversized(w.client) && GoodSteps(steps)
    ensures Oversized(RunFrom(strtol, framerate, w, steps).client)
    decreases |steps|
  {
    if steps != [] {
      OversizedStep(strtol, framerate, w, steps[0]);
      NextInv(strtol, framerate, w, steps[0]);
      NeverFound(strtol, framerate, Pipeline.Next(strtol, framerate, w, steps[0]), steps[1..]);
    }
  }

  lemma OversizedStep(strtol: Bytes -> int, framerate: nat, w: World, s: Step)
    requires Inv(strtol, framerate, w) && Oversized(w.client)
    ensures Oversized(Pipeline.Next(strtol, framerate, w, s).client)
  {
    hide Pass, Wire, D.Inv;
    if s.LoopPass? && w.client.running {
      SoundOf(strtol, framerate, w);
      NotCrashed(strtol, framerate, w);
      var n := if s.reply.None? then 0 else Read(s.reply.value, w.toClient, w.client.inbox);
      OversizedPass(strtol, w, ActOf(w, s).value.e, n);
    }
  }

  /** Exactly when a run without players can lead to one with its player. */
  lemma PlayerFoundExactly(strtol: Bytes -> int, framerate: nat, w: World)
    requires Inv(strtol, framerate, w) && framerate >= 1
    requires w.client.running && !w.client.exiting && w.client.players == 0
    ensures (exists steps :: GoodSteps(steps) && RunFrom(strtol, framerate, w, steps).client.players == 1)
       <==> (w.client.input != [] ==> |w.client.input[0]| <= 4087)
  {
    RunningAlone(strtol, framerate, w);
    if w.client.input != [] && |w.client.input[0]| > COMMAND_MAX {
      forall steps | GoodSteps(steps)
        ensures RunFrom(strtol, framerate, w, steps).client.players != 1
      {
        NeverFound(strtol, framerate, w, steps);
      }
    } else {
      var steps := PlayerFound(strtol, framerate, w);
      assert GoodSteps(steps) && RunFrom(strtol, framerate, w, steps).client.players == 1;
    }
  }
}
