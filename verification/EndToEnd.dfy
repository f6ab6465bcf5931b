/** The theorems about whole executions of the machine in Pipeline.dfy. */
module EndToEnd {
  import opened Bytes
  import opened Frames
  import opened Lockstep
  import opened Pipeline
  import Demux
  import D = Determinism

  /** Commands between the client's write and the player's log, counted in the bytes of
      both streams and both receive buffers. */
  function InFlight(w: World): nat {
    |Lines(NUL, w.serverBuf + w.toServer)| + |Deframe(w.client.inbox + w.toClient)|
  }

  /** End-to-end safety, over every interleaving and every chunking of both reads, through
      player discovery and restarts: player 0's log is a prefix of what the server has
      reframed, which is a prefix of what was sent, which is a prefix of the input log. */
  lemma PrefixChain(strtol: Bytes -> int, framerate: nat, steps: seq<Step>)
    requires GoodSteps(steps)
    ensures var w := Run(strtol, framerate, steps);
            && w.client.sent <= |w.client.input|
            && Log0(w) <= w.served <= w.client.input[..w.client.sent] <= w.client.input
  {
    Reachable(strtol, framerate, steps);
    var w := Run(strtol, framerate, steps);
    PrefixSlice(w.client.input[..w.client.sent], w.client.input, 0, |w.served|);
    PrefixSlice(w.served, w.client.input, 0, |Log0(w)|);
  }

  lemma InFlightCount(w: World)
    requires Sound(w)
    ensures w.client.sent == |Log0(w)| + InFlight(w)
  {
    JoinLines(NUL, ToServe(w), []);
    assert Join(NUL, ToServe(w)) + [] == w.serverBuf + w.toServer;
    DeframeStream(LocalFrames(ToLog(w)), []);
    assert LocalStream(ToLog(w)) + [] == w.client.inbox + w.toClient;
  }

  /** Conservation: every command sent has been executed by a turn, waits in the player's
      log, or is in the bytes still in flight. */
  lemma Conservation(strtol: Bytes -> int, framerate: nat, steps: seq<Step>)
    requires GoodSteps(steps)
    ensures var w := Run(strtol, framerate, steps);
            && w.client.sent == |Log0(w)| + InFlight(w)
            && (w.client.players == 1 ==>
                  w.client.sent == |w.client.turns| + Ahead(w.client, 0) + InFlight(w))
  {
    Reachable(strtol, framerate, steps);
    InFlightCount(Run(strtol, framerate, steps));
  }

  /** CONN_CORRUPT and both CRASH branches are unreachable. */
  lemma NoCorruptNoCrash(strtol: Bytes -> int, framerate: nat, steps: seq<Step>, e: Event)
    requires GoodSteps(steps)
    ensures var c := Run(strtol, framerate, steps).client;
            !c.crashed && Sync(Prepared(c, e), WriteFrame(Prepared(c, e)), e.io).1 != Corrupt
  {
    Reachable(strtol, framerate, steps);
    D.NeverCorrupt(strtol, Run(strtol, framerate, steps).client, e);
  }

  /** What command_preview finds: the player's log never runs further ahead than was allowed
      to be sent. */
  lemma FarthestBound(strtol: Bytes -> int, framerate: nat, w: World, e: Event, n: nat)
    requires Inv(strtol, framerate, w) && GoodLines(e.lines)
    requires n <= |w.toClient| && |w.client.inbox| + n <= RECEIVE_MAX && e.io == Received(w.toClient[..n])
    ensures var p := Prepared(w.client, e);
            var (d, status) := Sync(p, WriteFrame(p), e.io);
            WellFormed(d) && (status == Ok ==> Farthest(d, d.players) <= Max(d.queueMax, d.sentAtStart))
  {
    var p := Prepared(w.client, e);
    var (d, status) := Sync(p, WriteFrame(p), e.io);
    PreparedKeeps(w.client, e);
    SyncKeeps(p, WriteFrame(p), e.io);
    if status == Ok {
      PreparedSound(w, e);
      D.PreparedInv(strtol, w.client, e);
      D.SyncInv(strtol, p, e.io);
      SyncedSound(w.(client := p), WriteFrame(p), n);
      hide Prepared, Sync, LocalStream, Join, Process, Farthest, WriteFrame;
      FarthestOf(strtol, d);
    }
  }

  lemma FarthestOf(strtol: Bytes -> int, c: Client)
    requires D.Inv(strtol, c) && c.players <= 1 && |Log(c.logs, 0)| <= c.sent
    ensures Farthest(c, c.players) <= Max(c.queueMax, c.sentAtStart)
  {
    if c.players == 1 {
      assert Farthest(c, 1) == Max(Ahead(c, 0), Farthest(c, 0));
    }
  }

  // ---- executions of the machine are executions of its client

  /** So everything proved in Determinism.dfy about clients holds of the machine. */
  lemma {:induction false} ClientTrace(strtol: Bytes -> int, framerate: nat, w: World, acts: seq<D.Act>,
                                       steps: seq<Step>)
    returns (more: seq<D.Act>)
    requires WellFormed(w.client) && w.client == D.Run(strtol, framerate, acts)
    ensures RunFrom(strtol, framerate, w, steps).client == D.Run(strtol, framerate, acts + more)
    decreases |steps|
  {
    if steps == [] {
      more := [];
      assert acts + more == acts;
    } else {
      var v := Next(strtol, framerate, w, steps[0]);
      var first := ActOf(w, steps[0]);
      if first.None? {
        more := ClientTrace(strtol, framerate, v, acts, steps[1..]);
      } else {
        assert (acts + [first.value])[..|acts|] == acts;
        NextWellFormed(strtol, framerate, w, steps[0]);
        var rest := ClientTrace(strtol, framerate, v, acts + [first.value], steps[1..]);
        more := [first.value] + rest;
        Assoc(acts, [first.value], rest);
      }
    }
  }

  function ActOf(w: World, s: Step): Option<D.Act> {
    match s
    case ServerRead(_) => None
    case Reload => Some(D.Reload)
    case LoopPass(notified, lines, reply) =>
      if !w.client.running || w.client.crashed then None
      else if reply.None? then Some(D.Play(Event(notified, lines, Failure)))
      else Some(D.Play(Event(notified, lines, Received(w.toClient[..Read(reply.value, w.toClient, w.client.inbox)]))))
  }

  /** Reload safety: across restarts nothing is sent twice and nothing recorded is lost, and
      the turns of any two runs with the same players agree wherever both have them. */
  lemma ReloadSafety(strtol: Bytes -> int, framerate: nat, steps: seq<Step>, more: seq<Step>)
    requires GoodSteps(steps) && GoodSteps(more)
    ensures var w := Run(strtol, framerate, steps);
            var v := RunFrom(strtol, framerate, w, more);
            && D.Extends(w.client, v.client)
            && (w.client.players == v.client.players ==>
                  var k := Min(|w.client.turns|, |v.client.turns|); w.client.turns[..k] == v.client.turns[..k])
  {
    var acts := ClientTrace(strtol, framerate, Idle(), [], steps);
    var w := Run(strtol, framerate, steps);
    assert [] + acts == acts;
    var acts' := ClientTrace(strtol, framerate, w, acts, more);
    Reachable(strtol, framerate, steps);
    RunFromInv(strtol, framerate, w, more);
    D.RunExtends(strtol, framerate, acts, acts');
    if w.client.players == RunFrom(strtol, framerate, w, more).client.players {
      D.RunsReplay(strtol, framerate, acts, acts');
    }
  }

  // ---- stalls and their end

  /** The local player has executed everything in its log and has sent all it may. */
  ghost predicate Starved(c: Client) {
    && !c.crashed && WellFormed(c) && c.players == 1 && Ahead(c, 0) == 0
    && WriteFrame(c) <= c.sent <= |c.input|
  }

  ghost predicate Stalled(c: Client) { c.running && Starved(c) }

  lemma StallShape(strtol: Bytes -> int, c: Client, e: Event)
    requires D.Inv(strtol, c) && c.queueMax >= 1 && c.players <= 1
    requires c.running && Pass(strtol, c, e).stall == c.stall + 1 && !Pass(strtol, c, e).crashed
    ensures Starved(Pass(strtol, c, e))
  {
    PreparedKeeps(c, e);
    D.PreparedInv(strtol, c, e);
    var p := Prepared(c, e);
    var (d, status) := Sync(p, WriteFrame(p), e.io);
    SyncKeeps(p, WriteFrame(p), e.io);
    assert status == Ok && Nearest(d, d.players) == 0;
    assert d.players == 1 && Nearest(d, 1) == Min(Ahead(d, 0), Nearest(d, 0));
  }

  /** No deadlock: whenever a pass stalls, at least input_queue commands, so at least one,
      are on their way; also in a pass that a halt was typed in. */
  lemma StallHasFlight(strtol: Bytes -> int, framerate: nat, w: World, s: Step)
    requires Inv(strtol, framerate, w) && framerate >= 1 && GoodStep(s) && s.LoopPass?
    requires Next(strtol, framerate, w, s).client.stall > w.client.stall
    ensures var v := Next(strtol, framerate, w, s);
            Starved(v.client) && InFlight(v) >= v.client.queue == framerate
  {
    var c, v, e := w.client, Next(strtol, framerate, w, s), ActOf(w, s).value.e;
    NextInv(strtol, framerate, w, s);
    StallByOne(strtol, c, e);
    PassShape(strtol, c, e);
    hide Pass, Sound, WellFormed;
    StallShape(strtol, c, e);
    InFlightCount(v);
  }

  lemma StallByOne(strtol: Bytes -> int, c: Client, e: Event)
    requires WellFormed(c)
    ensures Pass(strtol, c, e).stall <= c.stall + 1
  {
    PreparedKeeps(c, e);
    SyncKeeps(Prepared(c, e), WriteFrame(Prepared(c, e)), e.io);
    hide Prepared, Sync, WellFormed, Nearest, Turn, Unread, PackedLen, Advanced;
  }

  /** A pass in which nobody types, reading as much as there is room for. */
  const QUIET := Quiet(RECEIVE_MAX)

  /** And one that reads up to k bytes. */
  function Quiet(k: nat): Step { LoopPass(false, [], Some(k)) }

  function Arrived(w: World, k: nat): Bytes {
    w.client.inbox + w.toClient[..Read(k, w.toClient, w.client.inbox)]
  }

  lemma QuietPrepared(c: Client, io: IO)
    requires Stalled(c)
    ensures Prepared(c, Event(false, [], io)) == c
  {
    assert c.input + Empties(0) == c.input;
  }

  /** A quiet pass from a stall either completes a frame and takes the turn, or it only moves
      bytes into the receive buffer and stalls once more. */
  lemma QuietPass(strtol: Bytes -> int, framerate: nat, w: World, k: nat)
    requires Inv(strtol, framerate, w) && Stalled(w.client) && framerate >= 1
    ensures var v := Pipeline.Next(strtol, framerate, w, Quiet(k));
            if HasFrame(Arrived(w, k)) && w.client.logs[0].Some?
            then |Log0(v)| > |Log0(w)| && |v.client.turns| == |w.client.turns| + 1
                 && v.client.running && v.client.players == 1
            else Log0(v) == Log0(w) && v.client.inbox == Arrived(w, k) && Stalled(v.client)
                 && v.client.input == w.client.input && v.client.sent == w.client.sent && v.served == w.served
                 && v.toClient == w.toClient[Read(k, w.toClient, w.client.inbox)..]
  {
    hide Process, LocalStream, ExecuteAll, Join, PackedLen;
    var c, n := w.client, Read(k, w.toClient, w.client.inbox);
    var io := Received(w.toClient[..n]);
    NextInv(strtol, framerate, w, Quiet(k));
    QuietPrepared(c, io);
    assert c.logs[0].Some?;
    QuietSync(strtol, w, n);
    var d := Sync(c, WriteFrame(c), io).0;
    assert Nearest(d, 1) == Min(Ahead(d, 0), Nearest(d, 0));
  }

  /** A pass that sends nothing leaves the stream to the server alone. */
  lemma QuietWrites(strtol: Bytes -> int, framerate: nat, w: World, k: nat)
    requires WellFormed(w.client) && w.client.running && !w.client.crashed && w.client.sent <= |w.client.input|
    requires Pipeline.Next(strtol, framerate, w, Quiet(k)).client.sent == w.client.sent
    ensures Pipeline.Next(strtol, framerate, w, Quiet(k)).toServer == w.toServer
  {
    NextIs(strtol, framerate, w, false, [], Some(k));
    var d := Pipeline.Next(strtol, framerate, w, Quiet(k)).client;
    hide Pass, Read, D.Step;
    NothingWritten(w.client, d);
    assert w.toServer + [] == w.toServer;
  }

  lemma NothingWritten(c: Client, d: Client)
    requires c.sent == d.sent
    ensures Written(c, d) == []
  {
    if c.sent <= |d.input| {
      assert d.input[c.sent..c.sent] == [];
    }
  }

  lemma QuietSync(strtol: Bytes -> int, w: World, n: nat)
    requires Sound(w) && Stalled(w.client) && w.client.logs[0].Some? && n <= |w.toClient|
    requires |w.client.inbox| + n <= RECEIVE_MAX
    ensures var c, b := w.client, w.client.inbox + w.toClient[..n];
            var (d, status) := Sync(c, WriteFrame(c), Received(w.toClient[..n]));
            && status == Ok && WellFormed(d) && d.sent == c.sent
            && d == c.(inbox := d.inbox, logs := d.logs)
            && (if HasFrame(b) then Ahead(d, 0) >= 1 else d == c.(inbox := b))
  {
    var c, b, t := w.client, w.client.inbox + w.toClient[..n], w.toClient[n..];
    Assoc(c.inbox, w.toClient[..n], t);
    assert w.toClient == w.toClient[..n] + t;
    var m := LocalProcess(ToLog(w), b, t, c.logs);
    SyncKeeps(c, WriteFrame(c), Received(w.toClient[..n]));
    assert Max(c.sent, Min(WriteFrame(c), |c.input|)) == c.sent;
  }

  /** The server can always be brought to reframe everything that was sent. */
  lemma {:induction false} ServerDrains(strtol: Bytes -> int, framerate: nat, w: World) returns (steps: seq<Step>)
    requires Inv(strtol, framerate, w)
    ensures GoodSteps(steps)
    ensures var v := RunFrom(strtol, framerate, w, steps);
            Inv(strtol, framerate, v) && v.client == w.client && |v.served| == w.client.sent
    decreases |w.toServer|
  {
    if w.toServer == [] {
      steps := [];
      assert w.serverBuf + [] == w.serverBuf;
      if ToServe(w) != [] {
        NulAfter(w.serverBuf, [], |ToServe(w)[0]|);
      }
    } else {
      var step := ServerRead(RECEIVE_MAX);
      NextInv(strtol, framerate, w, step);
      var v := Pipeline.Next(strtol, framerate, w, step);
      var more := ServerDrains(strtol, framerate, v);
      steps := [step] + more;
    }
  }

  /** With everything reframed, quiet passes deliver the next command, if its frame fits. */
  lemma {:induction false} QuietDelivery(strtol: Bytes -> int, framerate: nat, w: World) returns (steps: seq<Step>)
    requires Inv(strtol, framerate, w) && Stalled(w.client) && framerate >= 1
    requires |Log0(w)| < |w.served| && |w.served[|Log0(w)|]| <= COMMAND_MAX
    ensures GoodSteps(steps)
    ensures var v := RunFrom(strtol, framerate, w, steps);
            && |Log0(v)| > |Log0(w)| && |v.client.turns| == |w.client.turns| + 1
            && v.client.running && v.client.players == 1
    decreases |w.toClient|
  {
    hide Pipeline.Next, HasFrame, LocalStream, Join, Read;
    var v := Pipeline.Next(strtol, framerate, w, QUIET);
    QuietPass(strtol, framerate, w, RECEIVE_MAX);
    NextInv(strtol, framerate, w, QUIET);
    if HasFrame(Arrived(w, RECEIVE_MAX)) {
      steps := [QUIET];
    } else {
      QuietReads(w, RECEIVE_MAX);
      var more := QuietDelivery(strtol, framerate, v);
      steps := [QUIET] + more;
    }
  }

  /** While the next frame is incomplete there are bytes to read and room to read them. */
  lemma QuietReads(w: World, k: nat)
    requires Sound(w) && |Log0(w)| < |w.served| && |w.served[|Log0(w)|]| <= COMMAND_MAX
    requires !HasFrame(Arrived(w, k)) && k >= 1
    ensures Read(k, w.toClient, w.client.inbox) >= 1
  {
    var fs := LocalFrames(ToLog(w));
    assert fs[0].cmd == w.served[|Log0(w)|];
    if HasFrame(w.client.inbox) {
      HeadAppend(w.client.inbox, w.toClient[..Read(k, w.toClient, w.client.inbox)]);
    }
    LeftoverIsShort(fs, w.client.inbox, w.toClient);
    assert |Stream(fs)| >= |fs[0].cmd| + 9;
  }

  lemma {:induction false} RunFromAppend(strtol: Bytes -> int, framerate: nat, w: World, a: seq<Step>, b: seq<Step>)
    requires WellFormed(w.client)
    ensures RunFrom(strtol, framerate, w, a + b) == RunFrom(strtol, framerate, RunFrom(strtol, framerate, w, a), b)
    decreases |a|
  {
    if a == [] {
      assert a + b == b;
    } else {
      NextWellFormed(strtol, framerate, w, a[0]);
      assert (a + b)[1..] == a[1..] + b;
      RunFromAppend(strtol, framerate, Pipeline.Next(strtol, framerate, w, a[0]), a[1..], b);
    }
  }

  /** From any stall, delivery alone ends it: there is a continuation in which nobody types
      and the next turn is taken. */
  lemma StallEnds(strtol: Bytes -> int, framerate: nat, w: World) returns (steps: seq<Step>)
    requires Inv(strtol, framerate, w) && Stalled(w.client) && framerate >= 1
    requires |w.client.input[|Log0(w)|]| <= COMMAND_MAX
    ensures GoodSteps(steps)
    ensures var v := RunFrom(strtol, framerate, w, steps);
            && |Log0(v)| > |Log0(w)| && |v.client.turns| == |w.client.turns| + 1
            && v.client.running && v.client.players == 1
  {
    var drain := ServerDrains(strtol, framerate, w);
    var v := RunFrom(strtol, framerate, w, drain);
    var quiet := QuietDelivery(strtol, framerate, v);
    steps := drain + quiet;
    RunFromAppend(strtol, framerate, w, drain, quiet);
  }

  /** A command too long for the receive buffer is never delivered, and nothing after it. */
  lemma TooLongIsNeverLogged(strtol: Bytes -> int, framerate: nat, w: World, j: nat, steps: seq<Step>)
    requires Inv(strtol, framerate, w) && GoodSteps(steps)
    requires j < |w.client.input| && |w.client.input[j]| > COMMAND_MAX
    ensures |Log0(RunFrom(strtol, framerate, w, steps))| <= j
  {
    hide RunFrom, LocalStream, Join;
    RunFromInv(strtol, framerate, w, steps);
    RunFromExtends(strtol, framerate, w, steps);
    var v := RunFrom(strtol, framerate, w, steps);
    assert v.client.input[j] == w.client.input[j];
  }

  lemma {:induction false} RunFromExtends(strtol: Bytes -> int, framerate: nat, w: World, steps: seq<Step>)
    requires WellFormed(w.client)
    ensures D.Extends(w.client, RunFrom(strtol, framerate, w, steps).client)
    ensures |Log0(w)| <= |Log0(RunFrom(strtol, framerate, w, steps))|
    decreases |steps|
  {
    if steps != [] {
      var v := Pipeline.Next(strtol, framerate, w, steps[0]);
      StepExtends(strtol, framerate, w, steps[0]);
      NextWellFormed(strtol, framerate, w, steps[0]);
      RunFromExtends(strtol, framerate, v, steps[1..]);
      D.ExtendsOn(w.client, v.client, RunFrom(strtol, framerate, v, steps[1..]).client);
    }
  }

  lemma StepExtends(strtol: Bytes -> int, framerate: nat, w: World, s: Step)
    requires WellFormed(w.client)
    ensures D.Extends(w.client, Pipeline.Next(strtol, framerate, w, s).client)
  {
    var act := ActOf(w, s);
    if act.Some? {
      D.StepExtends(strtol, framerate, w.client, act.value);
    }
  }

  /** Exactly when a stall can end: the next command must be one the receive buffer can hold
      with its header. Lines of 4088 to 4094 bytes can be typed and cannot be delivered. */
  lemma StallEndsExactly(strtol: Bytes -> int, framerate: nat, w: World)
    requires Inv(strtol, framerate, w) && Stalled(w.client) && framerate >= 1
    ensures |Log0(w)| < |w.client.input|
    ensures (exists steps :: GoodSteps(steps) && |Log0(RunFrom(strtol, framerate, w, steps))| > |Log0(w)|)
       <==> |w.client.input[|Log0(w)|]| <= 4087
  {
    if |w.client.input[|Log0(w)|]| <= COMMAND_MAX {
      var steps := StallEnds(strtol, framerate, w);
      assert GoodSteps(steps) && |Log0(RunFrom(strtol, framerate, w, steps))| > |Log0(w)|;
    } else {
      forall steps | GoodSteps(steps)
        ensures |Log0(RunFrom(strtol, framerate, w, steps))| <= |Log0(w)|
      {
        TooLongIsNeverLogged(strtol, framerate, w, |Log0(w)|, steps);
      }
    }
  }

  /** No jam: the server's buffer always has a free byte, and after a successful sync so has
      the client's, unless the command it is receiving is longer than COMMAND_MAX. */
  lemma NoJam(strtol: Bytes -> int, framerate: nat, w: World, e: Event, n: nat)
    requires Inv(strtol, framerate, w) && GoodLines(e.lines)
    requires n <= |w.toClient| && |w.client.inbox| + n <= RECEIVE_MAX && e.io == Received(w.toClient[..n])
    ensures |w.serverBuf| < RECEIVE_MAX
    ensures var p := Prepared(w.client, e);
            var (d, status) := Sync(p, WriteFrame(p), e.io);
            var log := Log(d.logs, 0);
            status == Ok ==>
              (&& |log| <= |w.served|
               && (|log| == |w.served| ==> d.inbox == [])
               && (|log| < |w.served| ==> |d.inbox| < |w.served[|log|]| + 9)
               && (|log| < |w.served| && |w.served[|log|]| <= COMMAND_MAX ==> |d.inbox| < RECEIVE_MAX))
  {
    var p := Prepared(w.client, e);
    var (d, status) := Sync(p, WriteFrame(p), e.io);
    if status == Ok {
      var v := w.(client := p);
      PreparedKeeps(w.client, e);
      PreparedSound(w, e);
      SyncedSound(v, WriteFrame(p), n);
      var u := Synced(v, WriteFrame(p), n);
      Demux.ProcessDelivers(p.inbox + w.toClient[..n], p.logs);
      hide Prepared, Sound, LocalStream, Join, Process, Deframe;
      LeftoverFits(u);
    }
  }

  /** What an undecodable buffer holds belongs to the next command. */
  lemma LeftoverFits(w: World)
    requires Sound(w) && !HasFrame(w.client.inbox)
    ensures |Log0(w)| <= |w.served|
    ensures |Log0(w)| == |w.served| ==> w.client.inbox == []
    ensures |Log0(w)| < |w.served| ==> |w.client.inbox| < |w.served[|Log0(w)|]| + 9
  {
    LeftoverIsShort(LocalFrames(ToLog(w)), w.client.inbox, w.toClient);
    assert ToLog(w) != [] ==> ToLog(w)[0] == w.served[|Log0(w)|];
  }
}
