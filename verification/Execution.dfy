/** Whole executions of the program's objects: started by main and moved by their own methods,
    they are at every moment where an execution of Pipeline.dfy is. */
module Execution {
  import opened Bytes
  import opened Frames
  import opened Lockstep
  import opened Pipeline
  import opened Records
  import opened Machine
  import D = Determinism
  import EndToEnd
  import Startup
  import Oversized
  import Input
  import Server
  import Console
  import Players
  import Words

  /** What the outside world does next: the server reads, the loop makes a pass, or main
      starts the next run with this calibration at this time. */
  datatype Move =
    | Serve(k: nat)
    | Play(notified: bool, typed: Option<Bytes>, reply: Option<nat>, delays: seq<nat>)
    | Restart(tscPerUsec: Words.u64, time: nat)

  /** The step of the machine that a move is; the splitter decides the lines. */
  predicate Is(m: Move, s: Step) {
    match m
    case Serve(k) => s == ServerRead(k)
    case Play(notified, _, reply, _) => s.LoopPass? && s.notified == notified && s.reply == reply
    case Restart(_, _) => s == Reload
  }

  /** The objects are sound, share no memory and are in w's state. */
  ghost predicate Together(server: Server.Reframer, splitter: Input.Splitter, console: Console.Console, w: World)
    reads server, server.receiveBuffer, splitter, splitter.buf
    reads console, console.conn, console.conn.receiveBuffer, console.input, console.input.Repr
    reads console.game, console.game.Repr, console.loop, console.loop.clock
  {
    && server.Valid() && server.Pending() == w.serverBuf
    && splitter.Valid() && Apart(splitter, console)
    && OutsideOf(server, console) && OutsideOf(server.receiveBuffer, console) && server.receiveBuffer != splitter.buf
    && console.Valid() && console.state == w.client
    && (w.client.running ==> console.loop.Ticking())
  }

  /** The memory of the program's objects that is there from the start; the logs also grow. */
  ghost function Fixed(server: Server.Reframer, splitter: Input.Splitter, console: Console.Console): set<object> {
    {server, server.receiveBuffer, splitter, splitter.buf, console, console.conn, console.conn.receiveBuffer,
     console.loop, console.loop.clock}
  }

  /** When the move can be made: a pass while the loop runs, with a read that fits the splitter,
      room in the logs, and time going on; a restart when a run has ended and not the program. */
  ghost predicate Able(framerate: nat, splitter: Input.Splitter, console: Console.Console, m: Move)
    requires framerate >= 1
    reads splitter, splitter.buf, console, console.input, console.game, console.loop, console.loop.clock
  {
    match m
    case Serve(_) => true
    case Play(_, typed, _, delays) =>
      && console.loop.running && CanRead(splitter.Now(), typed)
      && LogsHaveRoom(console, LinesOf(splitter.Now(), typed)) && console.loop.Passes(delays)
    case Restart(tscPerUsec, _) =>
      && !console.loop.running && !console.exiting && !console.crashed
      && tscPerUsec >= 1 && 1_000_000 / framerate * tscPerUsec < Words.WRAP
  }

  /** One step of the program. */
  method Take(strtol: Bytes -> int, framerate: nat, server: Server.Reframer, splitter: Input.Splitter,
              console: Console.Console, w: World, m: Move)
    returns (v: World, s: Step)
    requires 1 <= framerate <= 255 && Inv(strtol, framerate, w)
    requires Together(server, splitter, console, w) && Able(framerate, splitter, console, m)
    modifies Fixed(server, splitter, console), console.input.Repr, console.game.Repr
    ensures GoodStep(s) && Is(m, s) && v == Pipeline.Next(strtol, framerate, w, s) && Inv(strtol, framerate, v)
    ensures Together(server, splitter, console, v)
    ensures fresh(console.input.Repr - old(console.input.Repr)) && fresh(console.game.Repr - old(console.game.Repr))
  {
    match m {
      case Serve(k) =>
        s := ServerRead(k);
        NextInv(strtol, framerate, w, s);
        v := TakeServe(strtol, framerate, server, splitter, console, w, k);
      case Play(notified, typed, reply, delays) =>
        var lines;
        v, lines := TakePlay(strtol, framerate, server, splitter, console, w, notified, typed, reply, delays);
        s := LoopPass(notified, lines, reply);
        NextInv(strtol, framerate, w, s);
      case Restart(tscPerUsec, time) =>
        s := Reload;
        NextInv(strtol, framerate, w, s);
        v := TakeRestart(strtol, framerate, server, splitter, console, w, tscPerUsec, time);
    }
  }

  method TakeServe(strtol: Bytes -> int, framerate: nat, server: Server.Reframer, splitter: Input.Splitter,
                   console: Console.Console, w: World, k: nat)
    returns (v: World)
    requires Inv(strtol, framerate, w) && Together(server, splitter, console, w)
    modifies server, server.receiveBuffer
    ensures v == Pipeline.Next(strtol, framerate, w, ServerRead(k)) && Together(server, splitter, console, v)
    ensures unchanged(console.input) && unchanged(console.game)
  {
    hide Console.Console.Valid, Lines, Rest;
    v := ServerStep(strtol, framerate, server, w, k);
  }

  method TakePlay(strtol: Bytes -> int, framerate: nat, server: Server.Reframer, splitter: Input.Splitter,
                  console: Console.Console, w: World,
                  notified: bool, typed: Option<Bytes>, reply: Option<nat>, delays: seq<nat>)
    returns (v: World, lines: Commands)
    requires Inv(strtol, framerate, w) && Together(server, splitter, console, w) && w.client.running
    requires CanRead(splitter.Now(), typed)
    requires LogsHaveRoom(console, LinesOf(splitter.Now(), typed)) && console.loop.Passes(delays)
    modifies splitter, splitter.buf
    modifies console, console.conn, console.conn.receiveBuffer, console.game.Repr, console.input.Repr
    modifies console.loop, console.loop.clock
    ensures GoodLines(lines) && v == Pipeline.Next(strtol, framerate, w, LoopPass(notified, lines, reply))
    ensures Together(server, splitter, console, v)
    ensures fresh(console.input.Repr - old(console.input.Repr)) && fresh(console.game.Repr - old(console.game.Repr))
  {
    v, lines := ClientStep(strtol, framerate, splitter, console, w, notified, typed, reply, delays);
  }

  method TakeRestart(strtol: Bytes -> int, framerate: nat, server: Server.Reframer, splitter: Input.Splitter,
                     console: Console.Console, w: World, tscPerUsec: Words.u64, time: nat)
    returns (v: World)
    requires Inv(strtol, framerate, w) && Together(server, splitter, console, w)
    requires !w.client.running && !w.client.exiting
    requires 1 <= framerate <= 255 && tscPerUsec >= 1 && 1_000_000 / framerate * tscPerUsec < Words.WRAP
    modifies splitter`used
    modifies console, console.game.Repr, console.loop, console.loop.clock
    ensures v == Pipeline.Next(strtol, framerate, w, Reload) && Together(server, splitter, console, v)
    ensures console.input.Repr == old(console.input.Repr) && console.game.Repr == old(console.game.Repr)
  {
    v := ReloadStep(strtol, framerate, splitter, console, w, tscPerUsec, time);
  }

  /** Able, decided on the program's own fields. */
  method CanMove(framerate: nat, splitter: Input.Splitter, console: Console.Console, m: Move) returns (able: bool)
    requires framerate >= 1 && splitter.Valid() && console.Valid()
    requires console.loop.running ==> console.loop.Ticking()
    ensures able == Able(framerate, splitter, console, m)
  {
    match m {
      case Serve(_) => able := true;
      case Play(_, typed, _, delays) => able := CanPlay(splitter, console, typed, delays);
      case Restart(tscPerUsec, _) =>
        able := !console.loop.running && !console.exiting && !console.crashed
                && tscPerUsec >= 1 && 1_000_000 / framerate * tscPerUsec < Words.WRAP;
    }
  }

  method CanPlay(splitter: Input.Splitter, console: Console.Console, typed: Option<Bytes>, delays: seq<nat>)
    returns (able: bool)
    requires splitter.Valid() && console.Valid()
    requires console.loop.running ==> console.loop.Ticking()
    ensures able == (console.loop.running && CanRead(splitter.Now(), typed)
                     && LogsHaveRoom(console, LinesOf(splitter.Now(), typed)) && console.loop.Passes(delays))
  {
    hide Input.Handled, Join, Loop.TimePasses, Players.GameRecord.RoomFor;
    if !console.loop.running { return false; }
    var s := Input.State(splitter.buf[..], splitter.used);
    if typed.Some? && !Input.Takes(s, typed.value) { return false; }
    var lines := if typed.None? then [] else Input.Handled(s, typed.value);
    var room := console.game.HasRoom(RECEIVE_MAX);
    var time := console.loop.WillPass(delays);
    able := console.input.write.byteCount + |Join(NUL, lines)| + console.loop.WriteFrame() < BYTE_LIMIT && room && time;
  }

  /** main, its server and its splitter before the first run. */
  method Begin() returns (server: Server.Reframer, splitter: Input.Splitter, console: Console.Console)
    ensures Together(server, splitter, console, Idle())
    ensures fresh(Fixed(server, splitter, console)) && fresh(console.input.Repr) && fresh(console.game.Repr)
  {
    hide Console.Console.Valid;
    console := Console.Boot();
    server := new Server.Reframer();
    splitter := new Input.Splitter();
    assert Idle().client == Blank() && Idle().serverBuf == [];
  }

  /** The moves taken are the steps' moves. */
  ghost predicate Follow(moves: seq<Move>, steps: seq<Step>) {
    |steps| <= |moves| && forall i :: 0 <= i < |steps| ==> Is(moves[i], steps[i])
  }

  /** Any execution of the program: it takes the moves one after another until one cannot be
      made, and at the end its objects are where the machine is after the same steps. */
  method Execute(strtol: Bytes -> int, framerate: nat, moves: seq<Move>)
    returns (server: Server.Reframer, splitter: Input.Splitter, console: Console.Console, w: World, steps: seq<Step>)
    requires 1 <= framerate <= 255
    ensures GoodSteps(steps) && w == Run(strtol, framerate, steps) && Together(server, splitter, console, w)
    ensures Follow(moves, steps)
    ensures |steps| < |moves| ==> !Able(framerate, splitter, console, moves[|steps|])
  {
    hide *;
    server, splitter, console := Begin();
    w, steps := Idle(), [];
    Started(strtol, framerate, moves);
    while |steps| < |moves|
      invariant At(strtol, framerate, moves, steps, w) && Together(server, splitter, console, w)
      invariant fresh(Fixed(server, splitter, console)) && fresh(console.input.Repr) && fresh(console.game.Repr)
      decreases |moves| - |steps|
    {
      AtMeans(strtol, framerate, moves, steps, w);
      PartsOf(server, splitter, console, w);
      var able := CanMove(framerate, splitter, console, moves[|steps|]);
      if !able { return; }
      var v, step := Take(strtol, framerate, server, splitter, console, w, moves[|steps|]);
      Further(strtol, framerate, moves, steps, w, step);
      w, steps := v, steps + [step];
    }
    AtMeans(strtol, framerate, moves, steps, w);
  }

  /** After these steps, which are the first moves, the machine is in w. */
  ghost predicate At(strtol: Bytes -> int, framerate: nat, moves: seq<Move>, steps: seq<Step>, w: World) {
    Follow(moves, steps) && GoodSteps(steps) && w == Run(strtol, framerate, steps) && Inv(strtol, framerate, w)
  }

  lemma AtMeans(strtol: Bytes -> int, framerate: nat, moves: seq<Move>, steps: seq<Step>, w: World)
    requires At(strtol, framerate, moves, steps, w)
    ensures |steps| <= |moves| && Follow(moves, steps) && GoodSteps(steps)
    ensures w == Run(strtol, framerate, steps) && Inv(strtol, framerate, w)
  {
  }

  /** So the theorems about executions are theorems about the objects: the player's log is a
      prefix of what the input log's read cursor has passed. */
  lemma ObjectsInOrder(strtol: Bytes -> int, framerate: nat, steps: seq<Step>,
                       server: Server.Reframer, splitter: Input.Splitter, console: Console.Console)
    requires GoodSteps(steps) && Together(server, splitter, console, Run(strtol, framerate, steps))
    ensures console.input.read.commandCount <= |console.input.cmds|
    ensures Log(console.game.logs, 0) <= console.input.cmds[..console.input.read.commandCount]
  {
    EndToEnd.PrefixChain(strtol, framerate, steps);
    var w := Run(strtol, framerate, steps);
    assert w.client.input == console.input.cmds && w.client.logs == console.game.logs;
  }

  lemma PartsOf(server: Server.Reframer, splitter: Input.Splitter, console: Console.Console, w: World)
    requires Together(server, splitter, console, w)
    ensures splitter.Valid() && console.Valid() && (console.loop.running ==> console.loop.Ticking())
  {
  }

  lemma Started(strtol: Bytes -> int, framerate: nat, moves: seq<Move>)
    ensures At(strtol, framerate, moves, [], Idle())
  {
    IdleInv(strtol, framerate);
    hide Idle, RunFrom, Inv;
    Startup.RunFromNothing(strtol, framerate, Idle());
  }

  lemma Further(strtol: Bytes -> int, framerate: nat, moves: seq<Move>, steps: seq<Step>, w: World, s: Step)
    requires At(strtol, framerate, moves, steps, w) && |steps| < |moves| && Is(moves[|steps|], s) && GoodStep(s)
    requires WellFormed(w.client) ==> Inv(strtol, framerate, Pipeline.Next(strtol, framerate, w, s))
    ensures WellFormed(w.client)
    ensures At(strtol, framerate, moves, steps + [s], Pipeline.Next(strtol, framerate, w, s))
  {
    Startup.NotCrashed(strtol, framerate, w);
    GoodAlso(steps, s);
    hide Pipeline.Next, Inv, RunFrom, GoodSteps, GoodStep, Idle, WellFormed;
    EndToEnd.RunFromAppend(strtol, framerate, Idle(), steps, [s]);
    Oversized.OneStep(strtol, framerate, w, s);
  }

  lemma GoodAlso(steps: seq<Step>, s: Step)
    requires GoodSteps(steps) && GoodStep(s)
    ensures GoodSteps(steps + [s])
  {
  }
}
