/** main.c: the game console, over the connection, the logs and the loop. Every method is
    proved to take the client's state where the functions of Lockstep.dfy say. */
module Console {
  import opened Bytes
  import opened Frames
  import opened Records
  import opened Lockstep
  import opened Players
  import opened Connection
  import opened Loop
  import Words

  /** main, up to its restart loop. */
  method Boot() returns (console: Console)
    ensures console.Valid() && console.state == Blank()
    ensures fresh(console) && fresh(console.conn) && fresh(console.conn.receiveBuffer)
    ensures fresh(console.loop) && fresh(console.loop.clock)
    ensures fresh(console.input) && fresh(console.input.Repr) && fresh(console.game) && fresh(console.game.Repr)
  {
    var conn := new Connection();
    var loop := new GameLoop();
    var input := new RecordRW.WithRecord();
    var game := new GameRecord();
    console := new Console(conn, loop, input, game);
  }

  /** A pass as far as its connection_sync. */
  function Synced(c: Client, e: Event): (Client, Status) {
    Sync(Prepared(c, e), WriteFrame(Prepared(c, e)), e.io)
  }

  lemma WrittenSame(c: Client, p: Client)
    requires c.sent == p.sent
    ensures forall d :: Written(c, d) == Written(p, d)
  {
  }

  /** What connection_sync reports is what Sync says. */
  lemma SyncIs(c: Client, target: nat, io: IO, status: Status, inbox: Bytes, logs: Logs, sent: nat)
    requires io.Failure? ==> status == Term && inbox == c.inbox && logs == c.logs
    requires io.Received? ==>
               var p := Process(c.inbox + io.bytes, c.logs);
               && inbox == p.buf && logs == p.logs
               && (p.verdict == Crash || p.verdict == Undefined ==> status == Crashed)
               && (p.verdict == NewPlayer ==> status == Change)
               && (p.verdict == Drained ==> status == if target > Max(c.sent, |c.input|) then Corrupt else Ok)
    requires sent == if status == Ok || status == Corrupt then Max(c.sent, Min(target, |c.input|)) else c.sent
    requires c.sent <= |c.input|
    ensures Sync(c, target, io) == (c.(inbox := inbox, logs := logs, sent := sent), status)
    ensures c.sent <= sent <= |c.input|
    ensures Written(c, c.(inbox := inbox, logs := logs, sent := sent)) == Join(NUL, c.input[c.sent..sent])
  {
    hide Process, Join;
  }

  class Console {
    const conn: Connection
    const input: RecordRW
    const game: GameRecord
    const loop: GameLoop
    var playerCount: nat
    var simulationGoal: nat
    var exiting: bool
    var crashed: bool
    ghost var turns: seq<Commands>
    ghost var sentAtStart: nat
    ghost var state: Client  // what the fields amount to, as Lockstep.dfy describes it

    ghost predicate Apart(s: set<object>) {
      this !in s && conn !in s && conn.receiveBuffer !in s && loop !in s && loop.clock !in s
    }

    /** The connection and the logs are sound and share no memory. */
    ghost predicate PartsValid()
      reads conn, conn.receiveBuffer, input, input.Repr, game, game.Repr
    {
      && conn.Valid() && game.Valid() && input.Valid() && input.rec != null
      && input.Repr !! game.Repr && Apart(input.Repr) && Apart(game.Repr)
    }

    ghost predicate Valid()
      reads this, conn, conn.receiveBuffer, input, input.Repr, game, game.Repr, loop
    {
      && PartsValid() && playerCount <= MAX_PLAYER
      && state == Client(input.cmds, input.read.commandCount, conn.inbox, game.logs, game.cursors,
                         playerCount, Counters(loop.frame, loop.pauseFrame, simulationGoal), loop.stallFrame,
                         loop.inputQueue, loop.inputQueueMax, loop.running, exiting, crashed, turns, sentAtStart)
    }

    /** Before the first run: an empty input log and no players. */
    constructor (conn: Connection, loop: GameLoop, input: RecordRW, game: GameRecord)
      requires conn.Valid() && conn.inbox == []
      requires input.Valid() && input.rec != null && input.cmds == [] && input.read == ORIGIN
      requires game.Valid() && game.logs == NoLogs() && game.cursors == Rewound()
      requires !loop.running && loop.frame == loop.pauseFrame == loop.stallFrame == 0
      requires loop.inputQueue == loop.inputQueueMax == 0
      requires input.Repr !! game.Repr
      requires conn !in input.Repr && conn.receiveBuffer !in input.Repr
      requires loop !in input.Repr && loop.clock !in input.Repr
      requires conn !in game.Repr && conn.receiveBuffer !in game.Repr && loop !in game.Repr && loop.clock !in game.Repr
      ensures Valid() && state == Blank()
      ensures this.conn == conn && this.loop == loop && this.input == input && this.game == game
    {
      this.conn, this.loop, this.input, this.game := conn, loop, input, game;
      playerCount, simulationGoal, exiting, crashed := 0, 0, false, false;
      turns, sentAtStart, state := [], 0, Blank();
    }

    /** simulation_goal = 0 and loop_halt, as in notify_callback and the meta commands. */
    method HaltSimulation()
      requires Valid()
      modifies this`simulationGoal, this`state, loop`running
      ensures Valid() && state == Halt(old(state))
    {
      hide GameRecord.Valid, RecordRW.Valid, Connection.Valid;
      simulationGoal := 0;
      loop.Halt();
      state := Halt(state);
    }

    method Exit()
      requires Valid()
      modifies this`exiting, this`state
      ensures Valid() && state == old(state).(exiting := true)
    {
      hide GameRecord.Valid, RecordRW.Valid, Connection.Valid;
      exiting := true;
      state := state.(exiting := true);
    }

    method StopLoop()
      requires Valid()
      modifies this`state, loop`running
      ensures Valid() && state == old(state).(running := false)
    {
      hide GameRecord.Valid, RecordRW.Valid, Connection.Valid;
      loop.Halt();
      state := state.(running := false);
    }

    method Crash()
      requires Valid()
      modifies this`crashed, this`state
      ensures Valid() && state == old(state).(crashed := true)
    {
      hide GameRecord.Valid, RecordRW.Valid, Connection.Valid;
      crashed := true;
      state := state.(crashed := true);
    }

    method RecordInput(line: Bytes)
      requires Valid() && Free(NUL, line) && |line| + 1 <= ALLOC_MIN
      requires input.write.byteCount + |line| + 1 < BYTE_LIMIT
      modifies this`state, input.Repr
      ensures Valid() && fresh(input.Repr - old(input.Repr))
      ensures state == old(state).(input := old(state).input + [line])
      ensures input.write.byteCount == old(input.write.byteCount) + |line| + 1
    {
      input.Append(line);
      state := state.(input := state.input + [line]);
    }

    /** input_callback */
    method InputCallback(line: Bytes)
      requires Valid() && Free(NUL, line) && |line| + 1 <= ALLOC_MIN
      requires input.write.byteCount + |line| + 1 < BYTE_LIMIT
      modifies this`simulationGoal, this`exiting, this`state, loop`running, input.Repr
      ensures Valid() && fresh(input.Repr - old(input.Repr)) && state == Typed(old(state), line)
      ensures input.write.byteCount <= old(input.write.byteCount) + |line| + 1
    {
      hide Valid, Join;
      if line == [] || line[0] != BANG {
        RecordInput(line);
      } else if |line| > 1 && line[1] == QUIT {
        HaltSimulation();
        Exit();
      } else if |line| > 1 && line[1] == RELOAD {
        HaltSimulation();
      }
    }

    /** input_poll's calls of input_callback. */
    method InputLines(lines: Commands)
      requires Valid() && forall i :: 0 <= i < |lines| ==> Free(NUL, lines[i]) && |lines[i]| + 1 <= ALLOC_MIN
      requires input.write.byteCount + |Join(NUL, lines)| < BYTE_LIMIT
      modifies this`simulationGoal, this`exiting, this`state, loop`running, input.Repr
      ensures Valid() && fresh(input.Repr - old(input.Repr)) && state == TypedAll(old(state), lines)
      ensures input.write.byteCount <= old(input.write.byteCount) + |Join(NUL, lines)|
    {
      hide Valid;
      var i := 0;
      while i < |lines|
        invariant i <= |lines| && Valid() && fresh(input.Repr - old(input.Repr))
        invariant input.write.byteCount + |Join(NUL, lines[i..])| <= old(input.write.byteCount) + |Join(NUL, lines)|
        invariant TypedAll(state, lines[i..]) == TypedAll(old(state), lines)
      {
        assert lines[i..][0] == lines[i] && lines[i..][1..] == lines[i + 1..];
        InputCallback(lines[i]);
        i := i + 1;
      }
    }

    lemma WriteCount()
      requires Valid()
      ensures input.write.commandCount == |state.input|
    {
    }

    /** Empty commands until the input log reaches the target. */
    method PadInput(target: nat)
      requires Valid() && input.write.byteCount + target < BYTE_LIMIT && target == WriteFrame(state)
      modifies this`state, input.Repr
      ensures Valid() && fresh(input.Repr - old(input.Repr)) && state == Pad(old(state))
    {
      hide Valid;
      ghost var from, bytes := state.input, input.write.byteCount;
      while target > input.write.commandCount
        invariant Valid() && fresh(input.Repr - old(input.Repr))
        invariant |from| <= |state.input| <= Max(target, |from|)
        invariant state == old(state).(input := from + Empties(|state.input| - |from|))
        invariant input.write.byteCount == bytes + |state.input| - |from|
        decreases target - |state.input|
      {
        WriteCount();
        RecordInput([]);
      }
      WriteCount();
    }

    /** The connection_sync of one pass. */
    method Exchange(target: nat, io: IO) returns (status: Status, written: Bytes)
      requires Valid() && conn.Fits(game, io)
      modifies this`state, conn, conn.receiveBuffer, game.Repr, input`read
      ensures Valid() && fresh(game.Repr - old(game.Repr))
      ensures input.Repr == old(input.Repr)
      ensures (state, status) == Sync(old(state), target, io) && written == Written(old(state), state)
      ensures unchanged(loop) && unchanged(loop.clock)
    {
      InputCount();
      hide PartsValid, Connection.Fits, Sync, Written;
      status, written := ExchangeParts(target, io, state);
      state := state.(inbox := conn.inbox, logs := game.logs, sent := input.read.commandCount);
    }

    method ExchangeParts(target: nat, io: IO, ghost c: Client) returns (status: Status, written: Bytes)
      requires PartsValid() && conn.Fits(game, io) && input in input.Repr
      requires c.input == input.cmds && c.sent == input.read.commandCount <= |c.input|
      requires c.inbox == conn.inbox && c.logs == game.logs
      modifies conn, conn.receiveBuffer, game.Repr, input`read
      ensures PartsValid() && fresh(game.Repr - old(game.Repr)) && game.cursors == old(game.cursors)
      ensures input.Repr == old(input.Repr)
      ensures var d := c.(inbox := conn.inbox, logs := game.logs, sent := input.read.commandCount);
              Sync(c, target, io) == (d, status) && written == Written(c, d)
      ensures unchanged(loop) && unchanged(loop.clock) && unchanged(this)
    {
      hide Process, Join, GameRecord.Valid, RecordRW.Valid, Connection.Valid, Connection.Fits, Sync, Written;
      status, written := conn.Sync(target, input, game, io);
      SyncIs(c, target, io, status, conn.inbox, game.logs, input.read.commandCount);
    }

    lemma InputCount()
      requires Valid()
      ensures input in input.Repr && state.sent <= |state.input|
    {
    }

    lemma WriteFrameCount()
      requires Valid()
      ensures loop.WriteFrame() == WriteFrame(state)
    {
    }

    lemma StateWellFormed()
      requires Valid()
      ensures WellFormed(state)
    {
      hide RecordRW.Valid;
      forall i | 0 <= i < MAX_PLAYER
        ensures state.cursors[i] <= |Log(state.logs, i)|
      {
        game.Behind(i);
      }
    }

    /** command_preview: the least and the greatest number of unread commands of a player. */
    method CommandPreview() returns (nearest: int, farthest: int)
      requires Valid()
      ensures nearest == Nearest(state, playerCount) && farthest == Farthest(state, playerCount)
    {
      StateWellFormed();
      hide GameRecord.Valid, RecordRW.Valid, Connection.Valid;
      nearest, farthest := loop.inputQueueMax, 0;
      for i := 0 to playerCount
        invariant nearest == Nearest(state, i) && farthest == Farthest(state, i)
      {
        var ahead := game.Unread(i);
        farthest := Max(ahead, farthest);
        nearest := Min(ahead, nearest);
      }
    }

    /** A non-zero preview means that every player has a next command. */
    lemma PreviewMeansNext()
      requires Valid() && Nearest(state, playerCount) != 0
      ensures WellFormed(state) && NextCommandsAre(game.logs, game.cursors, Unread(state))
      ensures |Unread(state)| == playerCount == state.players
    {
      StateWellFormed();
      UnreadEverywhere(state);
    }

    /** command_frame, of the players of this run. */
    method TakeFrame(ghost cmds: Commands) returns (ok: bool, buffer: array<byte>, starts: seq<nat>, lens: seq<nat>)
      requires Valid() && |cmds| == playerCount && NextCommandsAre(game.logs, game.cursors, cmds)
      modifies this`state, game.Repr
      ensures Valid() && fresh(buffer) && unchanged(loop) && unchanged(loop.clock)
      ensures input.Repr == old(input.Repr) && game.Repr == old(game.Repr)
      ensures ok <==> PackedLen(cmds) <= FRAME_BUF_LEN
      ensures ok ==> Packed(buffer[..], starts, lens, cmds)
                     && |old(state).cursors| == MAX_PLAYER
                     && state == old(state).(cursors := Advanced(old(state).cursors, |cmds|))
    {
      hide GameRecord.Valid, RecordRW.Valid, Connection.Valid, Packed, PackedLen, Advanced;
      ok, buffer, starts, lens := CommandFrame(game, playerCount, cmds);
      state := state.(cursors := game.cursors);
    }

    /** The execute_any calls of one turn, on the commands as they lie in the frame. */
    method ExecuteFrame(strtol: Bytes -> int, buffer: array<byte>, starts: seq<nat>, lens: seq<nat>,
                        ghost cmds: Commands)
      requires Valid() && Packed(buffer[..], starts, lens, cmds)
      modifies this`simulationGoal, this`state
      ensures Valid()
      ensures state == old(state).(at := old(state).at.(goal := ExecuteAll(strtol, old(state).at.goal, cmds)))
    {
      hide GameRecord.Valid, RecordRW.Valid, Connection.Valid;
      var goal := simulationGoal;
      assert cmds[0..] == cmds;
      for i := 0 to |starts|
        invariant ExecuteAll(strtol, simulationGoal, cmds) == ExecuteAll(strtol, goal, cmds[i..])
      {
        assert PackedAt(buffer[..], starts[i], lens[i], cmds, i);
        assert buffer[starts[i]..starts[i] + lens[i]] == buffer[..][starts[i]..starts[i] + lens[i]] == cmds[i];
        assert cmds[i..][0] == cmds[i] && cmds[i..][1..] == cmds[i + 1..];
        goal := Execute(strtol, goal, buffer[starts[i]..starts[i] + lens[i]]);
      }
      simulationGoal := goal;
      state := state.(at := state.at.(goal := goal));
    }

    /** command_frame, and the execution of what it packed. */
    method ExecuteTurn(strtol: Bytes -> int, ghost cmds: Commands) returns (ok: bool)
      requires Valid() && |cmds| == playerCount && NextCommandsAre(game.logs, game.cursors, cmds)
      modifies this`simulationGoal, this`state, game.Repr
      ensures Valid() && unchanged(loop) && unchanged(loop.clock)
      ensures input.Repr == old(input.Repr) && game.Repr == old(game.Repr)
      ensures ok <==> PackedLen(cmds) <= FRAME_BUF_LEN
      ensures var c := old(state);
              |c.cursors| == MAX_PLAYER
              && (ok ==> state == c.(cursors := Advanced(c.cursors, |cmds|),
                                     at := c.at.(goal := ExecuteAll(strtol, c.at.goal, cmds))))
    {
      game.CursorCount();
      hide Valid, NextCommandsAre, Packed, PackedLen, Advanced, ExecuteAll;
      var buffer, starts, lens;
      ok, buffer, starts, lens := TakeFrame(cmds);
      if ok {
        ExecuteFrame(strtol, buffer, starts, lens, cmds);
      }
    }

    /** loop_pause or loop_sync, according to the simulation goal. */
    method EndTurn(ghost cmds: Commands, delays: seq<nat>)
      requires Valid() && loop.Ticking() && loop.Passes(delays)
      modifies this`turns, this`state, loop`frame, loop`pauseFrame, loop`now, loop`sleepUsec, loop.clock
      ensures Valid() && loop.Ticking()
      ensures var at := old(state).at;
              state == old(state).(turns := old(state).turns + [cmds],
                                   at := if at.goal <= at.frame then at.(pause := at.pause + 1)
                                         else at.(frame := at.frame + 1))
    {
      hide GameRecord.Valid, RecordRW.Valid, Connection.Valid;
      loop.Finish(simulationGoal, delays);
      turns := turns + [cmds];
      state := state.(turns := turns, at := Counters(loop.frame, loop.pauseFrame, simulationGoal));
    }

    /** The stall branch of the loop. */
    method StallTurn(delays: seq<nat>)
      requires Valid() && loop.Ticking() && loop.Passes(delays)
      modifies this`state, loop`inputQueue, loop`stallFrame, loop`now, loop`sleepUsec, loop.clock
      ensures Valid() && loop.Ticking()
      ensures var c := old(state);
              state == c.(stall := c.stall + 1, queue := Min(c.queue + 1, c.queueMax))
    {
      hide GameRecord.Valid, RecordRW.Valid, Connection.Valid;
      loop.inputQueue := Min(loop.inputQueue + 1, loop.inputQueueMax);
      loop.Stall(delays);
      state := state.(stall := state.stall + 1, queue := Min(state.queue + 1, state.queueMax));
    }

    /** One command of every player, up to the wait for the clock. */
    method TakeTurn(strtol: Bytes -> int, ghost cmds: Commands, delays: seq<nat>)
      requires Valid() && |cmds| == playerCount && NextCommandsAre(game.logs, game.cursors, cmds)
      requires loop.Ticking() && loop.Passes(delays)
      modifies this`simulationGoal, this`crashed, this`turns, this`state, game.Repr, loop, loop.clock
      ensures Valid() && loop.Ticking()
      ensures input.Repr == old(input.Repr) && game.Repr == old(game.Repr)
      ensures var c := old(state);
              |c.cursors| == MAX_PLAYER
              && if PackedLen(cmds) > FRAME_BUF_LEN then state.crashed
                 else state == c.(cursors := Advanced(c.cursors, |cmds|), at := Turn(strtol, c.at, cmds),
                                  turns := c.turns + [cmds])
    {
      hide Valid, GameLoop.Ticking, NextCommandsAre, PackedLen, Advanced, ExecuteAll;
      var ok := ExecuteTurn(strtol, cmds);
      if ok {
        EndTurn(cmds, delays);
      } else {
        Crash();
      }
    }

    /** The rest of the loop body after a non-zero preview. */
    method RunTurn(strtol: Bytes -> int, delays: seq<nat>)
      requires Valid() && WellFormed(state) && Nearest(state, playerCount) != 0
      requires loop.Ticking() && loop.Passes(delays)
      modifies this`simulationGoal, this`crashed, this`turns, this`state, game.Repr, loop, loop.clock
      ensures Valid() && loop.Ticking()
      ensures input.Repr == old(input.Repr) && game.Repr == old(game.Repr)
      ensures var f := Lockstep.PlayTurn(strtol, old(state)); if f.crashed then state.crashed else state == f
    {
      PreviewMeansNext();
      PlayTurnCases(strtol, state);
      hide Valid, GameLoop.Ticking, NextCommandsAre, PackedLen, Advanced, Turn, Nearest, Unread, Lockstep.PlayTurn;
      TakeTurn(strtol, Unread(state), delays);
    }

    /** From command_preview to the end of the loop body, with its wait for the clock. */
    method PlayTurn(strtol: Bytes -> int, delays: seq<nat>)
      requires Valid() && WellFormed(state)
      requires loop.Ticking() && loop.Passes(delays)
      modifies this`simulationGoal, this`crashed, this`turns, this`state, game.Repr, loop, loop.clock
      ensures Valid() && loop.Ticking()
      ensures input.Repr == old(input.Repr) && game.Repr == old(game.Repr)
      ensures var f := Lockstep.PlayTurn(strtol, old(state)); if f.crashed then state.crashed else state == f
    {
      var nearest, farthest := CommandPreview();
      if nearest != 0 {
        hide Valid, GameLoop.Ticking, Nearest, Farthest, Lockstep.PlayTurn;
        RunTurn(strtol, delays);
        return;
      }
      assert state.players == playerCount;
      PlayTurnCases(strtol, state);
      hide Valid, GameLoop.Ticking, Nearest, Farthest, Lockstep.PlayTurn;
      StallTurn(delays);
    }

    /** What the outside world may do to a pass: lines from the splitter that keep the input
        log within the byte limit, and bytes the connection can take. */
    ghost predicate Accepts(e: Event)
      reads conn, game, input, loop
    {
      && (forall i :: 0 <= i < |e.lines| ==> Free(NUL, e.lines[i]) && |e.lines[i]| + 1 <= ALLOC_MIN)
      && input.write.byteCount + |Join(NUL, e.lines)| + loop.WriteFrame() < BYTE_LIMIT
      && conn.Fits(game, e.io)
    }

    /** notify_poll, input_poll and the padding of the input log. */
    method Prepare(e: Event)
      requires Valid() && Accepts(e)
      modifies this`simulationGoal, this`exiting, this`state, loop`running, input.Repr
      ensures Valid() && fresh(input.Repr - old(input.Repr)) && state == Prepared(old(state), e)
      ensures unchanged(conn) && unchanged(conn.receiveBuffer) && unchanged(game)
    {
      hide GameRecord.Valid, RecordRW.Valid, Connection.Valid, Join;
      if e.notified {
        HaltSimulation();
      }
      InputLines(e.lines);
      PadInput(loop.WriteFrame());
    }

    /** A pass up to and including connection_sync. */
    method SyncPass(e: Event) returns (status: Status, written: Bytes)
      requires Valid() && Accepts(e) && loop.Ticking()
      modifies this`simulationGoal, this`exiting, this`state, loop`running, input.Repr
      modifies conn, conn.receiveBuffer, game.Repr
      ensures Valid() && loop.Ticking() && unchanged(loop.clock)
      ensures fresh(input.Repr - old(input.Repr)) && fresh(game.Repr - old(game.Repr))
      ensures (state, status) == Synced(old(state), e) && written == Written(old(state), state)
    {
      InputCount();
      PreparedKeeps(state, e);
      WrittenSame(state, Prepared(state, e));
      hide Valid, GameLoop.Ticking, Prepared, Sync, Written, Connection.Fits, Accepts;
      var target := PrepareTarget(e);
      status, written := Exchange(target, e.io);
    }

    method PrepareTarget(e: Event) returns (target: nat)
      requires Valid() && Accepts(e) && loop.Ticking()
      modifies this`simulationGoal, this`exiting, this`state, loop`running, input.Repr
      ensures Valid() && loop.Ticking() && conn.Fits(game, e.io) && unchanged(conn) && unchanged(game)
      ensures state == Prepared(old(state), e) && target == WriteFrame(state)
      ensures unchanged(loop.clock) && fresh(input.Repr - old(input.Repr))
    {
      assert conn.Fits(game, e.io);
      hide Valid, GameLoop.Ticking, Prepared, Connection.Fits, Accepts;
      Prepare(e);
      WriteFrameCount();
      target := loop.WriteFrame();
    }

    /** A pass after connection_sync: the switch on its status, and the turn. */
    method FinishPass(strtol: Bytes -> int, status: Status, delays: seq<nat>)
      requires Valid() && WellFormed(state)
      requires loop.Ticking() && loop.Passes(delays)
      modifies this, game.Repr, loop, loop.clock
      ensures Valid() && loop.Ticking()
      ensures input.Repr == old(input.Repr) && game.Repr == old(game.Repr)
      ensures var f := AfterSync(strtol, old(state), status); if f.crashed then state.crashed else state == f
    {
      hide Valid, GameLoop.Ticking;
      match status {
        case Corrupt => StopLoop(); Exit();
        case Term => StopLoop(); Exit();
        case Change => StopLoop();
        case Crashed => Crash();
        case Ok => PlayTurn(strtol, delays);
      }
    }

    /** One pass of the loop in game_simulation. delays are the readings of the clock if the
        pass comes to wait for it. */
    method Pass(strtol: Bytes -> int, e: Event, delays: seq<nat>) returns (written: Bytes)
      requires Valid() && WellFormed(state) && state.running && !state.crashed && Accepts(e)
      requires loop.Ticking() && loop.Passes(delays)
      modifies this, conn, conn.receiveBuffer, game.Repr, input.Repr, loop, loop.clock
      ensures Valid() && loop.Ticking()
      ensures fresh(input.Repr - old(input.Repr)) && fresh(game.Repr - old(game.Repr))
      ensures var f := Lockstep.Pass(strtol, old(state), e); if f.crashed then state.crashed else state == f
      ensures written == Written(old(state), state)
    {
      PreparedKeeps(state, e);
      var status;
      status, written := SyncPass(e);
      StateWellFormed();
      FinishPass(strtol, status, delays);
    }

    method BeginRun()
      requires PartsValid()
      modifies this`playerCount, this`simulationGoal, this`turns, this`sentAtStart
      ensures PartsValid() && playerCount == CountPlayers(game.logs) <= MAX_PLAYER
      ensures simulationGoal == 0 && turns == [] && sentAtStart == input.read.commandCount
    {
      hide GameRecord.Valid, RecordRW.Valid, Connection.Valid, CountPlayers;
      playerCount := game.Count();
      simulationGoal, turns, sentAtStart := 0, [], input.read.commandCount;
    }

    method StartLoop(framerate: nat, tscPerUsec: Words.u64, time: nat)
      requires PartsValid()
      requires 1 <= framerate <= 255 && tscPerUsec >= 1 && 1_000_000 / framerate * tscPerUsec < Words.WRAP
      modifies loop, loop.clock
      ensures PartsValid() && loop.Ticking() && loop.running
      ensures loop.frame == loop.pauseFrame == loop.stallFrame == 0
      ensures loop.inputQueue == loop.inputQueueMax == framerate
    {
      hide GameRecord.Valid, RecordRW.Valid, Connection.Valid, GameLoop.Ticking;
      loop.Init(framerate, tscPerUsec, time);
    }

    method SetUpRun(framerate: nat, tscPerUsec: Words.u64, time: nat)
      requires PartsValid()
      requires 1 <= framerate <= 255 && tscPerUsec >= 1 && 1_000_000 / framerate * tscPerUsec < Words.WRAP
      modifies this`playerCount, this`simulationGoal, this`turns, this`sentAtStart, loop, loop.clock
      ensures PartsValid() && loop.Ticking() && loop.running
      ensures playerCount == CountPlayers(game.logs) <= MAX_PLAYER
      ensures simulationGoal == 0 && turns == [] && sentAtStart == input.read.commandCount
      ensures loop.frame == loop.pauseFrame == loop.stallFrame == 0
      ensures loop.inputQueue == loop.inputQueueMax == framerate
    {
      hide PartsValid, GameLoop.Ticking, CountPlayers;
      BeginRun();
      StartLoop(framerate, tscPerUsec, time);
    }

    /** game_simulation as far as its loop. */
    method InitLoop(framerate: nat, tscPerUsec: Words.u64, time: nat)
      requires Valid()
      requires 1 <= framerate <= 255 && tscPerUsec >= 1 && 1_000_000 / framerate * tscPerUsec < Words.WRAP
      modifies this`playerCount, this`simulationGoal, this`turns, this`sentAtStart, this`state, loop, loop.clock
      ensures Valid() && loop.Ticking() && state == Restart(old(state), framerate).(cursors := old(state).cursors)
    {
      SetUpRun(framerate, tscPerUsec, time);
      assert this !in input.Repr && this !in game.Repr;
      hide PartsValid, GameLoop.Ticking, CountPlayers, Rewound;
      state := Restart(state, framerate).(cursors := state.cursors);
    }

    /** The loop in main that rewinds the game logs, and only those. */
    method RewindGame()
      requires Valid()
      modifies this`state, game.Repr
      ensures Valid() && state == old(state).(cursors := Rewound())
      ensures input.Repr == old(input.Repr) && game.Repr == old(game.Repr)
    {
      hide GameRecord.Valid, RecordRW.Valid, Connection.Valid;
      game.Rewind();
      state := state.(cursors := Rewound());
    }

    /** The next run: main's restart loop, and game_simulation as far as its loop. */
    method StartRun(framerate: nat, tscPerUsec: Words.u64, time: nat)
      requires Valid() && !state.running && !state.exiting && !state.crashed
      requires 1 <= framerate <= 255 && tscPerUsec >= 1 && 1_000_000 / framerate * tscPerUsec < Words.WRAP
      modifies this`playerCount, this`simulationGoal, this`turns, this`sentAtStart, this`state
      modifies game.Repr, loop, loop.clock
      ensures Valid() && loop.Ticking() && state == Restart(old(state), framerate)
      ensures input.Repr == old(input.Repr) && game.Repr == old(game.Repr)
    {
      hide Valid, GameLoop.Ticking;
      RewindGame();
      InitLoop(framerate, tscPerUsec, time);
    }
  }
}
