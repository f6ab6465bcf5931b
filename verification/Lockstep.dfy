/** What the client does, as functions on values: decoding its receive buffer into the
    players' logs (connection.c), and one pass of the simulation loop (main.c, loop.c).
    The classes in Connection.dfy and Console.dfy are proved to compute these functions. */
module Lockstep {
  import opened Bytes
  import opened Frames

  const UINT32_MAX := 0xFFFF_FFFF
  const FRAME_BUF_LEN := 4096

  const SPACE: byte := 32
  const BANG: byte := 33
  const QUIT: byte := 113
  const RELOAD: byte := 114
  const SIMULATION: byte := 115

  type Commands = seq<Bytes>

  /** One log per player id; None until the player is first heard from. */
  type Logs = logs: seq<Option<Commands>> | |logs| == MAX_PLAYER witness [None, None, None, None]

  function NoLogs(): (logs: Logs)
    ensures forall i :: 0 <= i < MAX_PLAYER ==> logs[i] == None
  {
    seq(MAX_PLAYER, i => None)
  }

  function Rewound(): (cursors: seq<nat>)
    ensures |cursors| == MAX_PLAYER && forall i :: 0 <= i < MAX_PLAYER ==> cursors[i] == 0
  {
    seq(MAX_PLAYER, i => 0)
  }

  // ---- connection_processing

  /** Drained: returned true. NewPlayer: returned false after allocating a log. Undefined: a
      header after which C does not define what the program does. */
  datatype Verdict = Drained | NewPlayer | Crash | Undefined

  datatype Inbox = Inbox(buf: Bytes, logs: Logs, verdict: Verdict)

  function Process(buf: Bytes, logs: Logs): Inbox {
    if Waits(buf) then Inbox(buf, logs, Drained)
    else if 8 + BlockLen(buf) > INT_MAX then Inbox(buf, logs, Undefined)
    else
      var id := PlayerId(buf);
      if id >= MAX_PLAYER then Inbox(buf, logs, Crash)
      else if id < 0 then Inbox(buf, logs, Undefined)
      else if logs[id].None? then Inbox(buf, logs[id := Some([])], NewPlayer)
      else if BlockLen(buf) < 1 then Inbox(buf, logs, Undefined)
      else Process(buf[FrameLen(buf)..], Appended(logs, HeadFrame(buf)))
  }

  function Appended(logs: Logs, f: Frame): Logs
    requires f.id < MAX_PLAYER && logs[f.id].Some?
  {
    logs[f.id := Some(logs[f.id].value + [f.cmd])]
  }

  function Log(logs: Logs, i: nat): Commands
    requires i < MAX_PLAYER
  {
    match logs[i] case None => [] case Some(cmds) => cmds
  }

  /** game_players */
  function CountPlayers(logs: Logs): nat {
    (if logs[0].Some? then 1 else 0) + (if logs[1].Some? then 1 else 0) +
    (if logs[2].Some? then 1 else 0) + (if logs[3].Some? then 1 else 0)
  }

  // ---- one turn

  datatype Counters = Counters(frame: nat, pause: nat, goal: nat)

  const START := Counters(0, 0, 0)

  /** execute_any, as far as the loop can see it: the 's' command sets the simulation goal.
      strtol is the C library's, applied to what follows the first space. */
  function Execute(strtol: Bytes -> int, goal: nat, cmd: Bytes): nat {
    if cmd == [] || cmd[0] != SIMULATION then goal
    else if Find(SPACE, cmd) == |cmd| then UINT32_MAX
    else strtol(cmd[Find(SPACE, cmd) + 1..]) % 0x1_0000_0000
  }

  function ExecuteAll(strtol: Bytes -> int, goal: nat, cmds: Commands): nat
    decreases |cmds|
  {
    if cmds == [] then goal else ExecuteAll(strtol, Execute(strtol, goal, cmds[0]), cmds[1..])
  }

  /** The counters after a turn that executes cmds, one command of every player. */
  function Turn(strtol: Bytes -> int, at: Counters, cmds: Commands): Counters {
    var goal := ExecuteAll(strtol, at.goal, cmds);
    if goal <= at.frame then Counters(at.frame, at.pause + 1, goal) else Counters(at.frame + 1, at.pause, goal)
  }

  /** The counters a run must show after these turns, whatever its timing was. */
  function Replay(strtol: Bytes -> int, turns: seq<Commands>): Counters {
    if turns == [] then START else Turn(strtol, Replay(strtol, turns[..|turns| - 1]), turns[|turns| - 1])
  }

  // ---- the simulation loop

  /** turns and sentAtStart are history: the commands executed by each turn of this run,
      and how much had been sent when it began. at.frame + at.pause counts the turns. */
  datatype Client = Client(
    input: Commands, sent: nat,
    inbox: Bytes, logs: Logs, cursors: seq<nat>,
    players: nat, at: Counters, stall: nat, queue: nat, queueMax: nat,
    running: bool, exiting: bool, crashed: bool,
    turns: seq<Commands>, sentAtStart: nat)

  datatype IO = Failure | Received(bytes: Bytes)

  /** What the outside world does to one pass of the loop. */
  datatype Event = Event(notified: bool, lines: Commands, io: IO)

  /** Crashed: CRASH, or a header after which nothing is defined. */
  datatype Status = Ok | Term | Change | Corrupt | Crashed

  /** loop_halt together with simulation_goal = 0 */
  function Halt(c: Client): Client {
    c.(at := c.at.(goal := 0), running := false)
  }

  /** input_callback */
  function Typed(c: Client, line: Bytes): Client {
    if line == [] || line[0] != BANG then c.(input := c.input + [line])
    else if |line| > 1 && line[1] == QUIT then Halt(c).(exiting := true)
    else if |line| > 1 && line[1] == RELOAD then Halt(c)
    else c
  }

  function TypedAll(c: Client, lines: Commands): Client
    decreases |lines|
  {
    if lines == [] then c else TypedAll(Typed(c, lines[0]), lines[1..])
  }

  /** loop_write_frame */
  function WriteFrame(c: Client): nat {
    c.at.frame + c.at.pause + c.queue
  }

  function Empties(n: nat): (s: Commands)
    ensures |s| == n
  {
    seq(n, i => [])
  }

  /** Empty commands fill the input log up to the target. */
  function Pad(c: Client): Client {
    c.(input := c.input + Empties(Max(WriteFrame(c) - |c.input|, 0)))
  }

  /** connection_sync */
  function Sync(c: Client, target: nat, io: IO): (Client, Status) {
    match io
    case Failure => (c, Term)
    case Received(bytes) =>
      var p := Process(c.inbox + bytes, c.logs);
      var d := c.(inbox := p.buf, logs := p.logs);
      match p.verdict
      case Crash => (d, Crashed)
      case Undefined => (d, Crashed)
      case NewPlayer => (d, Change)
      case Drained =>
        (d.(sent := Max(d.sent, Min(target, |d.input|))), if target > Max(d.sent, |d.input|) then Corrupt else Ok)
  }

  /** The bytes connection_sync writes while the client goes from c to d. */
  function Written(c: Client, d: Client): Bytes {
    if c.sent <= d.sent <= |d.input| then Join(NUL, d.input[c.sent..d.sent]) else []
  }

  /** How far player i's log is ahead of the simulation. */
  function Ahead(c: Client, i: nat): int
    requires i < MAX_PLAYER && |c.cursors| == MAX_PLAYER
  {
    |Log(c.logs, i)| - c.cursors[i]
  }

  /** command_preview, over the players below n */
  function Nearest(c: Client, n: nat): int
    requires n <= MAX_PLAYER && |c.cursors| == MAX_PLAYER
  {
    if n == 0 then c.queueMax else Min(Ahead(c, n - 1), Nearest(c, n - 1))
  }

  function Farthest(c: Client, n: nat): int
    requires n <= MAX_PLAYER && |c.cursors| == MAX_PLAYER
  {
    if n == 0 then 0 else Max(Ahead(c, n - 1), Farthest(c, n - 1))
  }

  /** The next unread command of every player. */
  function NextCommands(c: Client): (cmds: Commands)
    requires c.players <= MAX_PLAYER && |c.cursors| == MAX_PLAYER
    requires forall i :: 0 <= i < c.players ==> c.cursors[i] < |Log(c.logs, i)|
    ensures |cmds| == c.players
  {
    seq(c.players, i requires 0 <= i < c.players => Log(c.logs, i)[c.cursors[i]])
  }

  /** The bytes command_frame needs for these commands. */
  function PackedLen(cmds: Commands): nat {
    if cmds == [] then 0 else PackedLen(cmds[..|cmds| - 1]) + |cmds[|cmds| - 1]| + 1
  }

  /** That is what the commands take with a NUL behind each. */
  lemma {:induction false} PackedLenIs(cmds: Commands)
    ensures PackedLen(cmds) == |Join(NUL, cmds)|
    decreases |cmds|
  {
    if cmds != [] {
      var front, last := cmds[..|cmds| - 1], cmds[|cmds| - 1];
      PackedLenIs(front);
      assert cmds == front + [last];
      hide Join;
      JoinAppend(NUL, front, [last]);
      JoinOne(NUL, last);
      JoinNone();
    } else {
      JoinNone();
    }
  }

  lemma JoinNone()
    ensures Join(NUL, []) == []
  {
  }

  lemma {:induction false} NearestBound(c: Client, n: nat, i: nat)
    requires n <= MAX_PLAYER && |c.cursors| == MAX_PLAYER && i < n
    ensures Nearest(c, n) <= Ahead(c, i) <= Farthest(c, n)
  {
    if i < n - 1 {
      NearestBound(c, n - 1, i);
    }
  }

  function Advanced(cursors: seq<nat>, n: nat): (r: seq<nat>)
    requires n <= |cursors|
    ensures |r| == |cursors|
  {
    seq(|cursors|, i requires 0 <= i < |cursors| => if i < n then cursors[i] + 1 else cursors[i])
  }

  ghost predicate WellFormed(c: Client) {
    && c.players <= MAX_PLAYER && |c.cursors| == MAX_PLAYER
    && forall i :: 0 <= i < MAX_PLAYER ==> c.cursors[i] <= |Log(c.logs, i)|
  }

  /** From command_preview to the end of the loop body. */
  function PlayTurn(strtol: Bytes -> int, c: Client): Client
    requires WellFormed(c)
  {
    if Nearest(c, c.players) == 0 then
      c.(stall := c.stall + 1, queue := Min(c.queue + 1, c.queueMax))
    else
      var cmds := Unread(c);
      if PackedLen(cmds) > FRAME_BUF_LEN then c.(crashed := true)
      else c.(cursors := Advanced(c.cursors, c.players), at := Turn(strtol, c.at, cmds), turns := c.turns + [cmds])
  }

  /** NextCommands where the preview found one for everybody. */
  function Unread(c: Client): Commands
    requires WellFormed(c) && Nearest(c, c.players) != 0
  {
    UnreadEverywhere(c);
    NextCommands(c)
  }

  lemma PlayTurnCases(strtol: Bytes -> int, c: Client)
    requires WellFormed(c)
    ensures Nearest(c, c.players) == 0 ==>
              PlayTurn(strtol, c) == c.(stall := c.stall + 1, queue := Min(c.queue + 1, c.queueMax))
    ensures Nearest(c, c.players) != 0 ==>
              var cmds := Unread(c);
              && |cmds| == c.players
              && (PackedLen(cmds) > FRAME_BUF_LEN ==> PlayTurn(strtol, c).crashed)
              && (PackedLen(cmds) <= FRAME_BUF_LEN ==>
                    PlayTurn(strtol, c) == c.(cursors := Advanced(c.cursors, |cmds|), at := Turn(strtol, c.at, cmds),
                                              turns := c.turns + [cmds]))
  {
  }

  /** A stall counts and gives the input queue one step back, up to its maximum. */
  lemma StallRefills(strtol: Bytes -> int, c: Client)
    requires WellFormed(c) && Nearest(c, c.players) == 0 && c.queue <= c.queueMax
    ensures var f := PlayTurn(strtol, c);
            && f.stall == c.stall + 1 && f.queue <= f.queueMax == c.queueMax
            && (c.queue < c.queueMax ==> f.queue == c.queue + 1)
            && f == c.(stall := f.stall, queue := f.queue)
  {
  }

  lemma UnreadEverywhere(c: Client)
    requires WellFormed(c) && Nearest(c, c.players) != 0
    ensures forall i :: 0 <= i < c.players ==> c.cursors[i] < |Log(c.logs, i)|
  {
    NearestSign(c, c.players);
    forall i | 0 <= i < c.players
      ensures c.cursors[i] < |Log(c.logs, i)|
    {
      NearestBound(c, c.players, i);
    }
  }

  lemma {:induction false} NearestSign(c: Client, n: nat)
    requires WellFormed(c) && n <= MAX_PLAYER
    ensures Nearest(c, n) >= 0
  {
    if n > 0 {
      NearestSign(c, n - 1);
    }
  }

  /** The part of a pass that comes before the network: notify_poll, input_poll, padding. */
  function Prepared(c: Client, e: Event): Client {
    Pad(TypedAll(if e.notified then Halt(c) else c, e.lines))
  }

  /** One pass of the loop in game_simulation. */
  function Pass(strtol: Bytes -> int, c: Client, e: Event): Client
    requires WellFormed(c)
  {
    var p := Prepared(c, e);
    PreparedKeeps(c, e);
    var (d, status) := Sync(p, WriteFrame(p), e.io);
    SyncKeeps(p, WriteFrame(p), e.io);
    AfterSync(strtol, d, status)
  }

  /** The switch on connection_sync's status, and the turn if it is CONN_OK. */
  function AfterSync(strtol: Bytes -> int, d: Client, status: Status): Client
    requires WellFormed(d)
  {
    match status
    case Corrupt => d.(running := false, exiting := true)
    case Term => d.(running := false, exiting := true)
    case Change => d.(running := false)
    case Crashed => d.(crashed := true)
    case Ok => PlayTurn(strtol, d)
  }

  /** main's restart loop and the head of the next game_simulation. */
  function Restart(c: Client, framerate: nat): Client {
    c.(cursors := Rewound(), players := CountPlayers(c.logs), at := START, stall := 0,
       queue := framerate, queueMax := framerate, running := true,
       turns := [], sentAtStart := c.sent)
  }

  /** The program before its first run. */
  function Blank(): Client {
    Client([], 0, [], NoLogs(), Rewound(), 0, START, 0, 0, 0, false, false, false, [], 0)
  }

  /** game_players counts the ids whose log exists. */
  lemma CountIs(logs: Logs)
    ensures CountPlayers(logs) == |set i: nat | i < 4 && logs[i].Some?|
  {
    assert Existing(logs, 0) == {};
    OneMoreId(logs, 0);
    OneMoreId(logs, 1);
    OneMoreId(logs, 2);
    OneMoreId(logs, 3);
    assert (set i: nat | i < 4 && logs[i].Some?) == Existing(logs, 4);
  }

  function Existing(logs: Logs, n: nat): set<nat>
    requires n <= MAX_PLAYER
  {
    set i: nat | i < n && logs[i].Some?
  }

  lemma OneMoreId(logs: Logs, n: nat)
    requires n < MAX_PLAYER
    ensures |Existing(logs, n + 1)| == |Existing(logs, n)| + (if logs[n].Some? then 1 else 0)
  {
    assert Existing(logs, n + 1) == Existing(logs, n) + (if logs[n].Some? then {n} else {});
  }

  /** The preview's counts are those of some player, or the values it starts from. */
  lemma {:induction false} PreviewAttained(c: Client, n: nat)
    requires n <= MAX_PLAYER && |c.cursors| == MAX_PLAYER
    ensures Nearest(c, n) <= c.queueMax && Farthest(c, n) >= 0
    ensures Nearest(c, n) == c.queueMax || exists i :: 0 <= i < n && Nearest(c, n) == Ahead(c, i)
    ensures Farthest(c, n) == 0 || exists i :: 0 <= i < n && Farthest(c, n) == Ahead(c, i)
  {
    if n > 0 {
      PreviewAttained(c, n - 1);
      assert Nearest(c, n) == Ahead(c, n - 1) || Nearest(c, n) == Nearest(c, n - 1);
      assert Farthest(c, n) == Ahead(c, n - 1) || Farthest(c, n) == Farthest(c, n - 1);
    }
  }

  // ---- what decoding and preparing leave alone

  ghost predicate Grows(a: Option<Commands>, b: Option<Commands>) {
    a.Some? ==> b.Some? && a.value <= b.value
  }

  lemma {:induction false} ProcessGrows(buf: Bytes, logs: Logs)
    ensures var p := Process(buf, logs);
            && (forall i :: 0 <= i < MAX_PLAYER ==> Grows(logs[i], p.logs[i]))
            && (p.verdict == Drained ==> forall i :: 0 <= i < MAX_PLAYER ==> logs[i].Some? == p.logs[i].Some?)
    decreases |buf|
  {
    if HasFrame(buf) {
      var f := HeadFrame(buf);
      if f.id < MAX_PLAYER && logs[f.id].Some? {
        ProcessGrows(buf[FrameLen(buf)..], Appended(logs, f));
      }
    }
  }

  lemma {:induction false} TypedAllKeeps(c: Client, lines: Commands)
    ensures var d := TypedAll(c, lines);
            && d == c.(input := d.input, at := c.at.(goal := d.at.goal), running := d.running, exiting := d.exiting)
            && c.input <= d.input
            && (d.running ==> d.at == c.at && c.running)
    decreases |lines|
  {
    if lines != [] {
      TypedAllKeeps(Typed(c, lines[0]), lines[1..]);
    }
  }

  lemma PreparedKeeps(c: Client, e: Event)
    ensures var d := Prepared(c, e);
            && d == c.(input := d.input, at := c.at.(goal := d.at.goal), running := d.running, exiting := d.exiting)
            && c.input <= d.input && |d.input| >= WriteFrame(d)
            && (d.running ==> d.at == c.at && c.running)
  {
    TypedAllKeeps(if e.notified then Halt(c) else c, e.lines);
  }

  lemma SyncKeeps(c: Client, target: nat, io: IO)
    requires WellFormed(c)
    ensures var (d, status) := Sync(c, target, io);
            && d == c.(inbox := d.inbox, logs := d.logs, sent := d.sent)
            && WellFormed(d)
            && (forall i :: 0 <= i < MAX_PLAYER ==> Grows(c.logs[i], d.logs[i]))
            && (status == Ok || status == Corrupt || status == Term ==> CountPlayers(c.logs) == CountPlayers(d.logs))
  {
    if io.Received? {
      ProcessGrows(c.inbox + io.bytes, c.logs);
    }
  }
}
