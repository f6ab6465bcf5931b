/** What typing, file changes and the network do to a run and to the program, told from the
    bytes of the lines and not from the functions that handle them. */
module Endings {
  import opened Bytes
  import opened Frames
  import opened Lockstep
  import D = Determinism

  // The meta commands: 33 is '!', 113 is 'q', 114 is 'r'.

  predicate Meta(line: Bytes) { |line| >= 1 && line[0] == 33 }

  predicate Quits(line: Bytes) { |line| >= 2 && line[0] == 33 && line[1] == 113 }

  predicate Halts(line: Bytes) { |line| >= 2 && line[0] == 33 && (line[1] == 113 || line[1] == 114) }

  ghost predicate SomeQuits(lines: Commands) {
    exists i :: 0 <= i < |lines| && Quits(lines[i])
  }

  ghost predicate SomeHalts(lines: Commands) {
    exists i :: 0 <= i < |lines| && Halts(lines[i])
  }

  /** The lines that are commands of the game. */
  function Plain(lines: Commands): Commands {
    if lines == [] then [] else (if Meta(lines[0]) then [] else [lines[0]]) + Plain(lines[1..])
  }

  lemma SomeCons(lines: Commands)
    requires lines != []
    ensures SomeQuits(lines) <==> Quits(lines[0]) || SomeQuits(lines[1..])
    ensures SomeHalts(lines) <==> Halts(lines[0]) || SomeHalts(lines[1..])
  {
    var rest := lines[1..];
    assert forall i :: 0 < i < |lines| ==> lines[i] == rest[i - 1];
    assert forall i :: 0 <= i < |rest| ==> rest[i] == lines[i + 1];
  }

  /** input_callback over all the lines of a poll: any "!q" ends the program, any "!q" or "!r"
      the run, which clears the goal; every other line is logged in order, unless it is a meta
      command; and nothing else changes. */
  lemma {:induction false} TypedAllIs(c: Client, lines: Commands)
    ensures TypedAll(c, lines) ==
            c.(input := c.input + Plain(lines),
               at := if SomeHalts(lines) then c.at.(goal := 0) else c.at,
               running := c.running && !SomeHalts(lines),
               exiting := c.exiting || SomeQuits(lines))
    decreases |lines|
  {
    if lines == [] {
      assert c.input + [] == c.input;
    } else {
      SomeCons(lines);
      var d := Typed(c, lines[0]);
      TypedOne(c, lines[0]);
      hide Typed, SomeQuits, SomeHalts;
      TypedAllIs(d, lines[1..]);
      Assoc(c.input, if Meta(lines[0]) then [] else [lines[0]], Plain(lines[1..]));
    }
  }

  lemma TypedOne(c: Client, line: Bytes)
    ensures Typed(c, line) ==
            c.(input := c.input + (if Meta(line) then [] else [line]),
               at := if Halts(line) then c.at.(goal := 0) else c.at,
               running := c.running && !Halts(line),
               exiting := c.exiting || Quits(line))
  {
    assert c.input + [] == c.input;
  }

  ghost predicate Stops(e: Event) { e.notified || SomeHalts(e.lines) }

  /** A pass up to the network: a changed library stops the run like "!r"; then the log is
      filled up with empty commands to frame + pause + queue, and no further. */
  lemma PreparedIs(c: Client, e: Event)
    ensures var d := Prepared(c, e);
            var n := |c.input| + |Plain(e.lines)|;
            && d.running == (c.running && !Stops(e)) && d.exiting == (c.exiting || SomeQuits(e.lines))
            && d.at == (if Stops(e) then c.at.(goal := 0) else c.at)
            && |d.input| == Max(n, c.at.frame + c.at.pause + c.queue)
            && d.input[..n] == c.input + Plain(e.lines)
            && (forall i :: n <= i < |d.input| ==> d.input[i] == [])
            && d == c.(input := d.input, at := d.at, running := d.running, exiting := d.exiting)
  {
    var b := if e.notified then Halt(c) else c;
    TypedAllIs(b, e.lines);
    hide TypedAll, SomeHalts, SomeQuits;
    var t := TypedAll(b, e.lines);
    assert WriteFrame(t) == c.at.frame + c.at.pause + c.queue;
    var d := Prepared(c, e);
    assert d.input[..|t.input|] == t.input;
  }

  // ---- the end of a pass

  /** Whether a pass goes on, and whether it ends the program. */
  lemma PassEnds(strtol: Bytes -> int, c: Client, e: Event)
    requires D.Inv(strtol, c) && c.running
    ensures var f := Pass(strtol, c, e);
            && (f.exiting <==> c.exiting || SomeQuits(e.lines) || e.io.Failure?)
            && (f.running <==> !Stops(e) && e.io.Received?
                               && Process(c.inbox + e.io.bytes, c.logs).verdict != NewPlayer)
  {
    PreparedIs(c, e);
    PreparedKeeps(c, e);
    D.NeverCorrupt(strtol, c, e);
    var p := Prepared(c, e);
    hide Prepared, Process, SomeQuits, SomeHalts, Stops;
    var (d, status) := Sync(p, WriteFrame(p), e.io);
    SyncKeeps(p, WriteFrame(p), e.io);
    AfterSyncEnds(strtol, d, status);
  }

  /** The switch on the status of connection_sync. */
  lemma AfterSyncEnds(strtol: Bytes -> int, d: Client, status: Status)
    requires WellFormed(d)
    ensures var f := AfterSync(strtol, d, status);
            && (f.exiting <==> d.exiting || status == Term || status == Corrupt)
            && (f.running <==> d.running && (status == Ok || status == Crashed))
            && (f.crashed <==> d.crashed || status == Crashed
                               || (status == Ok && Nearest(d, d.players) != 0 && |Join(NUL, Unread(d))| > 4096))
  {
    if status == Ok && Nearest(d, d.players) != 0 {
      PackedLenIs(Unread(d));
    }
    if status == Ok {
      PlayTurnCases(strtol, d);
    }
  }

  /** A pass crashes exactly on an id of 4 or more, on a header after which nothing is defined,
      or on a turn whose commands take more than 4096 bytes with their NULs. */
  lemma CrashesExactly(strtol: Bytes -> int, c: Client, e: Event)
    requires D.Inv(strtol, c) && c.running && !c.crashed
    ensures var p := Prepared(c, e);
            var (d, status) := Sync(p, WriteFrame(p), e.io);
            && WellFormed(d)
            && (Pass(strtol, c, e).crashed <==>
                  e.io.Received?
                  && var verdict := Process(c.inbox + e.io.bytes, c.logs).verdict;
                     || verdict == Crash || verdict == Undefined
                     || (verdict == Drained && Nearest(d, d.players) != 0 && |Join(NUL, Unread(d))| > 4096))
  {
    PreparedKeeps(c, e);
    D.NeverCorrupt(strtol, c, e);
    var p := Prepared(c, e);
    hide Prepared, Process, AfterSync, Join, Nearest, Unread;
    var (d, status) := Sync(p, WriteFrame(p), e.io);
    SyncKeeps(p, WriteFrame(p), e.io);
    AfterSyncEnds(strtol, d, status);
  }

  /** A network failure is final: it ends the run and the program, and nothing happens after. */
  lemma FailureIsFinal(strtol: Bytes -> int, framerate: nat, c: Client, notified: bool, lines: Commands, act: D.Act)
    requires WellFormed(c) && c.running && !c.crashed
    ensures var d := D.Step(strtol, framerate, c, D.Play(Event(notified, lines, Failure)));
            WellFormed(d) && !d.running && d.exiting && D.Step(strtol, framerate, d, act) == d
  {
    D.PassWellFormed(strtol, c, Event(notified, lines, Failure));
  }

  lemma {:induction false} StaysAtRest(strtol: Bytes -> int, framerate: nat, acts: seq<D.Act>, more: seq<D.Act>)
    requires var c := D.Run(strtol, framerate, acts); !c.running && c.exiting
    ensures D.Run(strtol, framerate, acts + more) == D.Run(strtol, framerate, acts)
    decreases |more|
  {
    if more == [] {
      assert acts + more == acts;
    } else {
      hide D.Run, D.Step, WellFormed;
      var front, last := more[..|more| - 1], more[|more| - 1];
      StaysAtRest(strtol, framerate, acts, front);
      assert acts + more == acts + front + [last];
      D.RunSnoc(strtol, framerate, acts + front, last);
      AtRest(strtol, framerate, D.Run(strtol, framerate, acts), last);
    }
  }

  lemma AtRest(strtol: Bytes -> int, framerate: nat, c: Client, act: D.Act)
    requires WellFormed(c) && !c.running && c.exiting
    ensures D.Step(strtol, framerate, c, act) == c
  {
  }

  /** After a pass in which the network fails the program is over, whatever else comes. */
  lemma FailureEndsProgram(strtol: Bytes -> int, framerate: nat, acts: seq<D.Act>, notified: bool, lines: Commands,
                           more: seq<D.Act>)
    requires var c := D.Run(strtol, framerate, acts); c.running && !c.crashed
    ensures var over := acts + [D.Play(Event(notified, lines, Failure))];
            var d := D.Run(strtol, framerate, over);
            !d.running && d.exiting && D.Run(strtol, framerate, over + more) == d
  {
    var last := D.Play(Event(notified, lines, Failure));
    D.RunSnoc(strtol, framerate, acts, last);
    FailureIsFinal(strtol, framerate, D.Run(strtol, framerate, acts), notified, lines, D.Reload);
    hide D.Run, D.Step;
    StaysAtRest(strtol, framerate, acts + [last], more);
  }

  /** So is one in which "!q" is typed; and these are the only ways the program ends: a step
      sets exiting exactly when it is a pass with a failure or a "!q". */
  lemma ExitsExactly(strtol: Bytes -> int, framerate: nat, c: Client, act: D.Act)
    requires D.Inv(strtol, c)
    ensures var d := D.Step(strtol, framerate, c, act);
            d.exiting <==> c.exiting || (act.Play? && c.running && !c.crashed
                                         && (act.e.io.Failure? || SomeQuits(act.e.lines)))
  {
    if act.Play? && c.running && !c.crashed {
      PassEnds(strtol, c, act.e);
    }
  }

  /** "!q" is final too, unless the pass crashes. */
  lemma QuitIsFinal(strtol: Bytes -> int, framerate: nat, c: Client, e: Event, act: D.Act)
    requires D.Inv(strtol, c) && c.running && !c.crashed && SomeQuits(e.lines)
    ensures var d := D.Step(strtol, framerate, c, D.Play(e));
            WellFormed(d) && !d.running && d.exiting && D.Step(strtol, framerate, d, act) == d
  {
    PassEnds(strtol, c, e);
    QuitsHalt(e.lines);
    D.PassWellFormed(strtol, c, e);
  }

  lemma QuitsHalt(lines: Commands)
    ensures SomeQuits(lines) ==> SomeHalts(lines)
  {
    if SomeQuits(lines) {
      var i :| 0 <= i < |lines| && Quits(lines[i]);
      assert Halts(lines[i]);
    }
  }

  /** After "!r", a changed library or a new player, and without "!q", the next run starts. */
  lemma ReloadGoesOn(strtol: Bytes -> int, framerate: nat, c: Client, e: Event)
    requires D.Inv(strtol, c) && c.running && !c.crashed && !c.exiting && !SomeQuits(e.lines) && e.io.Received?
    requires !Pass(strtol, c, e).crashed
    requires Stops(e) || Process(c.inbox + e.io.bytes, c.logs).verdict == NewPlayer
    ensures var d := D.Step(strtol, framerate, c, D.Play(e));
            && WellFormed(d) && !d.running
            && var n := D.Step(strtol, framerate, d, D.Reload);
               n.running && n.at == Counters(0, 0, 0) && n.stall == 0 && n.queue == n.queueMax == framerate
               && n.players == CountPlayers(d.logs) && n.input == d.input && n.sent == d.sent && n.logs == d.logs
  {
    PassEnds(strtol, c, e);
    D.PassWellFormed(strtol, c, e);
    hide Pass, CountPlayers;
  }

  // ---- from the keyboard to the log

  /** The commands that are not empty. */
  function Text(cmds: Commands): Commands {
    if cmds == [] then [] else (if cmds[0] == [] then [] else [cmds[0]]) + Text(cmds[1..])
  }

  lemma {:induction false} TextAppend(a: Commands, b: Commands)
    ensures Text(a + b) == Text(a) + Text(b)
  {
    if a == [] {
      assert a + b == b;
    } else {
      assert (a + b)[1..] == a[1..] + b;
      TextAppend(a[1..], b);
    }
  }

  lemma {:induction false} NoText(cmds: Commands)
    requires forall i :: 0 <= i < |cmds| ==> cmds[i] == []
    ensures Text(cmds) == []
  {
    if cmds != [] {
      NoText(cmds[1..]);
    }
  }

  /** The game commands typed in a step. */
  function StepTypes(c: Client, act: D.Act): Commands {
    if act.Play? && c.running && !c.crashed then Plain(act.e.lines) else []
  }

  function TypedIn(strtol: Bytes -> int, framerate: nat, acts: seq<D.Act>): Commands {
    if acts == [] then [] else
      var front := acts[..|acts| - 1];
      TypedIn(strtol, framerate, front) + StepTypes(D.Run(strtol, framerate, front), acts[|acts| - 1])
  }

  lemma StepInput(strtol: Bytes -> int, framerate: nat, c: Client, act: D.Act)
    requires WellFormed(c)
    ensures Text(D.Step(strtol, framerate, c, act).input) == Text(c.input) + Text(StepTypes(c, act))
  {
    if act.Play? && c.running && !c.crashed {
      var p := Prepared(c, act.e);
      PreparedIs(c, act.e);
      PassInput(strtol, c, act.e);
      var n := |c.input| + |Plain(act.e.lines)|;
      assert p.input == p.input[..n] + p.input[n..];
      hide Pass, Prepared;
      NoText(p.input[n..]);
      TextAppend(p.input[..n], p.input[n..]);
      TextAppend(c.input, Plain(act.e.lines));
    } else {
      assert D.Step(strtol, framerate, c, act).input == c.input;
    }
  }

  lemma PassInput(strtol: Bytes -> int, c: Client, e: Event)
    requires WellFormed(c)
    ensures Pass(strtol, c, e).input == Prepared(c, e).input
  {
    PreparedKeeps(c, e);
    var p := Prepared(c, e);
    SyncKeeps(p, WriteFrame(p), e.io);
    var (d, status) := Sync(p, WriteFrame(p), e.io);
    if status == Ok {
      D.PlayTurnExtends(strtol, d);
    }
  }

  /** Over every execution the input log holds exactly the game commands that were typed while
      a run went on, in order, with empty commands between them. */
  lemma {:induction false} InputIsTyped(strtol: Bytes -> int, framerate: nat, acts: seq<D.Act>)
    ensures Text(D.Run(strtol, framerate, acts).input) == Text(TypedIn(strtol, framerate, acts))
    decreases |acts|
  {
    if acts != [] {
      var front, last := acts[..|acts| - 1], acts[|acts| - 1];
      InputIsTyped(strtol, framerate, front);
      var c := D.Run(strtol, framerate, front);
      StepInput(strtol, framerate, c, last);
      TextAppend(TypedIn(strtol, framerate, front), StepTypes(c, last));
    }
  }
}
