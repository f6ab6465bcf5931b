/** The classes put together: the splitter, the console and the server, moved by their own
    methods, take exactly the steps of Pipeline.dfy. */
module Machine {
  import opened Bytes
  import opened Frames
  import opened Lockstep
  import opened Pipeline
  import opened Connection
  import opened Records
  import D = Determinism
  import Input
  import Server
  import Console
  import Loop
  import Words

  // ---- the local server meets the client's expectations

  /** Nor a command with a NUL. */
  lemma {:induction false} PartialNulFree(fs: seq<Frame>, b: Bytes, t: Bytes)
    requires AllSendable(fs) && b + t == Stream(fs)
    requires forall i :: 0 <= i < |fs| ==> Free(NUL, fs[i].cmd)
    ensures NulFree(b)
    decreases |b|
  {
    if HasFrame(b) {
      HeadAppend(b, t);
      hide BlockLen, GoodHeader, FrameBytes, PlayerId, HasFrame;
      HeadOfFrame(fs[0], Stream(fs[1..]));
      PartialNulFree(fs[1..], b[FrameLen(b)..], t);
    }
  }

  lemma FramingHolds(w: World, n: nat)
    requires Sound(w) && n <= |w.toClient|
    ensures GoodHeaders(w.client.inbox + w.toClient[..n]) && NulFree(w.client.inbox + w.toClient[..n])
  {
    var b, t := w.client.inbox + w.toClient[..n], w.toClient[n..];
    hide Join, NulFree, GoodHeaders, Stream;
    Assoc(w.client.inbox, w.toClient[..n], t);
    assert w.toClient == w.toClient[..n] + t;
    PartialHeaders(LocalFrames(ToLog(w)), b, t);
    PartialNulFree(LocalFrames(ToLog(w)), b, t);
  }

  // ---- the three kinds of step

  /** A server read of what has arrived, up to the free space. */
  method ServerStep(strtol: Bytes -> int, framerate: nat, server: Server.Reframer, w: World, k: nat) returns (v: World)
    requires server.Valid() && server.Pending() == w.serverBuf && WellFormed(w.client)
    modifies server, server.receiveBuffer
    ensures server.Valid() && v == Pipeline.Next(strtol, framerate, w, ServerRead(k)) && server.Pending() == v.serverBuf
  {
    hide Lines, Rest, LocalStream;
    var n := Read(k, w.toServer, w.serverBuf);
    var written := server.Receive(w.toServer[..n]);
    v := ServerNext(w, n);
    assert v.toClient == w.toClient + written;
  }

  /** What stdin has for the splitter: nothing ready, or a read of some bytes or none. */
  ghost predicate CanRead(s: Input.State, typed: Option<Bytes>) {
    typed.Some? ==> Input.Takes(s, typed.value)
  }

  ghost function LinesOf(s: Input.State, typed: Option<Bytes>): Commands
    requires CanRead(s, typed)
  {
    if typed.None? then [] else Input.Handled(s, typed.value)
  }

  lemma LinesOfFit(s: Input.State, typed: Option<Bytes>)
    requires CanRead(s, typed)
    ensures GoodLines(LinesOf(s, typed))
  {
    if typed.Some? {
      Input.LinesFit(s, typed.value);
    }
  }

  /** input_poll takes the splitter from s to t and hands out these lines. */
  ghost predicate TypedIn(s: Input.State, typed: Option<Bytes>, t: Input.State, lines: Commands) {
    if typed.None? then t == s && lines == []
    else Input.Takes(s, typed.value) && t == Input.Polled(s, typed.value) && lines == Input.Handled(s, typed.value)
  }

  method ReadLines(splitter: Input.Splitter, typed: Option<Bytes>) returns (lines: Commands)
    requires splitter.Valid() && CanRead(splitter.Now(), typed)
    modifies splitter, splitter.buf
    ensures lines == LinesOf(old(splitter.Now()), typed) && GoodLines(lines)
    ensures splitter.Valid() && TypedIn(old(splitter.Now()), typed, splitter.Now(), lines)
  {
    LinesOfFit(splitter.Now(), typed);
    hide Input.Handled, Input.Polled, Input.Takes;
    lines := [];
    if typed.Some? {
      lines := splitter.Poll(typed.value);
    }
  }

  /** One pass: the splitter is handed what was typed, if anything was, the console its lines
      and what was read from the socket. Only the sizes of the logs have to stay in bounds. */
  method ClientStep(strtol: Bytes -> int, framerate: nat, splitter: Input.Splitter, console: Console.Console, w: World,
                    notified: bool, typed: Option<Bytes>, reply: Option<nat>, delays: seq<nat>)
    returns (v: World, lines: Commands)
    requires Inv(strtol, framerate, w) && w.client.running
    requires splitter.Valid() && CanRead(splitter.Now(), typed) && Apart(splitter, console)
    requires Playing(console, w, LinesOf(splitter.Now(), typed), delays)
    modifies splitter, splitter.buf
    modifies console, console.conn, console.conn.receiveBuffer, console.game.Repr, console.input.Repr
    modifies console.loop, console.loop.clock
    ensures splitter.Valid() && GoodLines(lines) && TypedIn(old(splitter.Now()), typed, splitter.Now(), lines)
    ensures fresh(console.input.Repr - old(console.input.Repr)) && fresh(console.game.Repr - old(console.game.Repr))
    ensures v == Pipeline.Next(strtol, framerate, w, LoopPass(notified, lines, reply))
    ensures InStep(console, v) && Apart(splitter, console)
  {
    hide Playing, InStep, Pipeline.Next, LinesOf, CanRead, TypedIn;
    lines := ReadLines(splitter, typed);
    v := ConsoleStep(strtol, framerate, console, w, notified, lines, reply, delays);
  }

  /** The bytes of the local server and the lines of the splitter are what the console takes. */
  lemma ConsoleAccepts(console: Console.Console, w: World, e: Event, n: nat)
    requires Sound(w) && console.Valid() && console.state == w.client
    requires n <= |w.toClient| && |w.client.inbox| + n <= RECEIVE_MAX
    requires e.io == Received(w.toClient[..n]) || e.io == Failure
    requires GoodLines(e.lines) && LogsHaveRoom(console, e.lines)
    ensures console.Accepts(e)
  {
    FramingHolds(w, n);
    hide NulFree, GoodHeaders, Join, GoodLines;
    assert console.conn.inbox == w.client.inbox;
    assert console.conn.Fits(console.game, e.io);
    GoodLinesFit(e.lines);
  }

  lemma GoodLinesFit(lines: Commands)
    requires GoodLines(lines)
    ensures forall i :: 0 <= i < |lines| ==> Free(NUL, lines[i]) && |lines[i]| + 1 <= ALLOC_MIN
  {
  }

  method ConsoleStep(strtol: Bytes -> int, framerate: nat, console: Console.Console, w: World,
                     notified: bool, lines: Commands, reply: Option<nat>, delays: seq<nat>)
    returns (v: World)
    requires Inv(strtol, framerate, w) && w.client.running
    requires Playing(console, w, lines, delays) && GoodLines(lines)
    modifies console, console.conn, console.conn.receiveBuffer, console.game.Repr, console.input.Repr
    modifies console.loop, console.loop.clock
    ensures v == Pipeline.Next(strtol, framerate, w, LoopPass(notified, lines, reply))
    ensures fresh(console.input.Repr - old(console.input.Repr)) && fresh(console.game.Repr - old(console.game.Repr))
    ensures InStep(console, v)
  {
    var n := Share(w, reply);
    var e := Event(notified, lines, if reply.None? then Failure else Received(w.toClient[..n]));
    PassNeverCrashes(strtol, w, e, n);
    ConsoleAccepts(console, w, e, n);
    NextIs(strtol, framerate, w, notified, lines, reply);
    hide Inv, Sound, Pipeline.Next, ClientNext, Lockstep.Pass, Share;
    hide Console.Console.Valid, Loop.GameLoop.Ticking, Console.Console.Accepts;
    var written := console.Pass(strtol, e, delays);
    v := ClientNext(strtol, framerate, w, D.Play(e), n);
  }

  /** The restart loop of main, and the next run as far as its loop. */
  method ReloadStep(strtol: Bytes -> int, framerate: nat, splitter: Input.Splitter, console: Console.Console, w: World,
                    tscPerUsec: Words.u64, time: nat)
    returns (v: World)
    requires console.Valid() && console.state == w.client && Apart(splitter, console)
    requires !w.client.running && !w.client.exiting && !w.client.crashed && WellFormed(w.client)
    requires 1 <= framerate <= 255 && tscPerUsec >= 1 && 1_000_000 / framerate * tscPerUsec < Words.WRAP
    modifies splitter`used
    modifies console, console.game.Repr, console.loop, console.loop.clock
    ensures splitter.Now() == old(splitter.Now()).(used := 0)
    ensures v == Pipeline.Next(strtol, framerate, w, Reload)
    ensures console.input.Repr == old(console.input.Repr) && console.game.Repr == old(console.game.Repr)
    ensures InStep(console, v) && Apart(splitter, console)
  {
    hide Console.Console.Valid, Loop.GameLoop.Ticking;
    splitter.Shutdown();
    console.StartRun(framerate, tscPerUsec, time);
    v := ClientNext(strtol, framerate, w, D.Reload, 0);
  }

  ghost predicate OutsideOf(o: object, console: Console.Console)
    reads console, console.input, console.game
  {
    && o !in console.input.Repr && o !in console.game.Repr
    && o != console && o != console.conn && o != console.conn.receiveBuffer
    && o != console.input && o != console.game && o != console.loop && o != console.loop.clock
  }

  /** The splitter shares no memory with the console. */
  ghost predicate Apart(splitter: Input.Splitter, console: Console.Console)
    reads console, console.input, console.game
  {
    && OutsideOf(splitter, console) && OutsideOf(splitter.buf, console)
  }

  /** The console is in w's state, in the middle of a run. */
  ghost predicate InStep(console: Console.Console, w: World)
    reads console, console.conn, console.conn.receiveBuffer, console.input, console.input.Repr
    reads console.game, console.game.Repr, console.loop, console.loop.clock
  {
    console.Valid() && console.state == w.client && console.loop.Ticking()
  }

  /** And it can log these lines, and time passes. */
  ghost predicate Playing(console: Console.Console, w: World, lines: Commands, delays: seq<nat>)
    reads console, console.conn, console.conn.receiveBuffer, console.input, console.input.Repr
    reads console.game, console.game.Repr, console.loop, console.loop.clock
  {
    InStep(console, w) && LogsHaveRoom(console, lines) && console.loop.Passes(delays)
  }

  /** The logs stay within the range of a 32-bit int. */
  ghost predicate LogsHaveRoom(console: Console.Console, lines: Commands)
    reads console.input, console.game, console.loop
  {
    && console.input.write.byteCount + |Join(NUL, lines)| + console.loop.WriteFrame() < BYTE_LIMIT
    && console.game.RoomFor(RECEIVE_MAX)
  }
}
