/** The whole machine with the local server: the client, the two byte streams of the socket
    pair and the server, as a step system. Every read takes an arbitrary number of bytes. */
module Pipeline {
  import opened Bytes
  import opened Frames
  import opened Lockstep
  import opened Demux
  import D = Determinism

  /** The longest line that input.c can hand over. */
  const LINE_MAX := 4094

  /** served is history: the commands the server has cut out of its input, in order. */
  datatype World = World(client: Client, toServer: Bytes, serverBuf: Bytes, toClient: Bytes, served: Commands)

  /** LoopPass(.., None) is a pass in which the network fails. */
  datatype Step = ServerRead(k: nat) | LoopPass(notified: bool, lines: Commands, reply: Option<nat>) | Reload

  /** How much a read asking for k bytes gets. */
  function Read(k: nat, stream: Bytes, buf: Bytes): (n: nat)
    ensures n <= |stream|
  {
    Max(0, Min(k, Min(|stream|, RECEIVE_MAX - |buf|)))
  }

  function ServerNext(w: World, n: nat): World
    requires n <= |w.toServer|
  {
    var all := w.serverBuf + w.toServer[..n];
    w.(toServer := w.toServer[n..], serverBuf := Rest(NUL, all),
       toClient := w.toClient + LocalStream(Lines(NUL, all)), served := w.served + Lines(NUL, all))
  }

  function ClientNext(strtol: Bytes -> int, framerate: nat, w: World, act: D.Act, n: nat): World
    requires WellFormed(w.client) && n <= |w.toClient|
  {
    var d := D.Step(strtol, framerate, w.client, act);
    w.(client := d, toServer := w.toServer + Written(w.client, d), toClient := w.toClient[n..])
  }

  function Next(strtol: Bytes -> int, framerate: nat, w: World, s: Step): World
    requires WellFormed(w.client)
  {
    match s
    case ServerRead(k) => ServerNext(w, Read(k, w.toServer, w.serverBuf))
    case LoopPass(notified, lines, reply) =>
      if !w.client.running || w.client.crashed then w
      else if reply.None? then ClientNext(strtol, framerate, w, D.Play(Event(notified, lines, Failure)), 0)
      else
        var n := Read(reply.value, w.toClient, w.client.inbox);
        ClientNext(strtol, framerate, w, D.Play(Event(notified, lines, Received(w.toClient[..n]))), n)
    case Reload => ClientNext(strtol, framerate, w, D.Reload, 0)
  }

  /** How many of the bytes sent to the client this pass reads. */
  function Share(w: World, reply: Option<nat>): (n: nat)
    ensures n <= |w.toClient|
  {
    if reply.None? then 0 else Read(reply.value, w.toClient, w.client.inbox)
  }

  lemma NextIs(strtol: Bytes -> int, framerate: nat, w: World, notified: bool, lines: Commands, reply: Option<nat>)
    requires WellFormed(w.client) && w.client.running && !w.client.crashed
    ensures var n := Share(w, reply);
            var e := Event(notified, lines, if reply.None? then Failure else Received(w.toClient[..n]));
            var v := ClientNext(strtol, framerate, w, D.Play(e), n);
            && Next(strtol, framerate, w, LoopPass(notified, lines, reply)) == v
            && v.client == Pass(strtol, w.client, e) && v.toClient == w.toClient[n..] && v.served == w.served
  {
  }

  /** What the input splitter hands over: no NUL, and no longer than its buffer allows. */
  ghost predicate GoodLines(lines: Commands) {
    forall i :: 0 <= i < |lines| ==> Free(NUL, lines[i]) && |lines[i]| <= LINE_MAX
  }

  ghost predicate GoodStep(s: Step) {
    s.LoopPass? ==> GoodLines(s.lines)
  }

  function Log0(w: World): Commands { Log(w.client.logs, 0) }

  /** Sent but not yet reframed, and reframed but not yet in the player's log. */
  ghost function ToServe(w: World): Commands
    requires |w.served| <= w.client.sent <= |w.client.input|
  {
    w.client.input[|w.served|..w.client.sent]
  }

  ghost function ToLog(w: World): Commands
    requires |Log0(w)| <= |w.served| <= |w.client.input|
  {
    w.client.input[|Log0(w)|..|w.served|]
  }

  /** log ⊑ served ⊑ sent ⊑ input, and the streams hold exactly what lies between. */
  ghost predicate Wire(w: World) {
    && |Log0(w)| <= |w.served| <= w.client.sent <= |w.client.input|
    && w.served == w.client.input[..|w.served|]
    && Log0(w) == w.client.input[..|Log0(w)|]
    && w.serverBuf + w.toServer == Join(NUL, ToServe(w))
    && w.client.inbox + w.toClient == LocalStream(ToLog(w))
  }

  ghost predicate Bounds(w: World) {
    && Free(NUL, w.serverBuf) && |w.serverBuf| < RECEIVE_MAX
    && |w.client.inbox| <= RECEIVE_MAX
    && forall k :: 0 <= k < |Log0(w)| ==> |Log0(w)[k]| <= COMMAND_MAX
  }

  // ---- the server's step

  lemma SliceSlice<T>(s: seq<T>, a: nat, b: nat, c: nat, m: nat)
    requires a <= b <= c <= |s| && m <= c - b
    ensures s[a..b] + s[b..c][..m] == s[a..b + m]
    ensures s[b..c][m..] == s[b + m..c]
  {
    assert s[b..c][..m] == s[b..b + m];
    assert s[a..b + m] == s[a..b] + s[b..b + m];
  }

  lemma NulAfter(r: Bytes, t: Bytes, n: nat)
    requires Free(NUL, r) && n < |r + t| && (r + t)[n] == NUL
    ensures |r| <= n
  {
  }

  lemma TailFits(cmds: Commands, r: Bytes, t: Bytes)
    requires GoodLines(cmds) && Free(NUL, r) && r + t == Join(NUL, cmds)
    ensures |r| <= LINE_MAX
  {
    if cmds == [] {
      assert r == [];
    } else {
      NulAfter(r, t, |cmds[0]|);
    }
  }

  lemma ServerCut(owed: Commands, buf: Bytes, stream: Bytes, n: nat) returns (m: nat)
    requires GoodLines(owed) && buf + stream == Join(NUL, owed) && n <= |stream|
    ensures var all := buf + stream[..n];
            && m <= |owed| && Lines(NUL, all) == owed[..m]
            && Rest(NUL, all) + stream[n..] == Join(NUL, owed[m..])
            && Free(NUL, Rest(NUL, all)) && |Rest(NUL, all)| < RECEIVE_MAX
  {
    var all := buf + stream[..n];
    Assoc(buf, stream[..n], stream[n..]);
    assert stream == stream[..n] + stream[n..];
    PartialLines(NUL, owed, all, stream[n..]);
    m := |Lines(NUL, all)|;
    TailFits(owed[m..], Rest(NUL, all), stream[n..]);
  }

  lemma ServerWire(w: World, n: nat)
    requires GoodLines(w.client.input) && Wire(w) && Bounds(w) && n <= |w.toServer|
    ensures Wire(ServerNext(w, n)) && Bounds(ServerNext(w, n))
  {
    hide Lines, Rest, Join, LocalStream, Find;
    var m := ServerCut(ToServe(w), w.serverBuf, w.toServer, n);
    var input, lines := w.client.input, ToServe(w)[..m];
    SliceSlice(input, 0, |w.served|, w.client.sent, m);
    SliceSlice(input, |Log0(w)|, |w.served|, w.client.sent, m);
    LocalStreamAppend(ToLog(w), lines);
    Assoc(w.client.inbox, w.toClient, LocalStream(lines));
    assert input[0..|w.served|] == input[..|w.served|];
    assert input[0..|w.served| + m] == input[..|w.served| + m];
  }

  // ---- the client's step

  lemma LocalHead(owed: Commands, b: Bytes, t: Bytes)
    requires GoodLines(owed) && b + t == LocalStream(owed)
    ensures |Deframe(b)| <= |owed| && Deframe(b) == LocalFrames(owed[..|Deframe(b)|])
    ensures DeframeRest(b) + t == LocalStream(owed[|Deframe(b)|..])
  {
    PartialStream(LocalFrames(owed), b, t);
    var m := |Deframe(b)|;
    assert LocalFrames(owed)[..m] == LocalFrames(owed[..m]);
    assert LocalFrames(owed)[m..] == LocalFrames(owed[m..]);
  }

  /** The local server shows no bad header, so the client only ever waits. */
  lemma LocalWaits(owed: Commands, b: Bytes, t: Bytes)
    requires GoodLines(owed) && b + t == LocalStream(owed)
    ensures Waits(DeframeRest(b)) && (!HasFrame(b) ==> Waits(b))
  {
    PartialHeaders(LocalFrames(owed), b, t);
    LeftoverWaits(b);
  }

  lemma {:induction false} FramesFit(fs: seq<Frame>, k: nat)
    requires k < |fs|
    ensures |fs[k].cmd| + 9 <= StreamLen(fs)
  {
    if k > 0 {
      FramesFit(fs[1..], k - 1);
    }
  }

  lemma NoOtherPlayers(b: Bytes, logs: Logs)
    requires forall i :: 1 <= i < MAX_PLAYER ==> logs[i].None?
    requires Process(b, logs).verdict == Drained
    ensures forall i :: 1 <= i < MAX_PLAYER ==> Process(b, logs).logs[i].None?
  {
    ProcessGrows(b, logs);
  }

  /** Decoding part of the local server's stream: the log takes the next commands of it. */
  lemma LocalProcess(owed: Commands, b: Bytes, t: Bytes, logs: Logs) returns (m: nat)
    requires GoodLines(owed) && b + t == LocalStream(owed)
    requires forall i :: 1 <= i < MAX_PLAYER ==> logs[i].None?
    ensures var p := Process(b, logs);
            && m <= |owed| && p.verdict in {Drained, NewPlayer}
            && Log(p.logs, 0) == Log(logs, 0) + owed[..m]
            && p.buf + t == LocalStream(owed[m..]) && |p.buf| <= |b|
            && (forall i :: 1 <= i < MAX_PLAYER ==> p.logs[i].None?)
            && (forall k :: 0 <= k < m ==> |owed[k]| + 9 <= |b|)
            && (logs[0].Some? ==> p.verdict == Drained && m == |Deframe(b)|)
  {
    LocalHead(owed, b, t);
    LocalWaits(owed, b, t);
    ProcessDelivers(b, logs);
    if logs[0].None? {
      m := 0;
      if HasFrame(b) {
        assert Deframe(b)[0] == HeadFrame(b);
      }
      assert owed[0..] == owed && owed[..0] == [];
    } else {
      m := |Deframe(b)|;
      ProcessKnown(b, logs);
      NoOtherPlayers(b, logs);
      ProcessAppends(b, logs, 0);
      ByPlayerLocal(owed[..m], 0);
      DeframeConserves(b);
      forall k | 0 <= k < m
        ensures |owed[k]| + 9 <= |b|
      {
        FramesFit(Deframe(b), k);
      }
    }
  }

  lemma PrefixSlice<T>(a: seq<T>, b: seq<T>, i: nat, j: nat)
    requires a <= b && i <= j <= |a|
    ensures a[i..j] == b[i..j]
  {
    assert b[..|a|] == a;
  }

  /** Typing and padding only add to the end of the input log. */
  lemma InputWire(w: World, d: Client)
    requires Wire(w) && w.client.input <= d.input
    requires d.sent == w.client.sent && d.logs == w.client.logs && d.inbox == w.client.inbox
    ensures Wire(w.(client := d))
  {
    var a, b := w.client.input, d.input;
    PrefixSlice(a, b, 0, |w.served|);
    PrefixSlice(a, b, 0, |Log0(w)|);
    PrefixSlice(a, b, |w.served|, w.client.sent);
    PrefixSlice(a, b, |Log0(w)|, |w.served|);
  }

  ghost predicate ServesOne(logs: Logs) {
    forall i :: 1 <= i < MAX_PLAYER ==> logs[i].None?
  }

  function Receive(w: World, n: nat): World
    requires n <= |w.toClient|
  {
    var p := Process(w.client.inbox + w.toClient[..n], w.client.logs);
    w.(client := w.client.(inbox := p.buf, logs := p.logs), toClient := w.toClient[n..])
  }

  lemma ReceiveWire(w: World, n: nat)
    requires GoodLines(w.client.input) && Wire(w) && Bounds(w) && ServesOne(w.client.logs)
    requires n <= |w.toClient| && |w.client.inbox| + n <= RECEIVE_MAX
    ensures Wire(Receive(w, n)) && Bounds(Receive(w, n)) && ServesOne(Receive(w, n).client.logs)
    ensures Process(w.client.inbox + w.toClient[..n], w.client.logs).verdict in {Drained, NewPlayer}
  {
    hide Process, LocalStream, Join;
    var b, t := w.client.inbox + w.toClient[..n], w.toClient[n..];
    Assoc(w.client.inbox, w.toClient[..n], t);
    assert w.toClient == w.toClient[..n] + t;
    var m := LocalProcess(ToLog(w), b, t, w.client.logs);
    SliceSlice(w.client.input, 0, |Log0(w)|, |w.served|, m);
    LogTaken(w, n, m);
  }

  lemma LogTaken(w: World, n: nat, m: nat)
    requires Wire(w) && Bounds(w) && n <= |w.toClient| && m <= |ToLog(w)|
    requires Log0(Receive(w, n)) == Log0(w) + ToLog(w)[..m]
    requires forall k :: 0 <= k < m ==> |ToLog(w)[k]| <= COMMAND_MAX
    ensures Log0(Receive(w, n)) == w.client.input[..|Log0(w)| + m]
    ensures w.client.input[|Log0(w)| + m..|w.served|] == ToLog(w)[m..]
    ensures forall k :: 0 <= k < |Log0(Receive(w, n))| ==> |Log0(Receive(w, n))[k]| <= COMMAND_MAX
  {
  }

  function Send(w: World, s: nat): World
    requires w.client.sent <= s <= |w.client.input|
  {
    w.(client := w.client.(sent := s), toServer := w.toServer + Join(NUL, w.client.input[w.client.sent..s]))
  }

  lemma SendWire(w: World, s: nat)
    requires Wire(w) && w.client.sent <= s <= |w.client.input|
    ensures Wire(Send(w, s))
  {
    var input, more := w.client.input, w.client.input[w.client.sent..s];
    assert input[|w.served|..s] == ToServe(w) + more;
    JoinAppend(NUL, ToServe(w), more);
    Assoc(w.serverBuf, w.toServer, Join(NUL, more));
  }

  lemma PreparedGood(c: Client, e: Event)
    requires GoodLines(c.input) && GoodLines(e.lines)
    ensures GoodLines(Prepared(c, e).input)
  {
    TypedGood(if e.notified then Halt(c) else c, e.lines);
  }

  lemma {:induction false} TypedGood(c: Client, lines: Commands)
    requires GoodLines(c.input) && GoodLines(lines)
    ensures GoodLines(TypedAll(c, lines).input)
    decreases |lines|
  {
    if lines != [] {
      TypedGood(Typed(c, lines[0]), lines[1..]);
    }
  }

  /** CRASH is unreachable: one command that came through the receive buffer always packs. */
  lemma NeverCrashes(strtol: Bytes -> int, c: Client)
    requires WellFormed(c) && c.players <= 1 && !c.crashed
    requires forall k :: 0 <= k < |Log(c.logs, 0)| ==> |Log(c.logs, 0)[k]| <= COMMAND_MAX
    ensures !PlayTurn(strtol, c).crashed
  {
    if Nearest(c, c.players) != 0 {
      UnreadEverywhere(c);
      var cmds := Unread(c);
      if cmds != [] {
        assert cmds[..|cmds| - 1] == [];
        assert PackedLen(cmds) == |cmds[0]| + 1;
      }
    }
  }

  ghost predicate Sound(w: World) {
    GoodLines(w.client.input) && Wire(w) && Bounds(w) && ServesOne(w.client.logs)
  }

  /** Only these four fields of the client touch the streams. */
  ghost predicate SameEnds(c: Client, d: Client) {
    c.input == d.input && c.sent == d.sent && c.inbox == d.inbox && c.logs == d.logs
  }

  lemma PreparedSound(w: World, e: Event)
    requires Sound(w) && GoodLines(e.lines)
    ensures Sound(w.(client := Prepared(w.client, e)))
  {
    PreparedKeeps(w.client, e);
    PreparedGood(w.client, e);
    InputWire(w, Prepared(w.client, e));
  }

  /** A sync, on the whole machine: bytes move from one stream and onto the other. */
  function Synced(w: World, target: nat, n: nat): World
    requires n <= |w.toClient|
  {
    var d := Sync(w.client, target, Received(w.toClient[..n])).0;
    w.(client := d, toServer := w.toServer + Written(w.client, d), toClient := w.toClient[n..])
  }

  lemma SyncedSound(w: World, target: nat, n: nat)
    requires Sound(w) && n <= |w.toClient| && |w.client.inbox| + n <= RECEIVE_MAX
    requires target <= |w.client.input|
    ensures Sound(Synced(w, target, n))
    ensures Sync(w.client, target, Received(w.toClient[..n])).1 in {Ok, Change}
  {
    ReceiveWire(w, n);
    var v := Receive(w, n);
    var p := Process(w.client.inbox + w.toClient[..n], w.client.logs);
    if p.verdict == Drained {
      SendWire(v, Max(v.client.sent, Min(target, |v.client.input|)));
    } else {
      assert Written(w.client, v.client) == [];
    }
  }

  /** What is left of a pass after the sync does not touch the streams. */
  lemma PassShape(strtol: Bytes -> int, c: Client, e: Event)
    requires WellFormed(c)
    ensures var p := Prepared(c, e);
            var (d, status) := Sync(p, WriteFrame(p), e.io);
            var f := Pass(strtol, c, e);
            && SameEnds(d, f) && f.players == c.players && f.queueMax == c.queueMax && (f.running ==> c.running)
            && (status != Ok && status != Crashed ==> f.crashed == c.crashed)
  {
    PreparedKeeps(c, e);
    var p := Prepared(c, e);
    var (d, status) := Sync(p, WriteFrame(p), e.io);
    SyncKeeps(p, WriteFrame(p), e.io);
    if status == Ok {
      PlayTurnShape(strtol, d);
    }
  }

  lemma PlayTurnShape(strtol: Bytes -> int, c: Client)
    requires WellFormed(c)
    ensures var f := PlayTurn(strtol, c);
            SameEnds(c, f) && f.players == c.players && f.queueMax == c.queueMax && f.running == c.running
  {
  }

  lemma SoundEnds(w: World, d: Client)
    requires Sound(w) && SameEnds(w.client, d)
    ensures Sound(w.(client := d))
  {
  }

  lemma PassSound(strtol: Bytes -> int, framerate: nat, w: World, e: Event, n: nat)
    requires Sound(w) && WellFormed(w.client) && w.client.running && !w.client.crashed && GoodLines(e.lines)
    requires n <= |w.toClient| && |w.client.inbox| + n <= RECEIVE_MAX
    requires e.io == Received(w.toClient[..n]) || (e.io == Failure && n == 0)
    ensures Sound(ClientNext(strtol, framerate, w, D.Play(e), n))
  {
    var c := w.client;
    var p, f := Prepared(c, e), Pass(strtol, c, e);
    PreparedSound(w, e);
    PreparedKeeps(c, e);
    PassShape(strtol, c, e);
    var v := w.(client := p);
    var u := if e.io == Failure then v else Synced(v, WriteFrame(p), n);
    if e.io != Failure {
      SyncedSound(v, WriteFrame(p), n);
    } else {
      assert Written(c, f) == [];
      assert w.toServer + [] == w.toServer && w.toClient[0..] == w.toClient;
    }
    SoundEnds(u, f);
    assert u.(client := f) == ClientNext(strtol, framerate, w, D.Play(e), n);
  }

  lemma PassNeverCrashes(strtol: Bytes -> int, w: World, e: Event, n: nat)
    requires Sound(w) && WellFormed(w.client) && !w.client.crashed && w.client.players <= 1 && GoodLines(e.lines)
    requires n <= |w.toClient| && |w.client.inbox| + n <= RECEIVE_MAX
    requires e.io == Received(w.toClient[..n]) || e.io == Failure
    ensures !Pass(strtol, w.client, e).crashed
  {
    var c := w.client;
    var p := Prepared(c, e);
    PreparedSound(w, e);
    PreparedKeeps(c, e);
    PassShape(strtol, c, e);
    var v := w.(client := p);
    var (d, status) := Sync(p, WriteFrame(p), e.io);
    SyncKeeps(p, WriteFrame(p), e.io);
    if e.io != Failure {
      SyncedSound(v, WriteFrame(p), n);
      if status == Ok {
        NeverCrashes(strtol, d);
      }
    }
  }

  // ---- whole executions

  /** What every step of the machine keeps. */
  ghost predicate Inv(strtol: Bytes -> int, framerate: nat, w: World) {
    && D.Inv(strtol, w.client) && !w.client.crashed && w.client.players <= 1
    && (w.client.running ==> w.client.queueMax == framerate)
    && Sound(w)
  }

  lemma RestartSound(strtol: Bytes -> int, framerate: nat, w: World)
    requires Inv(strtol, framerate, w)
    ensures Inv(strtol, framerate, ClientNext(strtol, framerate, w, D.Reload, 0))
  {
    var d := D.Step(strtol, framerate, w.client, D.Reload);
    if d != w.client {
      D.RestartInv(strtol, w.client, framerate);
    }
    assert Written(w.client, d) == [];
    assert w.toServer + [] == w.toServer && w.toClient[0..] == w.toClient;
    SoundEnds(w, d);
  }

  lemma PassKeeps(strtol: Bytes -> int, framerate: nat, w: World, e: Event, n: nat)
    requires Inv(strtol, framerate, w) && w.client.running && GoodLines(e.lines)
    requires n <= |w.toClient| && |w.client.inbox| + n <= RECEIVE_MAX
    requires e.io == Received(w.toClient[..n]) || (e.io == Failure && n == 0)
    ensures Inv(strtol, framerate, ClientNext(strtol, framerate, w, D.Play(e), n))
  {
    PassNeverCrashes(strtol, w, e, n);
    D.PassInv(strtol, w.client, e);
    PassSound(strtol, framerate, w, e, n);
    PassShape(strtol, w.client, e);
  }

  lemma NextInv(strtol: Bytes -> int, framerate: nat, w: World, s: Step)
    requires Inv(strtol, framerate, w) && GoodStep(s)
    ensures Inv(strtol, framerate, Next(strtol, framerate, w, s))
  {
    match s
    case ServerRead(k) => ServerWire(w, Read(k, w.toServer, w.serverBuf));
    case LoopPass(notified, lines, reply) =>
      if w.client.running {
        if reply.None? {
          PassKeeps(strtol, framerate, w, Event(notified, lines, Failure), 0);
        } else {
          var n := Read(reply.value, w.toClient, w.client.inbox);
          PassKeeps(strtol, framerate, w, Event(notified, lines, Received(w.toClient[..n])), n);
        }
      }
    case Reload => RestartSound(strtol, framerate, w);
  }

  lemma NextWellFormed(strtol: Bytes -> int, framerate: nat, w: World, s: Step)
    requires WellFormed(w.client)
    ensures WellFormed(Next(strtol, framerate, w, s).client)
  {
    match s
    case ServerRead(_) =>
    case LoopPass(notified, lines, reply) =>
      if w.client.running && !w.client.crashed {
        var io := if reply.None? then Failure
                  else Received(w.toClient[..Read(reply.value, w.toClient, w.client.inbox)]);
        D.StepWellFormed(strtol, framerate, w.client, D.Play(Event(notified, lines, io)));
      }
    case Reload => D.StepWellFormed(strtol, framerate, w.client, D.Reload);
  }

  function RunFrom(strtol: Bytes -> int, framerate: nat, w: World, steps: seq<Step>): (v: World)
    requires WellFormed(w.client)
    ensures WellFormed(v.client)
    decreases |steps|
  {
    if steps == [] then w else
      NextWellFormed(strtol, framerate, w, steps[0]);
      RunFrom(strtol, framerate, Next(strtol, framerate, w, steps[0]), steps[1..])
  }

  /** The program before its first run, with nothing on the wire. */
  function Idle(): (w: World)
    ensures WellFormed(w.client)
  {
    World(Blank(), [], [], [], [])
  }

  function Run(strtol: Bytes -> int, framerate: nat, steps: seq<Step>): World {
    RunFrom(strtol, framerate, Idle(), steps)
  }

  ghost predicate GoodSteps(steps: seq<Step>) {
    forall i :: 0 <= i < |steps| ==> GoodStep(steps[i])
  }

  lemma {:induction false} RunFromInv(strtol: Bytes -> int, framerate: nat, w: World, steps: seq<Step>)
    requires Inv(strtol, framerate, w) && GoodSteps(steps)
    ensures Inv(strtol, framerate, RunFrom(strtol, framerate, w, steps))
    decreases |steps|
  {
    if steps != [] {
      NextInv(strtol, framerate, w, steps[0]);
      RunFromInv(strtol, framerate, Next(strtol, framerate, w, steps[0]), steps[1..]);
    }
  }

  lemma IdleSound()
    ensures Sound(Idle())
  {
    assert LocalFrames([]) == [];
  }

  lemma IdleInv(strtol: Bytes -> int, framerate: nat)
    ensures Inv(strtol, framerate, Idle())
  {
    IdleSound();
    D.BlankInv(strtol);
  }

  lemma Reachable(strtol: Bytes -> int, framerate: nat, steps: seq<Step>)
    requires GoodSteps(steps)
    ensures Inv(strtol, framerate, Run(strtol, framerate, steps))
  {
    IdleInv(strtol, framerate);
    RunFromInv(strtol, framerate, Idle(), steps);
  }
}
