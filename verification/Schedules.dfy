/** The end of a stall under every schedule in which both sides keep reading: the server often
    enough to frame all that was sent, then the loop often enough to receive it. */
module Schedules {
  import opened Bytes
  import opened Frames
  import opened Lockstep
  import opened Pipeline
  import opened EndToEnd
  import Startup

  /** A server read, or a pass in which nobody types; neither asks for nothing. */
  predicate Steady(s: Step) {
    match s
    case ServerRead(k) => k >= 1
    case LoopPass(notified, lines, reply) => !notified && lines == [] && reply.Some? && reply.value >= 1
    case Reload => false
  }

  predicate AllSteady(steps: seq<Step>) {
    forall i :: 0 <= i < |steps| ==> Steady(steps[i])
  }

  function ServerReads(steps: seq<Step>): nat {
    if steps == [] then 0 else (if steps[0].ServerRead? then 1 else 0) + ServerReads(steps[1..])
  }

  function Passes(steps: seq<Step>): nat {
    if steps == [] then 0 else (if steps[0].LoopPass? then 1 else 0) + Passes(steps[1..])
  }

  /** Stalled, with a next command that fits, and with log commands delivered. */
  ghost predicate Awaits(strtol: Bytes -> int, framerate: nat, w: World, log: nat) {
    && Inv(strtol, framerate, w) && Stalled(w.client) && |Log0(w)| == log
    && log < |w.client.input| && |w.client.input[log]| <= COMMAND_MAX
  }

  /** The next command has been delivered and executed. */
  ghost predicate Ended(w: World, log: nat, turns: nat) {
    |Log0(w)| > log && |w.client.turns| > turns
  }

  lemma SteadyGood(s: Step)
    requires Steady(s)
    ensures GoodStep(s) && (s.LoopPass? ==> s == Quiet(s.reply.value))
  {
  }

  /** A read that finds bytes and room takes some. */
  lemma ReadsSome(k: nat, stream: Bytes, buf: Bytes)
    requires k >= 1 && stream != [] && |buf| < RECEIVE_MAX
    ensures Read(k, stream, buf) >= 1
  {
  }

  /** A server read while the client waits: it takes bytes if there are any. */
  lemma SteadyServe(strtol: Bytes -> int, framerate: nat, w: World, log: nat, k: nat)
    requires Awaits(strtol, framerate, w, log) && k >= 1
    ensures var v := Pipeline.Next(strtol, framerate, w, ServerRead(k));
            && Awaits(strtol, framerate, v, log) && v.client == w.client
            && (w.toServer != [] ==> |v.toServer| < |w.toServer|)
            && (w.toServer == [] ==> v.toServer == [] && v.toClient == w.toClient)
  {
    NextInv(strtol, framerate, w, ServerRead(k));
    if w.toServer != [] {
      ReadsSome(k, w.toServer, w.serverBuf);
    } else {
      assert w.serverBuf + [] == w.serverBuf;
      NoLines(NUL, w.serverBuf);
      LocalStreamEmpty();
      assert w.toClient + [] == w.toClient;
    }
  }

  /** A pass while the client waits: it ends the stall, or the client goes on waiting and the
      bytes it read are fewer to come. */
  lemma SteadyPass(strtol: Bytes -> int, framerate: nat, w: World, log: nat, k: nat)
    requires Awaits(strtol, framerate, w, log) && k >= 1 && framerate >= 1
    ensures var v := Pipeline.Next(strtol, framerate, w, Quiet(k));
            || Ended(v, log, |w.client.turns|)
            || (&& Awaits(strtol, framerate, v, log) && v.toServer == w.toServer
                && |v.client.turns| == |w.client.turns|
                && (w.toServer == [] ==> |v.toClient| < |w.toClient|))
  {
    var v := Pipeline.Next(strtol, framerate, w, Quiet(k));
    NextInv(strtol, framerate, w, Quiet(k));
    QuietPass(strtol, framerate, w, k);
    hide Pipeline.Next, HasFrame, Arrived;
    if |Log0(v)| <= log {
      QuietWrites(strtol, framerate, w, k);
      if w.toServer == [] {
        AllServed(w);
        QuietReads(w, k);
      }
    }
  }

  /** With nothing on its way to the server, everything sent has been reframed. */
  lemma AllServed(w: World)
    requires Sound(w) && w.toServer == []
    ensures |w.served| == w.client.sent
  {
    assert w.serverBuf + [] == w.serverBuf;
    if ToServe(w) != [] {
      NulAfter(w.serverBuf, [], |ToServe(w)[0]|);
    }
  }

  // ---- what has ended stays ended

  lemma PassTurns(strtol: Bytes -> int, c: Client, e: Event)
    requires WellFormed(c)
    ensures |c.turns| <= |Pass(strtol, c, e).turns|
  {
    PreparedKeeps(c, e);
    var p := Prepared(c, e);
    SyncKeeps(p, WriteFrame(p), e.io);
    hide Prepared, Sync, WellFormed, Nearest, Turn, Unread, PackedLen, Advanced;
  }

  lemma StepTurns(strtol: Bytes -> int, framerate: nat, w: World, s: Step)
    requires WellFormed(w.client) && Steady(s)
    ensures |w.client.turns| <= |Pipeline.Next(strtol, framerate, w, s).client.turns|
  {
    hide Pass;
    if s.LoopPass? && w.client.running && !w.client.crashed {
      PassTurns(strtol, w.client, ActOf(w, s).value.e);
    }
  }

  lemma {:induction false} StaysEnded(strtol: Bytes -> int, framerate: nat, w: World, steps: seq<Step>,
                                      log: nat, turns: nat)
    requires WellFormed(w.client) && AllSteady(steps) && Ended(w, log, turns)
    ensures Ended(RunFrom(strtol, framerate, w, steps), log, turns)
    decreases |steps|
  {
    if steps != [] {
      var v := Pipeline.Next(strtol, framerate, w, steps[0]);
      StepTurns(strtol, framerate, w, steps[0]);
      RunFromExtends(strtol, framerate, w, [steps[0]]);
      Startup.RunFromFirst(strtol, framerate, w, steps[0], []);
      Startup.RunFromNothing(strtol, framerate, v);
      assert [steps[0]] + [] == [steps[0]];
      StaysEnded(strtol, framerate, v, steps[1..], log, turns);
    }
  }

  // ---- the two halves of a schedule

  lemma Counts(steps: seq<Step>)
    requires AllSteady(steps)
    ensures steps == [] ==> ServerReads(steps) == Passes(steps) == 0
    ensures steps != [] ==>
              && ServerReads(steps) == (if steps[0].ServerRead? then 1 else 0) + ServerReads(steps[1..])
              && Passes(steps) == (if steps[0].LoopPass? then 1 else 0) + Passes(steps[1..])
              && Steady(steps[0]) && !steps[0].Reload? && AllSteady(steps[1..])
  {
  }

  lemma FirstStep(strtol: Bytes -> int, framerate: nat, w: World, steps: seq<Step>)
    requires WellFormed(w.client) && steps != []
    ensures WellFormed(Pipeline.Next(strtol, framerate, w, steps[0]).client)
    ensures RunFrom(strtol, framerate, w, steps)
         == RunFrom(strtol, framerate, Pipeline.Next(strtol, framerate, w, steps[0]), steps[1..])
  {
    NextWellFormed(strtol, framerate, w, steps[0]);
  }

  lemma AwaitsSound(strtol: Bytes -> int, framerate: nat, w: World, log: nat)
    requires Awaits(strtol, framerate, w, log)
    ensures WellFormed(w.client)
  {
  }

  /** After enough server reads, all that was sent is framed, unless the stall is over. */
  lemma {:induction false} ServerHalf(strtol: Bytes -> int, framerate: nat, w: World, steps: seq<Step>, log: nat)
    requires Awaits(strtol, framerate, w, log) && framerate >= 1
    requires AllSteady(steps) && ServerReads(steps) >= |w.toServer|
    ensures var v := RunFrom(strtol, framerate, w, steps);
            || Ended(v, log, |w.client.turns|)
            || (Awaits(strtol, framerate, v, log) && v.toServer == [] && |v.client.turns| == |w.client.turns|)
    decreases |steps|
  {
    Counts(steps);
    AwaitsSound(strtol, framerate, w, log);
    hide Pipeline.Next, Awaits, WellFormed, Inv, RunFrom, ServerReads, Passes, AllSteady, Ended, Quiet;
    if steps == [] {
      Startup.RunFromNothing(strtol, framerate, w);
    } else {
      FirstStep(strtol, framerate, w, steps);
      var v, rest := Pipeline.Next(strtol, framerate, w, steps[0]), steps[1..];
      SteadyGood(steps[0]);
      if steps[0].ServerRead? {
        SteadyServe(strtol, framerate, w, log, steps[0].k);
        ServerHalf(strtol, framerate, v, rest, log);
      } else {
        SteadyPass(strtol, framerate, w, log, steps[0].reply.value);
        if Ended(v, log, |w.client.turns|) {
          StaysEnded(strtol, framerate, v, rest, log, |w.client.turns|);
        } else {
          ServerHalf(strtol, framerate, v, rest, log);
        }
      }
    }
  }

  /** With all of it framed, more passes than bytes to come end the stall. */
  lemma {:induction false} ClientHalf(strtol: Bytes -> int, framerate: nat, w: World, steps: seq<Step>, log: nat)
    requires Awaits(strtol, framerate, w, log) && framerate >= 1 && w.toServer == []
    requires AllSteady(steps) && Passes(steps) > |w.toClient|
    ensures Ended(RunFrom(strtol, framerate, w, steps), log, |w.client.turns|)
    decreases |steps|
  {
    Counts(steps);
    AwaitsSound(strtol, framerate, w, log);
    hide Pipeline.Next, Awaits, WellFormed, Inv, RunFrom, ServerReads, Passes, AllSteady, Ended, Quiet;
    FirstStep(strtol, framerate, w, steps);
    var v, rest := Pipeline.Next(strtol, framerate, w, steps[0]), steps[1..];
    SteadyGood(steps[0]);
    if steps[0].ServerRead? {
      SteadyServe(strtol, framerate, w, log, steps[0].k);
      ClientHalf(strtol, framerate, v, rest, log);
    } else {
      SteadyPass(strtol, framerate, w, log, steps[0].reply.value);
      if Ended(v, log, |w.client.turns|) {
        StaysEnded(strtol, framerate, v, rest, log, |w.client.turns|);
      } else {
        ClientHalf(strtol, framerate, v, rest, log);
      }
    }
  }

  /** A stall with a next command that fits ends under every schedule without typing in which
      the server reads at least as often as bytes are on their way to it, and then the loop
      makes more passes than bytes are on their way to the client, in any interleaving with
      the other side and with reads of any size. */
  lemma StallAlwaysEnds(strtol: Bytes -> int, framerate: nat, w: World, first: seq<Step>, second: seq<Step>)
    requires Inv(strtol, framerate, w) && Stalled(w.client) && framerate >= 1
    requires |w.client.input[|Log0(w)|]| <= COMMAND_MAX
    requires AllSteady(first) && ServerReads(first) >= |w.toServer|
    requires AllSteady(second) && Passes(second) > |RunFrom(strtol, framerate, w, first).toClient|
    ensures Ended(RunFrom(strtol, framerate, w, first + second), |Log0(w)|, |w.client.turns|)
  {
    var log, u := |Log0(w)|, RunFrom(strtol, framerate, w, first);
    RunFromAppend(strtol, framerate, w, first, second);
    ServerHalf(strtol, framerate, w, first, log);
    if Ended(u, log, |w.client.turns|) {
      StaysEnded(strtol, framerate, u, second, log, |w.client.turns|);
    } else {
      ClientHalf(strtol, framerate, u, second, log);
    }
  }
}
