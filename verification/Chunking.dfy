/** From bytes to turns: what a client computes depends on the bytes it was sent, and not on
    how they were cut into reads, when they came or how often the program was restarted. */
module Chunking {
  import opened Bytes
  import opened Frames
  import opened Lockstep
  import opened Demux
  import opened Determinism
  import P = Pipeline

  /** The bytes that this step reads. */
  function StepReads(c: Client, act: Act): Bytes {
    if act.Play? && c.running && !c.crashed && act.e.io.Received? then act.e.io.bytes else []
  }

  /** Everything the client has read. */
  function BytesRead(strtol: Bytes -> int, framerate: nat, acts: seq<Act>): Bytes {
    if acts == [] then [] else
      var front := acts[..|acts| - 1];
      BytesRead(strtol, framerate, front) + StepReads(Run(strtol, framerate, front), acts[|acts| - 1])
  }

  /** Of a step, decoding sees only the bytes it reads. */
  lemma StepDecodes(strtol: Bytes -> int, framerate: nat, c: Client, act: Act)
    requires WellFormed(c)
    ensures var d, r := Step(strtol, framerate, c, act), StepReads(c, act);
            if act.Play? && c.running && !c.crashed && act.e.io.Received?
            then d.inbox == Process(c.inbox + r, c.logs).buf && d.logs == Process(c.inbox + r, c.logs).logs
            else d.inbox == c.inbox && d.logs == c.logs && r == []
  {
    if act.Play? && c.running && !c.crashed {
      PreparedKeeps(c, act.e);
      P.PassShape(strtol, c, act.e);
    }
  }

  /** Every execution accounts for its bytes: the frames delivered so far and those still in
      the buffer are the frames of all that was read, and each log holds its player's. */
  ghost predicate Accounts(c: Client, read: Bytes, done: seq<Frame>) {
    && Deframe(read) == done + Deframe(c.inbox) && DeframeRest(read) == DeframeRest(c.inbox)
    && forall i :: 0 <= i < MAX_PLAYER ==> Log(c.logs, i) == ByPlayer(done, i)
  }

  lemma AccountsOn(c: Client, read: Bytes, done: seq<Frame>, r: Bytes, d: Client)
    requires Accounts(c, read, done)
    requires d.inbox == Process(c.inbox + r, c.logs).buf && d.logs == Process(c.inbox + r, c.logs).logs
    ensures Accounts(d, read + r, done + Taken(c.inbox + r, c.logs))
  {
    FeedStep(done, read, c.inbox, r, c.logs);
    forall i | 0 <= i < MAX_PLAYER
      ensures Log(d.logs, i) == ByPlayer(done + Taken(c.inbox + r, c.logs), i)
    {
      ProcessAppends(c.inbox + r, c.logs, i);
      ByPlayerAppend(done, Taken(c.inbox + r, c.logs), i);
    }
  }

  lemma {:induction false} ClientAccounts(strtol: Bytes -> int, framerate: nat, acts: seq<Act>)
    returns (done: seq<Frame>)
    ensures Accounts(Run(strtol, framerate, acts), BytesRead(strtol, framerate, acts), done)
    decreases |acts|
  {
    if acts == [] {
      done := [];
    } else {
      var front, act := acts[..|acts| - 1], acts[|acts| - 1];
      done := ClientAccounts(strtol, framerate, front);
      var c, read := Run(strtol, framerate, front), BytesRead(strtol, framerate, front);
      var r := StepReads(c, act);
      StepDecodes(strtol, framerate, c, act);
      if act.Play? && c.running && !c.crashed && act.e.io.Received? {
        AccountsOn(c, read, done, r, Run(strtol, framerate, acts));
        done := done + Taken(c.inbox + r, c.logs);
      } else {
        assert read + [] == read;
      }
    }
  }

  /** The logs are made of a prefix of the frames of any longer stream. */
  lemma FramesOfLonger(c: Client, read: Bytes, done: seq<Frame>, whole: Bytes)
    requires Accounts(c, read, done) && read <= whole
    ensures done <= Deframe(whole)
  {
    assert whole == read + whole[|read|..];
    DeframeAppend(read, whole[|read|..]);
  }

  lemma ByPlayerPrefix(a: seq<Frame>, b: seq<Frame>, i: nat, t: nat)
    requires a <= b && t < |ByPlayer(a, i)|
    ensures t < |ByPlayer(b, i)| && ByPlayer(a, i)[t] == ByPlayer(b, i)[t]
  {
    assert b == a + b[|a|..];
    ByPlayerAppend(a, b[|a|..], i);
  }

  /** Two executions whose clients were sent the same bytes, as far as both have read them:
      with the same players, the slower one's turns are the faster one's first turns, and while
      it runs its frame, pause and goal are the fold over them. Nothing is assumed of the logs. */
  lemma SameBytesSameGame(strtol: Bytes -> int, f1: nat, acts1: seq<Act>, f2: nat, acts2: seq<Act>)
    requires var c, d := Run(strtol, f1, acts1), Run(strtol, f2, acts2);
             !c.crashed && !d.crashed && c.players == d.players && |c.turns| <= |d.turns|
    requires var r, s := BytesRead(strtol, f1, acts1), BytesRead(strtol, f2, acts2);
             r <= s || s <= r
    ensures var c, d := Run(strtol, f1, acts1), Run(strtol, f2, acts2);
            && c.turns == d.turns[..|c.turns|]
            && (c.running ==> c.at == Replay(strtol, d.turns[..|c.turns|]))
            && (c.running && d.running && |c.turns| == |d.turns| ==> c.at == d.at)
  {
    var r, s := BytesRead(strtol, f1, acts1), BytesRead(strtol, f2, acts2);
    var done1 := ClientAccounts(strtol, f1, acts1);
    var done2 := ClientAccounts(strtol, f2, acts2);
    var c, d := Run(strtol, f1, acts1), Run(strtol, f2, acts2);
    var whole := if r <= s then s else r;
    FramesOfLonger(c, r, done1, whole);
    FramesOfLonger(d, s, done2, whole);
    Reachable(strtol, f1, acts1);
    Reachable(strtol, f2, acts2);
    hide Run, BytesRead, Deframe, Replay;
    SameFramesSameCommands(strtol, c, done1, d, done2, Deframe(whole));
    LockstepDeterminism(strtol, f1, acts1, f2, acts2);
  }

  lemma SameFramesSameCommands(strtol: Bytes -> int, c: Client, done1: seq<Frame>, d: Client, done2: seq<Frame>,
                               whole: seq<Frame>)
    requires Inv(strtol, c) && Inv(strtol, d) && c.players == d.players && |c.turns| <= |d.turns|
    requires done1 <= whole && done2 <= whole
    requires forall i :: 0 <= i < MAX_PLAYER ==>
                           Log(c.logs, i) == ByPlayer(done1, i) && Log(d.logs, i) == ByPlayer(done2, i)
    ensures SameCommands(c, d, |c.turns|)
  {
    forall t, i | 0 <= t < |c.turns| && 0 <= i < c.players && i < MAX_PLAYER
      ensures t < |Log(c.logs, i)| && t < |Log(d.logs, i)| && Log(c.logs, i)[t] == Log(d.logs, i)[t]
    {
      assert Follows(c.turns[t], c.logs, t, i) && Follows(d.turns[t], d.logs, t, i);
      ByPlayerPrefix(done1, whole, i, t);
      ByPlayerPrefix(done2, whole, i, t);
    }
  }
}
