/** connection_processing against an independent reading of the stream: decode all of it
    at once and give every player the frames that carry its tag. */
module Demux {
  import opened Bytes
  import opened Frames
  import opened Lockstep

  /** The commands tagged with player i, in order. */
  function ByPlayer(fs: seq<Frame>, i: nat): Commands {
    if fs == [] then [] else (if fs[0].id == i then [fs[0].cmd] else []) + ByPlayer(fs[1..], i)
  }

  lemma {:induction false} ByPlayerAppend(a: seq<Frame>, b: seq<Frame>, i: nat)
    ensures ByPlayer(a + b, i) == ByPlayer(a, i) + ByPlayer(b, i)
  {
    if a == [] {
      assert a + b == b;
    } else {
      assert a + b == [a[0]] + (a[1..] + b) && a == [a[0]] + a[1..];
      hide ByPlayer;
      ByPlayerCons(a[0], a[1..], i);
      ByPlayerCons(a[0], a[1..] + b, i);
      ByPlayerAppend(a[1..], b, i);
    }
  }

  lemma {:induction false} ByPlayerLocal(cmds: Commands, i: nat)
    ensures ByPlayer(LocalFrames(cmds), i) == if i == 0 then cmds else []
  {
    if cmds != [] {
      assert LocalFrames(cmds)[1..] == LocalFrames(cmds[1..]);
      ByPlayerLocal(cmds[1..], i);
    }
  }

  lemma ByPlayerCons(f: Frame, more: seq<Frame>, i: nat)
    ensures ByPlayer([f] + more, i) == (if f.id == i then [f.cmd] else []) + ByPlayer(more, i)
  {
    assert ([f] + more)[1..] == more;
  }

  /** The frames one call of connection_processing takes off the buffer. */
  ghost function Taken(buf: Bytes, logs: Logs): seq<Frame> {
    if HasFrame(buf) && HeadFrame(buf).id < MAX_PLAYER && logs[HeadFrame(buf).id].Some?
    then [HeadFrame(buf)] + Taken(buf[FrameLen(buf)..], Appended(logs, HeadFrame(buf)))
    else []
  }

  /** One call takes frames off the front, appends each to its player's log exactly once,
      and leaves the rest of the stream to be decoded as if nothing had happened. */
  lemma {:induction false} ProcessDelivers(buf: Bytes, logs: Logs)
    ensures var p := Process(buf, logs);
            && Deframe(buf) == Taken(buf, logs) + Deframe(p.buf)
            && DeframeRest(buf) == DeframeRest(p.buf)
            && (p.verdict == Drained <==> Waits(p.buf))
    decreases |buf|
  {
    if HasFrame(buf) && HeadFrame(buf).id < MAX_PLAYER && logs[HeadFrame(buf).id].Some? {
      var f, rest := HeadFrame(buf), buf[FrameLen(buf)..];
      ProcessDelivers(rest, Appended(logs, f));
      Assoc([f], Taken(rest, Appended(logs, f)), Deframe(Process(buf, logs).buf));
    }
  }

  lemma {:induction false} ProcessAppends(buf: Bytes, logs: Logs, i: nat)
    requires i < MAX_PLAYER
    ensures Log(Process(buf, logs).logs, i) == Log(logs, i) + ByPlayer(Taken(buf, logs), i)
    decreases |buf|
  {
    if HasFrame(buf) && HeadFrame(buf).id < MAX_PLAYER && logs[HeadFrame(buf).id].Some? {
      var f, rest := HeadFrame(buf), buf[FrameLen(buf)..];
      var more := Taken(rest, Appended(logs, f));
      assert Taken(buf, logs) == [f] + more && Process(buf, logs) == Process(rest, Appended(logs, f));
      hide Process, Taken, BlockLen, PlayerId, HasFrame;
      ProcessAppends(rest, Appended(logs, f), i);
      ByPlayerCons(f, more, i);
    }
  }

  /** The reads the client made, each followed by one call of connection_processing. */
  function Feed(chunks: seq<Bytes>): Inbox {
    if chunks == [] then Inbox([], NoLogs(), Drained) else
      var before := Feed(chunks[..|chunks| - 1]);
      Process(before.buf + chunks[|chunks| - 1], before.logs)
  }

  function Concat(chunks: seq<Bytes>): Bytes {
    if chunks == [] then [] else Concat(chunks[..|chunks| - 1]) + chunks[|chunks| - 1]
  }

  lemma FeedStep(done: seq<Frame>, r: Bytes, buf: Bytes, chunk: Bytes, logs: Logs)
    requires Deframe(r) == done + Deframe(buf) && DeframeRest(r) == DeframeRest(buf)
    ensures var p, now := Process(buf + chunk, logs), done + Taken(buf + chunk, logs);
            Deframe(r + chunk) == now + Deframe(p.buf) && DeframeRest(r + chunk) == DeframeRest(p.buf)
  {
    DeframeAppend(r, chunk);
    DeframeAppend(buf, chunk);
    ProcessDelivers(buf + chunk, logs);
    Assoc(done, Deframe(buf), Deframe(DeframeRest(buf) + chunk));
    Assoc(done, Taken(buf + chunk, logs), Deframe(Process(buf + chunk, logs).buf));
  }

  /** Whatever the sizes of the reads and however often a new player interrupted decoding,
      nothing is lost or repeated: the logs and the undecoded bytes account for the stream. */
  lemma {:induction false} FeedAccounts(chunks: seq<Bytes>) returns (done: seq<Frame>)
    ensures var p, r := Feed(chunks), Concat(chunks);
            && Deframe(r) == done + Deframe(p.buf) && DeframeRest(r) == DeframeRest(p.buf)
            && (forall i :: 0 <= i < MAX_PLAYER ==> Log(p.logs, i) == ByPlayer(done, i))
            && (p.verdict == Drained <==> Waits(p.buf))
    decreases |chunks|
  {
    if chunks == [] {
      done := [];
    } else {
      var front, chunk := chunks[..|chunks| - 1], chunks[|chunks| - 1];
      var before := FeedAccounts(front);
      var p := Feed(front);
      FeedStep(before, Concat(front), p.buf, chunk, p.logs);
      ProcessDelivers(p.buf + chunk, p.logs);
      done := before + Taken(p.buf + chunk, p.logs);
      forall i | 0 <= i < MAX_PLAYER
        ensures Log(Feed(chunks).logs, i) == ByPlayer(done, i)
      {
        ProcessAppends(p.buf + chunk, p.logs, i);
        ByPlayerAppend(before, Taken(p.buf + chunk, p.logs), i);
      }
    }
  }

  /** Client deframing is chunk-independent: once connection_processing has returned true,
      every log is what decoding the whole stream at once gives that player, and the
      buffer holds what that decoding leaves. */
  lemma ChunkIndependence(chunks: seq<Bytes>)
    requires Feed(chunks).verdict == Drained
    ensures Feed(chunks).buf == DeframeRest(Concat(chunks))
    ensures forall i :: 0 <= i < MAX_PLAYER ==>
                          Log(Feed(chunks).logs, i) == ByPlayer(Deframe(Concat(chunks)), i)
  {
    var done := FeedAccounts(chunks);
    assert Deframe(Feed(chunks).buf) == [];
    assert done + [] == done;
  }

  /** So two clients that read the same bytes in different pieces hold the same logs. */
  lemma SameBytesSameLogs(a: seq<Bytes>, b: seq<Bytes>, i: nat)
    requires Concat(a) == Concat(b) && i < MAX_PLAYER
    requires Feed(a).verdict == Drained && Feed(b).verdict == Drained
    ensures Log(Feed(a).logs, i) == Log(Feed(b).logs, i) && Feed(a).buf == Feed(b).buf
  {
    ChunkIndependence(a);
    ChunkIndependence(b);
  }

  /** With every id in range, every log allocated and no bad header, one call takes all the
      frames in the buffer. */
  lemma {:induction false} ProcessKnown(buf: Bytes, logs: Logs)
    requires forall k :: 0 <= k < |Deframe(buf)| ==>
                           Deframe(buf)[k].id < MAX_PLAYER && logs[Deframe(buf)[k].id].Some?
    requires Waits(DeframeRest(buf))
    ensures Taken(buf, logs) == Deframe(buf)
    ensures Process(buf, logs).verdict == Drained && Process(buf, logs).buf == DeframeRest(buf)
    decreases |buf|
  {
    if HasFrame(buf) {
      var f, more := HeadFrame(buf), Deframe(buf[FrameLen(buf)..]);
      assert Deframe(buf) == [f] + more && Deframe(buf)[0] == f;
      var logs' := Appended(logs, f);
      forall k | 0 <= k < |more|
        ensures more[k].id < MAX_PLAYER && logs'[more[k].id].Some?
      {
        assert more[k] == Deframe(buf)[k + 1];
      }
      ProcessKnown(buf[FrameLen(buf)..], logs');
    }
  }

  // ---- how a call ends, and player discovery

  /** All bytes that the header counts are there, and the client's arithmetic is defined. */
  predicate Complete(b: Bytes) {
    !Waits(b) && 8 + BlockLen(b) <= 0x7FFF_FFFF
  }

  /** What is left in the buffer says why the call ended; and a log is made exactly for the
      unknown player, 0 to 3, whose frame is at the front. */
  lemma {:induction false} ProcessEnds(buf: Bytes, logs: Logs)
    ensures var p := Process(buf, logs);
            && (p.verdict == Drained <==> Waits(p.buf))
            && (p.verdict == Crash <==> Complete(p.buf) && PlayerId(p.buf) >= 4)
            && (p.verdict == NewPlayer <==>
                  Complete(p.buf) && 0 <= PlayerId(p.buf) < 4 && logs[PlayerId(p.buf)].None?)
            && (p.verdict == Undefined <==>
                  !Waits(p.buf) && (8 + BlockLen(p.buf) > 0x7FFF_FFFF || PlayerId(p.buf) < 0
                                    || (PlayerId(p.buf) < 4 && logs[PlayerId(p.buf)].Some? && BlockLen(p.buf) < 1)))
            && (forall i :: 0 <= i < 4 ==>
                  (p.logs[i].Some? <==> logs[i].Some? || (p.verdict == NewPlayer && i == PlayerId(p.buf))))
    decreases |buf|
  {
    if HasFrame(buf) && HeadFrame(buf).id < MAX_PLAYER && logs[HeadFrame(buf).id].Some? {
      ProcessEnds(buf[FrameLen(buf)..], Appended(logs, HeadFrame(buf)));
    }
  }

  ghost predicate Tagged(fs: seq<Frame>) {
    AllSendable(fs) && forall i :: 0 <= i < |fs| ==> fs[i].id < 4
  }

  /** The frame at the front of a stream that has arrived this far. */
  lemma FrontFrame(gs: seq<Frame>, b: Bytes, t: Bytes)
    requires AllSendable(gs) && b + t == Stream(gs) && !Waits(b)
    ensures gs != [] && HasFrame(b) && HeadFrame(b) == gs[0] && PlayerId(b) == gs[0].id
    ensures b[FrameLen(b)..] + t == Stream(gs[1..])
  {
    PartialHeaders(gs, b, t);
    hide GoodHeaders;
    HeadAppend(b, t);
    HeadOfFrame(gs[0], Stream(gs[1..]));
    hide BlockLen, LE32, FrameBytes, PlayerId;
    assert FrameBytes(gs[0]) + Stream(gs[1..]) == b + t;
  }

  /** One call on part of a stream: it takes its first frames, and stops to wait or for a new
      player, 0 to 3. */
  lemma {:induction false} ProcessPartial(gs: seq<Frame>, b: Bytes, t: Bytes, logs: Logs) returns (m: nat)
    requires Tagged(gs) && b + t == Stream(gs)
    ensures m <= |gs| && Taken(b, logs) == gs[..m]
    ensures var p := Process(b, logs); p.buf + t == Stream(gs[m..]) && p.verdict in {Drained, NewPlayer}
    decreases |b|
  {
    if Waits(b) {
      m := 0;
    } else {
      FrontFrame(gs, b, t);
      var f := gs[0];
      if logs[f.id].None? {
        m := 0;
      } else {
        hide BlockLen, PlayerId, GoodHeader, FrameBytes;
        m := ProcessPartial(gs[1..], b[FrameLen(b)..], t, Appended(logs, f));
        m := m + 1;
        assert gs[..m] == [f] + gs[1..][..m - 1];
      }
    }
  }

  lemma CountGrows(before: Logs, after: Logs, id: nat)
    requires id < 4 && before[id].None?
    requires forall i :: 0 <= i < 4 ==> (after[i].Some? <==> before[i].Some? || i == id)
    ensures CountPlayers(after) == CountPlayers(before) + 1
  {
  }

  /** Any reads of any part of a stream: what was delivered is its first frames, and what was
      not is still in the buffer or to come. */
  lemma {:induction false} FeedPartial(chunks: seq<Bytes>, fs: seq<Frame>, t: Bytes) returns (k: nat)
    requires Tagged(fs) && Concat(chunks) + t == Stream(fs)
    ensures k <= |fs|
    ensures var p := Feed(chunks);
            && p.buf + t == Stream(fs[k..]) && p.verdict in {Drained, NewPlayer}
            && (forall i :: 0 <= i < 4 ==> Log(p.logs, i) == ByPlayer(fs[..k], i))
            && (p.verdict == NewPlayer ==> CountPlayers(p.logs) >= 1)
    decreases |chunks|
  {
    if chunks == [] {
      k := 0;
    } else {
      var front, chunk := chunks[..|chunks| - 1], chunks[|chunks| - 1];
      Assoc(Concat(front), chunk, t);
      var k0 := FeedPartial(front, fs, chunk + t);
      assert Feed(chunks) == Process(Feed(front).buf + chunk, Feed(front).logs);
      hide Process, Taken, Stream, ByPlayer, Waits, Concat, Feed;
      k := FeedMore(Feed(front), chunk, fs, k0, t);
    }
  }

  /** One more read of the stream. */
  lemma FeedMore(p: Inbox, chunk: Bytes, fs: seq<Frame>, k0: nat, t: Bytes) returns (k: nat)
    requires Tagged(fs) && k0 <= |fs| && p.buf + (chunk + t) == Stream(fs[k0..])
    requires forall i :: 0 <= i < 4 ==> Log(p.logs, i) == ByPlayer(fs[..k0], i)
    ensures k <= |fs|
    ensures var q := Process(p.buf + chunk, p.logs);
            && q.buf + t == Stream(fs[k..]) && q.verdict in {Drained, NewPlayer}
            && (forall i :: 0 <= i < 4 ==> Log(q.logs, i) == ByPlayer(fs[..k], i))
            && (q.verdict == NewPlayer ==> CountPlayers(q.logs) >= 1)
  {
    hide Process, Taken, Stream, ByPlayer, Waits, Log;
    Assoc(p.buf, chunk, t);
    var m := ProcessPartial(fs[k0..], p.buf + chunk, t, p.logs);
    k := k0 + m;
    SomePlayer(p.buf + chunk, p.logs);
    MoreFrames(fs, k0, m);
    forall i | 0 <= i < 4
      ensures Log(Process(p.buf + chunk, p.logs).logs, i) == ByPlayer(fs[..k], i)
    {
      ProcessAppends(p.buf + chunk, p.logs, i);
      ByPlayerAppend(fs[..k0], fs[k0..][..m], i);
    }
  }

  lemma MoreFrames(fs: seq<Frame>, k: nat, m: nat)
    requires k <= |fs| && m <= |fs[k..]|
    ensures fs[..k + m] == fs[..k] + fs[k..][..m] && fs[k + m..] == fs[k..][m..]
  {
  }

  lemma SomePlayer(b: Bytes, logs: Logs)
    ensures var p := Process(b, logs); p.verdict == NewPlayer ==> CountPlayers(p.logs) >= 1
  {
    ProcessEnds(b, logs);
    hide Process;
    var p := Process(b, logs);
    if p.verdict == NewPlayer {
      assert p.logs[PlayerId(p.buf)].Some?;
    }
  }

  /** Reads of nothing, after the stream: each makes one more player's log, or all is delivered. */
  lemma {:induction false} Retries(chunks: seq<Bytes>, fs: seq<Frame>, n: nat)
    requires Tagged(fs) && Concat(chunks) == Stream(fs)
    ensures Concat(chunks + Empties(n)) == Stream(fs)
    ensures var p := Feed(chunks + Empties(n)); p.verdict == Drained || CountPlayers(p.logs) >= n + 1
  {
    if n == 0 {
      assert chunks + Empties(0) == chunks && Stream(fs) + [] == Stream(fs);
      var k := FeedPartial(chunks, fs, []);
    } else {
      hide Stream, Concat, Feed, CountPlayers;
      Retries(chunks, fs, n - 1);
      var before := chunks + Empties(n - 1);
      assert chunks + Empties(n) == before + [[]];
      OneMoreRead(before, fs);
    }
  }

  lemma OneMoreRead(chunks: seq<Bytes>, fs: seq<Frame>)
    requires Tagged(fs) && Concat(chunks) == Stream(fs)
    ensures Concat(chunks + [[]]) == Stream(fs)
    ensures var p, q := Feed(chunks), Feed(chunks + [[]]);
            && (p.verdict == Drained ==> q.verdict == Drained)
            && (q.verdict != Drained ==> CountPlayers(q.logs) == CountPlayers(p.logs) + 1)
  {
    var all, p := chunks + [[]], Feed(chunks);
    assert all[..|all| - 1] == chunks && Stream(fs) + [] == Stream(fs) && p.buf + [] == p.buf;
    var k := FeedPartial(all, fs, []);
    var done := FeedAccounts(chunks);
    ProcessEnds(p.buf, p.logs);
    var q := Feed(all);
    assert q == Process(p.buf, p.logs);
    if q.verdict != Drained {
      CountGrows(p.logs, q.logs, PlayerId(q.buf));
    }
  }

  /** Discovery is complete: whatever the reads of a stream, four more that find nothing are
      enough for every player's log to exist and hold exactly that player's commands. */
  lemma AllDelivered(chunks: seq<Bytes>, fs: seq<Frame>)
    requires Tagged(fs) && Concat(chunks) == Stream(fs)
    ensures var p := Feed(chunks + Empties(4));
            && p.verdict == Drained && p.buf == []
            && (forall i :: 0 <= i < 4 ==> Log(p.logs, i) == ByPlayer(fs, i))
  {
    hide Stream, Concat, ByPlayer, Waits, Feed;
    Retries(chunks, fs, 4);
    var all := chunks + Empties(4);
    assert Stream(fs) + [] == Stream(fs);
    var k := FeedPartial(all, fs, []);
    var done := FeedAccounts(all);
    assert CountPlayers(Feed(all).logs) <= 4;
    hide CountPlayers, Log, Deframe, DeframeRest;
    NothingLeft(fs[k..], Feed(all).buf);
    assert fs[..k] == fs;
  }

  lemma NothingLeft(gs: seq<Frame>, b: Bytes)
    requires AllSendable(gs) && b + [] == Stream(gs) && Waits(b)
    ensures gs == [] && b == []
  {
    LeftoverIsShort(gs, b, []);
    StreamLength(gs);
  }
}
