/** game_record in main.c: the logs of all the players, and command_frame, which takes the
    next command of each. */
module Players {
  import opened Bytes
  import opened Frames
  import opened Records
  import opened Lockstep
  import Memory

  /** RecordRW_t game_record[MAX_PLAYER]. The ghost fields are what the array amounts to. */
  class GameRecord {
    const recs: seq<RecordRW>
    ghost var logs: Logs
    ghost var cursors: seq<nat>
    ghost var sizes: seq<nat>  // the bytes in each log
    ghost var Repr: set<object>

    ghost predicate Valid()
      reads this, Repr
      ensures Valid() ==> this in Repr
    {
      && this in Repr && |recs| == |cursors| == |sizes| == MAX_PLAYER
      && (forall i :: 0 <= i < MAX_PLAYER ==>
            && recs[i] in Repr && recs[i].Repr <= Repr && this !in recs[i].Repr
            && recs[i].Valid()
            && logs[i] == recs[i].View()
            && cursors[i] == recs[i].read.commandCount && sizes[i] == recs[i].write.byteCount)
      && (forall i, j :: 0 <= i < j < MAX_PLAYER ==> recs[i].Repr !! recs[j].Repr)
    }

    /** Every log can take n more bytes. */
    ghost predicate RoomFor(n: nat)
      reads this
    {
      forall i :: 0 <= i < |sizes| ==> sizes[i] + n < BYTE_LIMIT
    }

    /** game_record[MAX_PLAYER] = {0} */
    constructor ()
      ensures Valid() && fresh(Repr) && logs == NoLogs() && cursors == Rewound()
    {
      hide RecordRW.Valid;
      var r: seq<RecordRW> := [];
      while |r| < MAX_PLAYER
        invariant |r| <= MAX_PLAYER
        invariant forall i :: 0 <= i < |r| ==> r[i].Valid() && r[i].Repr == {r[i]} && fresh(r[i])
        invariant forall i :: 0 <= i < |r| ==> r[i].rec == null && r[i].read == r[i].write == ORIGIN
        invariant forall i, j :: 0 <= i < j < |r| ==> r[i] != r[j]
      {
        var rw := new RecordRW();
        r := r + [rw];
      }
      recs := r;
      logs, cursors, sizes := NoLogs(), Rewound(), Rewound();
      new;
      Repr := {this, r[0], r[1], r[2], r[3]};
    }

    /** record_append to one player's log. */
    method Append(id: nat, cmd: Bytes)
      requires Valid() && id < MAX_PLAYER && logs[id].Some?
      requires Free(NUL, cmd) && |cmd| + 1 <= ALLOC_MIN && RoomFor(|cmd| + 1)
      modifies Repr
      ensures Valid() && fresh(Repr - old(Repr)) && cursors == old(cursors)
      ensures logs == Appended(old(logs), Frame(id, cmd))
      ensures sizes == old(sizes)[id := old(sizes)[id] + |cmd| + 1]
    {
      hide RecordRW.Valid;
      recs[id].Append(cmd);
      logs, Repr := Appended(logs, Frame(id, cmd)), Repr + recs[id].Repr;
      sizes := sizes[id := sizes[id] + |cmd| + 1];
    }

    /** record_alloc for a player heard from for the first time. */
    method Allocate(id: nat)
      requires Valid() && id < MAX_PLAYER && logs[id].None?
      modifies Repr
      ensures Valid() && fresh(Repr - old(Repr)) && cursors == old(cursors)
      ensures logs == old(logs)[id := Some([])]
      ensures sizes == old(sizes)
    {
      hide RecordRW.Valid;
      recs[id].Allocate();
      logs, Repr := logs[id := Some([])], Repr + recs[id].Repr;
    }

    /** record_read for one player. */
    method Next(id: nat) returns (cmd: Bytes)
      requires Valid() && id < MAX_PLAYER && cursors[id] < |Log(logs, id)|
      modifies Repr
      ensures Valid() && Repr == old(Repr) && logs == old(logs)
      ensures cmd == Log(logs, id)[old(cursors)[id]] && cursors == old(cursors)[id := old(cursors)[id] + 1]
    {
      hide RecordRW.Valid;
      var next := recs[id].Next();
      cmd := next.value;
      cursors := cursors[id := cursors[id] + 1];
    }

    /** read = {0}, for one player. */
    method RewindOne(id: nat)
      requires Valid() && id < MAX_PLAYER
      modifies Repr
      ensures Valid() && Repr == old(Repr) && logs == old(logs) && cursors == old(cursors)[id := 0]
    {
      hide RecordRW.Valid;
      recs[id].Rewind();
      cursors := cursors[id := 0];
    }

    /** The loop in main that rewinds the game logs. */
    method Rewind()
      requires Valid()
      modifies Repr
      ensures Valid() && Repr == old(Repr) && logs == old(logs) && cursors == Rewound()
    {
      hide Valid;
      CursorCount();
      for i := 0 to MAX_PLAYER
        invariant Valid() && Repr == old(Repr) && logs == old(logs)
        invariant |cursors| == MAX_PLAYER && forall j :: 0 <= j < i ==> cursors[j] == 0
      {
        RewindOne(i);
      }
      assert cursors == Rewound();
    }

    lemma CursorCount()
      requires Valid()
      ensures |cursors| == |recs| == |sizes| == MAX_PLAYER
    {
    }

    /** RoomFor, decided on the write cursors. */
    method HasRoom(n: nat) returns (ok: bool)
      requires Valid()
      ensures ok == RoomFor(n)
    {
      hide RecordRW.Valid;
      ok := true;
      for i := 0 to MAX_PLAYER
        invariant ok == forall j :: 0 <= j < i ==> sizes[j] + n < BYTE_LIMIT
      {
        ok := ok && recs[i].write.byteCount + n < BYTE_LIMIT;
      }
    }

    /** game_players */
    method Count() returns (count: nat)
      requires Valid()
      ensures count == CountPlayers(logs) <= MAX_PLAYER
    {
      hide RecordRW.Valid;
      count := 0;
      for i := 0 to MAX_PLAYER
        invariant count == (if i > 0 && logs[0].Some? then 1 else 0) + (if i > 1 && logs[1].Some? then 1 else 0)
                           + (if i > 2 && logs[2].Some? then 1 else 0) + (if i > 3 && logs[3].Some? then 1 else 0)
      {
        count := count + if recs[i].rec != null then 1 else 0;
      }
    }

    lemma Behind(i: nat)
      requires Valid() && i < MAX_PLAYER
      ensures |cursors| == MAX_PLAYER && cursors[i] <= |Log(logs, i)|
    {
    }

    /** recording[id].rec == 0 */
    method Missing(id: nat) returns (missing: bool)
      requires Valid() && id < MAX_PLAYER
      ensures missing == logs[id].None?
    {
      missing := recs[id].rec == null;
    }

    /** How many commands of player i are unread: write.command_count - read.command_count. */
    method Unread(i: nat) returns (n: int)
      requires Valid() && i < MAX_PLAYER
      ensures n == |Log(logs, i)| - cursors[i] >= 0
    {
      n := recs[i].write.commandCount - recs[i].read.commandCount;
    }
  }

  /** Command i of a frame lies NUL-terminated at starts[i], right after command i - 1. */
  ghost predicate Packed(b: Bytes, starts: seq<nat>, lens: seq<nat>, cmds: Commands) {
    && |starts| == |lens| == |cmds|
    && forall i :: 0 <= i < |cmds| ==> PackedAt(b, starts[i], lens[i], cmds, i)
  }

  ghost predicate PackedAt(b: Bytes, start: nat, len: nat, cmds: Commands, i: nat)
    requires i < |cmds|
  {
    && start == PackedLen(cmds[..i]) && len == |cmds[i]|
    && start + len < |b| && b[start..start + len] == cmds[i] && b[start + len] == NUL
  }

  lemma {:induction false} PackedLenGrows(cmds: Commands, i: nat)
    requires i <= |cmds|
    ensures PackedLen(cmds[..i]) <= PackedLen(cmds)
    ensures i < |cmds| ==> PackedLen(cmds[..i + 1]) == PackedLen(cmds[..i]) + |cmds[i]| + 1
    decreases |cmds| - i
  {
    if i < |cmds| {
      assert cmds[..i + 1][..i] == cmds[..i];
      PackedLenGrows(cmds, i + 1);
    } else {
      assert cmds[..i] == cmds;
    }
  }

  /** The frame's commands do not overlap. */
  lemma {:induction false} PackedApart(b: Bytes, starts: seq<nat>, lens: seq<nat>, cmds: Commands, i: nat, j: nat)
    requires Packed(b, starts, lens, cmds) && i < j < |cmds|
    ensures starts[i] + lens[i] < starts[j]
    decreases j - i
  {
    PackedLenGrows(cmds, j - 1);
    assert PackedAt(b, starts[j - 1], lens[j - 1], cmds, j - 1) && PackedAt(b, starts[j], lens[j], cmds, j);
    if i < j - 1 {
      PackedApart(b, starts, lens, cmds, i, j - 1);
    }
  }

  /** One command copied behind those already in the frame. */
  method PutInFrame(buffer: array<byte>, at: nat, cmd: Bytes,
                    ghost starts: seq<nat>, ghost lens: seq<nat>, ghost cmds: Commands)
    requires at + |cmd| < buffer.Length && at == PackedLen(cmds) && Packed(buffer[..], starts, lens, cmds)
    modifies buffer
    ensures Packed(buffer[..], starts + [at], lens + [|cmd|], cmds + [cmd])
  {
    ghost var b := buffer[..];
    Memory.Copy(buffer, at, cmd);
    buffer[at + |cmd|] := NUL;
    assert buffer[..][..at] == buffer[..at] == b[..at];
    assert buffer[..][at..at + |cmd|] == buffer[at..at + |cmd|] == cmd;
    PackedMore(b, buffer[..], at, cmd, starts, lens, cmds);
  }

  lemma SameFront(b: Bytes, d: Bytes, at: nat, i: nat, j: nat)
    requires i <= j < at <= |b| == |d| && d[..at] == b[..at]
    ensures d[i..j] == b[i..j] && d[j] == b[j]
  {
    forall k | i <= k <= j
      ensures d[k] == b[k]
    {
      assert d[k] == d[..at][k] && b[k] == b[..at][k];
    }
  }

  lemma PackedMore(b: Bytes, d: Bytes, at: nat, cmd: Bytes, starts: seq<nat>, lens: seq<nat>, cmds: Commands)
    requires Packed(b, starts, lens, cmds) && at == PackedLen(cmds) && at + |cmd| < |b| == |d|
    requires d[..at] == b[..at] && d[at..at + |cmd|] == cmd && d[at + |cmd|] == NUL
    ensures Packed(d, starts + [at], lens + [|cmd|], cmds + [cmd])
  {
    hide PackedLen;
    var all := cmds + [cmd];
    forall i | 0 <= i < |all|
      ensures PackedAt(d, (starts + [at])[i], (lens + [|cmd|])[i], all, i)
    {
      if i < |cmds| {
        assert PackedAt(b, starts[i], lens[i], cmds, i);
        FrameStep(cmds, i);
        assert all[..i] == cmds[..i];
        SameFront(b, d, at, starts[i], starts[i] + lens[i]);
      } else {
        assert all[..i] == cmds;
      }
    }
  }

  lemma FrameStep(cmds: Commands, i: nat)
    requires i < |cmds|
    ensures cmds[..i + 1] == cmds[..i] + [cmds[i]]
    ensures PackedLen(cmds[..i]) + |cmds[i]| + 1 == PackedLen(cmds[..i + 1]) <= PackedLen(cmds)
  {
    PackedLenGrows(cmds, i);
    PackedLenGrows(cmds, i + 1);
    TakeSnoc(cmds, i);
  }

  /** The frame is one piece: the commands with their NULs, one behind the other, and nothing
      between them. */
  lemma {:induction false} PackedIsJoin(b: Bytes, starts: seq<nat>, lens: seq<nat>, cmds: Commands)
    requires Packed(b, starts, lens, cmds)
    ensures PackedLen(cmds) == |Join(NUL, cmds)| <= |b|
    ensures b[..PackedLen(cmds)] == Join(NUL, cmds)
    ensures forall i :: 0 <= i < |cmds| ==> starts[i] == |Join(NUL, cmds[..i])|
    decreases |cmds|
  {
    if cmds != [] {
      var n := |cmds| - 1;
      var front, last := cmds[..n], cmds[n];
      PackedFront(b, starts, lens, cmds);
      PackedIsJoin(b, starts[..n], lens[..n], front);
      assert cmds == front + [last];
      JoinSnoc(front, last);
      assert PackedAt(b, starts[n], lens[n], cmds, n);
      FrameStep(cmds, n);
      assert cmds[..n + 1] == cmds;
      forall i | 0 <= i < n
        ensures starts[i] == |Join(NUL, cmds[..i])|
      {
        assert starts[i] == starts[..n][i] && front[..i] == cmds[..i];
      }
      hide PackedLen, Join, Packed, PackedAt;
      var m := PackedLen(front);
      assert b[..m + |last| + 1] == b[..m] + b[m..m + |last|] + [b[m + |last|]];
    }
  }

  lemma PackedFront(b: Bytes, starts: seq<nat>, lens: seq<nat>, cmds: Commands)
    requires Packed(b, starts, lens, cmds) && cmds != []
    ensures var n := |cmds| - 1; Packed(b, starts[..n], lens[..n], cmds[..n])
  {
    var n := |cmds| - 1;
    forall i | 0 <= i < n
      ensures PackedAt(b, starts[..n][i], lens[..n][i], cmds[..n], i)
    {
      assert PackedAt(b, starts[i], lens[i], cmds, i) && cmds[..n][..i] == cmds[..i];
    }
  }

  lemma PackedNothing(b: Bytes)
    ensures PackedLen([]) == 0 && Packed(b, [], [], [])
  {
  }

  /** The next unread commands of the first players. */
  ghost predicate NextCommandsAre(logs: Logs, cursors: seq<nat>, cmds: Commands) {
    && |cmds| <= |cursors| == MAX_PLAYER
    && forall i :: 0 <= i < |cmds| ==> cursors[i] < |Log(logs, i)| && cmds[i] == Log(logs, i)[cursors[i]]
  }

  /** command_frame: it fails exactly when the players' next commands do not fit. */
  method CommandFrame(game: GameRecord, players: nat, ghost cmds: Commands)
    returns (ok: bool, buffer: array<byte>, starts: seq<nat>, lens: seq<nat>)
    requires game.Valid() && players == |cmds| && NextCommandsAre(game.logs, game.cursors, cmds)
    modifies game.Repr
    ensures game.Valid() && game.Repr == old(game.Repr) && game.logs == old(game.logs)
    ensures ok <==> PackedLen(cmds) <= 4096
    ensures fresh(buffer) && (ok ==> Packed(buffer[..], starts, lens, cmds))
    ensures ok ==> game.cursors == Advanced(old(game.cursors), players)
  {
    game.CursorCount();
    assert players <= MAX_PLAYER;
    hide GameRecord.Valid, Packed, PackedLen, Advanced, NextCommandsAre;
    ghost var cursors := game.cursors;
    AdvancedNone(cursors);
    buffer := new byte[FRAME_BUF_LEN](_ => 0);
    starts, lens := [], [];
    var at: nat := 0;
    PackedNothing(buffer[..]);
    assert cmds[..0] == [];
    for i := 0 to players
      invariant game.Valid() && game.Repr == old(game.Repr) && game.logs == old(game.logs)
      invariant fresh(buffer) && buffer.Length == FRAME_BUF_LEN && buffer !in game.Repr
      invariant game.cursors == Advanced(cursors, i)
      invariant at == PackedLen(cmds[..i]) <= FRAME_BUF_LEN
      invariant Packed(buffer[..], starts, lens, cmds[..i])
    {
      FrameStep(cmds, i);
      var fits, len := FrameOne(game, i, buffer, at, starts, lens, cmds, cursors);
      if !fits { return false, buffer, starts, lens; }
      starts, lens, at := starts + [at], lens + [len], at + len + 1;
    }
    assert cmds[..players] == cmds;
    ok := true;
  }

  /** One player's part of command_frame. */
  method FrameOne(game: GameRecord, i: nat, buffer: array<byte>, at: nat,
                  ghost starts: seq<nat>, ghost lens: seq<nat>, ghost cmds: Commands, ghost cursors: seq<nat>)
    returns (fits: bool, len: nat)
    requires game.Valid() && buffer !in game.Repr && i < |cmds|
    requires NextCommandsAre(game.logs, cursors, cmds) && game.cursors == Advanced(cursors, i)
    requires Packed(buffer[..], starts, lens, cmds[..i]) && at == PackedLen(cmds[..i])
    modifies game.Repr, buffer
    ensures game.Valid() && game.Repr == old(game.Repr) && game.logs == old(game.logs)
    ensures i < |cursors| && game.cursors == Advanced(cursors, i + 1)
    ensures len == |cmds[i]| && (fits <==> at + len < buffer.Length)
    ensures fits ==> Packed(buffer[..], starts + [at], lens + [len], cmds[..i + 1])
  {
    FrameStep(cmds, i);
    hide GameRecord.Valid, Packed, PackedLen, Advanced, NextCommandsAre;
    var cmd := NextOf(game, i, cmds, cursors);
    len := |cmd|;
    fits := PutIfFits(buffer, at, cmd, starts, lens, cmds[..i], cmds[..i + 1]);
  }

  method PutIfFits(buffer: array<byte>, at: nat, cmd: Bytes,
                   ghost starts: seq<nat>, ghost lens: seq<nat>, ghost cmds: Commands, ghost more: Commands)
    returns (fits: bool)
    requires at == PackedLen(cmds) && Packed(buffer[..], starts, lens, cmds) && more == cmds + [cmd]
    modifies buffer
    ensures fits <==> at + |cmd| < buffer.Length
    ensures fits ==> Packed(buffer[..], starts + [at], lens + [|cmd|], more)
  {
    hide Packed, PackedLen;
    fits := at + |cmd| < buffer.Length;
    if fits {
      PutInFrame(buffer, at, cmd, starts, lens, cmds);
    }
  }

  method NextOf(game: GameRecord, i: nat, ghost cmds: Commands, ghost cursors: seq<nat>) returns (cmd: Bytes)
    requires game.Valid() && i < |cmds|
    requires NextCommandsAre(game.logs, cursors, cmds) && game.cursors == Advanced(cursors, i)
    modifies game.Repr
    ensures game.Valid() && game.Repr == old(game.Repr) && game.logs == old(game.logs)
    ensures i < |cursors| && game.cursors == Advanced(cursors, i + 1) && cmd == cmds[i]
  {
    AdvancedOne(game.logs, cursors, cmds, i);
    hide GameRecord.Valid, Advanced, NextCommandsAre;
    cmd := game.Next(i);
  }

  lemma AdvancedNone(cursors: seq<nat>)
    ensures Advanced(cursors, 0) == cursors
  {
  }

  lemma AdvancedOne(logs: Logs, cursors: seq<nat>, cmds: Commands, i: nat)
    requires NextCommandsAre(logs, cursors, cmds) && i < |cmds|
    ensures i < MAX_PLAYER == |cursors| && Advanced(cursors, i)[i] == cursors[i] < |Log(logs, i)|
    ensures cmds[i] == Log(logs, i)[cursors[i]]
    ensures Advanced(cursors, i)[i := cursors[i] + 1] == Advanced(cursors, i + 1)
  {
  }
}
