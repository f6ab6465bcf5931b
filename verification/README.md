# A lockstep game console, proved

Every command a player types goes into an input log, over a socket to a server that cuts the
byte stream into commands and frames each of them, back over the socket, and into the log of the
player it belongs to. The simulation takes one command of every player per turn, so all machines
that see the same logs compute the same thing. This project models that path from the keyboard
to the turn, byte by byte, together with the clock that paces it and the two small numeric parts
beside it, and proves what the program relies on.

## How it is put together

- `Bytes.dfy` cuts and joins delimited byte streams; `Memory.dfy` is memcpy and memmove over
  arrays; `Words.dfy` is 64-bit wrap-around.
- `Records.dfy` is the growable log, `Frames.dfy` the wire format, `Server.dfy` the reframing
  server, `Connection.dfy` the client's receive buffer and sending loop, `Players.dfy` the logs of
  all players and turn packing, `Input.dfy` the line splitter, `Clock.dfy` and `Loop.dfy` the
  pacing, `Console.dfy` the simulation loop and the restart loop. All of these are classes over
  the arrays and counters of the C program; every method states what it does to them and to the
  memory they use, so calls can follow one another.
- `Lockstep.dfy` says what the client does as functions on values (`Process`, `Prepared`, `Sync`,
  `PlayTurn`, `Pass`, `Restart`). The classes of `Connection.dfy` and `Console.dfy` are proved to
  compute exactly these.
- `Demux.dfy` compares decoding chunk by chunk with decoding the whole stream at once, and says how
  each call ends. `Endings.dfy` and `Goals.dfy` say what typing, file changes, the network and the
  simulation command do, from the bytes of the lines and commands alone.
- `Determinism.dfy` proves, for one client against any server and any timing, that a run is a
  fold over its commands; `Chunking.dfy` joins the two: what a client computes depends only on the
  bytes it has read.
- `Pipeline.dfy` is the machine with the local server: client, both byte streams and server, as a
  step system in which each read takes an arbitrary number of bytes. `EndToEnd.dfy`,
  `Startup.dfy`, `Oversized.dfy` and `Schedules.dfy` hold the theorems about all its executions.
  `Machine.dfy` proves that the classes, moved by their own methods, take exactly its steps, and
  `Execution.dfy` chains these into whole executions from the start of the program.
- `Hash.dfy` and `Stats.dfy` stand alone.

The main results, hardest first:

1. Over every interleaving and every chunking, through player discovery and restarts, player 0's
   log is a prefix of the commands the server has framed, which are a prefix of those sent, which
   are a prefix of the input log (`EndToEnd.PrefixChain`), and sent = executed + queued + in flight
   (`EndToEnd.Conservation`).
2. A stall always has at least `input_queue` commands in flight (`EndToEnd.StallHasFlight`), and it
   can be ended by delivery alone if and only if the next command is at most 4087 bytes
   (`EndToEnd.StallEndsExactly`). The same bound on the first command decides whether a player is
   ever found (`Startup.PlayerFoundExactly`). Delivery always gets exactly as far as the first
   command over the bound (`Oversized.DeliverableExactly`), and executions with such a command
   exist (`Oversized.LongFirst`, `Oversized.LongStall`). Within the bound a stall ends under every
   schedule in which both sides keep reading (`Schedules.StallAlwaysEnds`).
3. Two machines, at any two moments of any two executions, that were sent the same bytes, as far
   as both have read them, and that have the same players, agree on their turns and, while both
   are still running, on `frame`, `pause_frame` and `simulation_goal`, however those bytes were cut
   into reads (`Chunking.SameBytesSameGame`, from `Determinism.LockstepDeterminism` and
   `Chunking.ClientAccounts`).
4. The classes refine the step system over whole executions: started as `main` starts them, and
   moved by any sequence of server reads, passes and restarts, the objects are always in the state
   that the step system reaches by the same steps (`Execution.Execute`), so its theorems hold of
   them (`Execution.ObjectsInOrder`).
5. Discovery is complete: however a stream of four players is read, four more reads are enough for
   every player's log to hold exactly that player's commands (`Demux.AllDelivered`).
6. The program ends exactly by a network failure or a typed "!q", for good
   (`Endings.ExitsExactly`, `Endings.FailureEndsProgram`), and its input log is exactly what was typed
   as game commands, with empty commands between (`Endings.InputIsTyped`). A run's counters follow
   from the bytes of its last simulation command and the number of turns since
   (`Goals.AfterGoal`).
7. The line splitter hands out exactly the lines of what was read, and when it cannot
   (`Input.PollExact`, `Input.EveryNextRead`, `Input.PollKeeps`, `Input.SplitterExact`).
8. The pacing bounds under 64-bit wrap (`Loop.GameLoop.Wait` and the methods that call it, with
   `Clock.ChooseExact` and `Clock.SleepArithmetic`), a hash chain that tells any two bytes apart
   (`Hash.ObjectsTellApart`, `Hash.SeedInjective`), and exactness and order-independence of the streaming moments.

Three things the code does that a reader may not expect, each stated as an exact condition:

- A line of 4088 to 4094 bytes can be typed (`Input.LineHandled`) and is sent, but its frame never
  fits the receive buffer. Nothing after it is delivered either.
- The splitter searches its buffer as a C string and ignores `used_buf`. Its shift leaves the last
  bytes of the buffer in place, so with more than 2048 buffered bytes and more than one line a
  newline can stay behind, and then some later read is cut where it has no newline. Exactly then
  `used_buf` goes below zero, and the read after that would begin before the buffer
  (`Input.UsedExact`).
- A second clock reading in the very tick of the clock counts as a jerk, so the pacing bounds are
  for readings after it.

Assumed throughout: typed input and received commands have no NUL, writes to the socket are
complete, byte counts stay below 2^31, the frame rate is 1 to 255, and a `char` is signed. A header
after which C does not define the program's behaviour (a count below 1, or one that overflows an
int, or a tag of non-digits that comes out negative) ends decoding with the verdict `Undefined`;
the local server is proved never to send one (`Machine.FramingHolds`). `strtol`, the calibration of the clock, the counter readings,
what is typed and how reads are cut are parameters.

## Model

| member | source | states |
|---|---|---|
| Bytes.LinesAppend | network_server.c:89-98 | cutting a stream at any point and cutting the leftover with what follows gives the same commands and the same leftover |
| Bytes.LinesSnoc | network_server.c:31-36 | one more byte either joins the unfinished command or completes it |
| Bytes.LinesJoin | network_server.c:27-39 | the commands, rejoined, and the NUL-free leftover are the whole stream: no byte is lost |
| Bytes.JoinLines | connection.c:154-163 | cutting what the sending loop writes gives back exactly the commands, whatever follows them |
| Bytes.PartialLines | network_server.c:77-98 | any part of a command stream that has arrived yields a prefix of its commands, and the rest of the stream is still owed |
| Frames.LengthRoundTrip | connection.c:96-97 | the little-endian count the server writes is the int the client reads, below 2^31 |
| Frames.HeadOfFrame | connection.c:95-118 | the frame decoded at the front of the buffer is the one that was framed there, with its length and its id |
| Frames.FrameBytesAre | network_server.c:16-25 | a frame's bytes: the count least significant first, three decimal digits of the id, a NUL, the command and its NUL |
| Frames.HeaderIs | connection.c:27-38 | the count as a signed 32-bit number of the four bytes, and the id as a decimal number of the three |
| Frames.DeframeAppend | connection.c:92-122 | decoding may be interrupted at any byte: a's frames stand, and its leftover is decoded together with b |
| Frames.DeframeStream | network_server.c:16-25 | decoding inverts framing for any list of frames |
| Frames.DeframeConserves | connection.c:116-118 | every byte of the buffer belongs to a decoded frame or to the leftover, which is the buffer's own tail and does not begin with a frame the client can handle |
| Frames.PartialHeaders | connection.c:96-104 | however much of a frame stream has arrived, it shows no header outside what the client's arithmetic and memory accesses define |
| Frames.LeftoverWaits | connection.c:95-98 | without such headers decoding stops only to wait for more bytes |
| Frames.PartialStream | connection.c:73-81 | any part of a frame stream that has arrived decodes to a prefix of the frames, and the rest is still owed |
| Frames.LeftoverIsShort | connection.c:95-98 | an incomplete frame occupies less than its length, and nothing is left over when nothing is owed |
| Server.Reframer.Message | network_server.c:16-25 | the three writes together are one frame of player 0: bytes 4 to 7 are "000" with its NUL and the command follows with its NUL |
| Server.Reframer.Process | network_server.c:27-39 | writes the frame of every complete command in the buffer and returns where the unterminated tail starts |
| Server.Reframer.Receive | network_server.c:77-98 | after a read the frames of all completed commands have been written and exactly the NUL-free tail is kept |
| Server.Reframer.Routine | network_server.c:69-100 | over any sequence of reads, what was written is the framing of all commands in the bytes taken, and the tail is kept |
| Records.Record.constructor | record.c:33-42 | an empty log of 4096 allocated bytes |
| Records.Record.Clone | record.c:176-184 | a copy with its own buffer, the same contents and the same allocation |
| Records.Record.Realloc | record.c:44-56 | a buffer twice as large with the same contents exactly when more bytes are needed |
| Records.Record.Reserve | record.c:63-65 | one doubling is enough room, also through the conversion to int |
| Records.Record.Append | record.c:58-75 | writes the command and its NUL at the offset, growing the log if it reaches past its end and changing no other byte, and advances the offset by both counts |
| Records.OverwrittenIs | record.c:67-69 | what Append writes, byte by byte, and that every other byte stays |
| Records.Record.Read | record.c:110-127 | returns the C string at the offset and the next offset, or nothing at the end |
| Records.Record.ReadBytes | record.c:129-141 | returns the requested bytes, or fails without moving the offset when they are not all there |
| Records.Record.PlaybackAll | record.c:143-151 | visits exactly the commands of the log in order |
| Records.Record.Playback | record.c:86-99 | repeated until it fails, visits the same commands and stops at the end with the matching count |
| Records.Record.Rerecord | record_test.c:39-60 | replaying a clone into the original from offset 0 changes no byte and no length |
| Records.ReadLog | record.c:110-127 | reading a log of NUL-free commands from cursor k returns command k and cursor k + 1, and nothing after the last |
| Records.ReadBytesLog | record.c:129-141 | from the log that StoreObjects builds, payloads of any bytes come back when asked for with their lengths, and then every request fails |
| Records.LogLines | record.c:143-151 | a log that ends in NUL is its own commands joined |
| Records.Record.StoreObjects | main.c:278-281 | payloads of any bytes appended one by one make the log their NUL-terminated concatenation behind what was there, and the offset counts them all, in the old buffer or a new one; `Records.ReadBytesLog` reads them back |
| Records.DoubledGap | record.c:49-53 | a buffer that is only ever doubled can be doubled again below the limit |
| Records.RecordRW.Append | record.c:58-75 | at the log's end, a NUL-free command of at most 4095 bytes is added after all others and the read cursor stays |
| Records.RecordRW.Next | record.c:110-127 | returns the next unread command, or nothing, and advances the read cursor by exactly one |
| Records.RecordRW.Rewind | main.c:342-344 | only the read cursor goes back to the start |
| Lockstep.ProcessGrows | connection.c:92-122 | decoding only extends logs, and creates one only when it returns false |
| Lockstep.PreparedKeeps | main.c:218-224 | what comes before the network only extends the input log, at least up to the target, and moves no counter of a run that continues |
| Lockstep.SyncKeeps | connection.c:140-166 | a sync changes only the inbox, the logs (by extension) and the sent count |
| Lockstep.NearestBound | main.c:36-51 | the preview bounds every player's unread commands from below and above |
| Lockstep.PreviewAttained | main.c:40-48 | the preview's counts are some player's, or the values it starts from |
| Lockstep.CountIs | main.c:81-90 | the player count is the size of the set of ids whose log exists |
| Lockstep.StallRefills | main.c:241-247 | a stall counts, gives the queue one step back up to its maximum, and changes nothing else |
| Lockstep.UnreadEverywhere | main.c:239-247 | a non-zero preview means every player has an unread command |
| Demux.ProcessDelivers | connection.c:92-122 | one call takes frames off the front and leaves the rest of the stream to be decoded as before; it returns true exactly when the buffer is waiting for more bytes |
| Demux.ProcessAppends | connection.c:112-115 | each player's log grows by exactly the taken frames with its id, in order |
| Demux.ProcessKnown | connection.c:104-110 | with every id in range, every log allocated and a leftover that waits, one call takes all frames |
| Demux.ProcessEnds | connection.c:95-121 | what is left in the buffer decides how a call ended: waiting for bytes, an id of 4 or more, an unknown id below 4, or what C does not define; and the logs afterwards are those before and, exactly in the third case, that player's |
| Demux.ProcessPartial | connection.c:92-122 | on any part of a stream of four players a call takes its first frames and stops to wait or for a new player |
| Demux.AllDelivered | connection.c:104-121 | however a stream of frames of players 0 to 3 is read, with four more reads of nothing decoding is done and each log holds exactly its player's commands |
| Demux.FeedAccounts | connection.c:92-122 | over any reads and any number of early returns, logs plus undecoded bytes account for the whole stream, each frame once |
| Demux.ChunkIndependence | connection.c:92-122 | once it returns true, each log is what decoding the whole stream at once gives that player, and the buffer is what that leaves |
| Demux.SameBytesSameLogs | connection.c:73-81 | two ways of cutting the same bytes into reads end in the same logs and buffer |
| Players.GameRecord.Append | connection.c:114-115 | one player's log gets the command, the others and all cursors stay |
| Players.GameRecord.Allocate | connection.c:107-110 | a player heard from for the first time gets an empty log |
| Players.GameRecord.Rewind | main.c:342-344 | every read cursor is at the start and no log has changed |
| Players.GameRecord.Count | main.c:81-90 | the number of players with a log |
| Players.CommandFrame | main.c:53-79 | succeeds if and only if the commands with their NULs need at most 4096 bytes; then they lie NUL-terminated one after another, every cursor has advanced by one and no log has changed |
| Players.PackedIsJoin | main.c:60-74 | the packed frame is the commands with their NULs in one piece, each starting where the ones before it end |
| Players.PackedApart | main.c:71-73 | the packed commands do not overlap |
| Players.PackedLenGrows | main.c:67-73 | each command takes its length and one more byte, and no prefix needs more than the whole |
| Connection.Connection.Io | connection.c:62-90 | the bytes read are behind those already held, and received = held + processed still holds |
| Connection.Connection.DropFrame | connection.c:112-118 | the shift leaves exactly the bytes after the frame, and they are accounted to the player, with one more message |
| Connection.Connection.TakeFrame | connection.c:104-118 | one loop pass once the counted bytes are there: crash, a new log without consuming a byte, one append and fewer bytes left, or the point where C stops defining what happens |
| Connection.Connection.Processing | connection.c:92-122 | buffer, logs and verdict are those of the decoding function that the demultiplexing lemmas are about, and each message counter moves with the commands in its player's log |
| Connection.Connection.Send | connection.c:154-163 | writes exactly the unsent commands up to the target with their NULs, and fails if and only if the log ends first |
| Connection.Connection.Sync | connection.c:140-166 | status, buffer, logs, read cursor and written bytes of one sync, in every outcome |
| Console.Console.InputCallback | main.c:121-148 | the console goes where Typed says, which Endings.TypedAllIs tells from the line's bytes |
| Endings.TypedAllIs | main.c:121-148 | over all lines of a poll: some line beginning "!q" ends the program, some beginning "!q" or "!r" ends the run and clears the goal, exactly the lines not beginning with "!" are logged in order, and nothing else changes |
| Endings.PreparedIs | main.c:184-224 | a changed library ends the run and clears the goal like "!r"; then the log is filled with empty commands exactly to frame + pause + queue |
| Endings.PassEnds | main.c:215-237 | a pass goes on exactly without notification, halting line, network failure and new player, and ends the program exactly on a failure or "!q" |
| Endings.AfterSyncEnds | main.c:227-237 | which results of connection_sync end the run and which the program |
| Endings.CrashesExactly | main.c:249-250 | a pass crashes exactly on an id of 4 or more, on a header C leaves undefined, or on a turn whose commands with their NULs exceed 4096 bytes |
| Endings.ExitsExactly | main.c:230-233 | a step sets exiting if and only if it is a pass of a run with a network failure or a "!q" |
| Endings.FailureIsFinal | main.c:230-233 | a network failure ends run and program, and no act changes anything after it |
| Endings.FailureEndsProgram | main.c:340-345 | so over every continuation of every execution |
| Endings.QuitIsFinal | main.c:136-140 | likewise for "!q" |
| Endings.ReloadGoesOn | main.c:340-345 | after "!r", a changed library or a new player the next run starts with zero counters, a full queue and the same logs |
| Endings.InputIsTyped | main.c:218-224 | over every execution the input log is exactly the game commands typed during runs, in order, with empty commands between them |
| Console.Console.InputLines | input.c:47-57 | every line handed over goes through the callback in order |
| Console.Console.PadInput | main.c:221-224 | empty commands fill the input log exactly up to the write frame |
| Console.Console.CommandPreview | main.c:36-51 | the least and greatest unread counts over the players, starting from the queue maximum and zero |
| Console.Console.ExecuteFrame | main.c:252-254 | the goal becomes the fold of the commands as they lie in the packed frame, which Goals.GoalOfLast tells from their bytes |
| Goals.GoalStays | main.c:150-182 | commands not beginning with 's' leave the goal |
| Goals.GoalOfLast | execute.c:202-215 | the last command beginning with 's' decides the goal: 4294967295 without a space, else strtol of what follows the first space modulo 2^32 |
| Goals.TurnCounts | main.c:256-283 | a turn is a frame below the goal it leaves and a pause at or above it |
| Goals.ReplayRuns | main.c:252-283 | over turns without simulation commands the frame goes up to the goal and then pauses, by their number alone |
| Goals.AfterGoal | main.c:252-283 | the counters of any history follow from the bytes of its last simulation command and the turns since |
| Goals.NothingRuns | main.c:212-259 | before the first simulation command every turn is a pause |
| Console.Console.EndTurn | main.c:256-283 | pause once the goal is reached, otherwise a frame, and the clock bounds hold |
| Console.Console.StallTurn | main.c:241-247 | a stall counts, restores the queue up to its maximum, and touches no log or turn |
| Console.Console.Prepare | main.c:218-224 | notification, typed lines and padding take the client where the pass function says |
| Console.Console.PlayTurn | main.c:239-283 | preview, packing, execution and pacing take the client to the turn function's result, or to the crash it predicts |
| Console.Console.Pass | main.c:215-284 | one loop pass takes the whole client state where the pass function says, writes exactly the newly sent commands, and uses no memory but its own and new memory |
| Console.Console.RewindGame | main.c:342-344 | the game logs are rewound and nothing else, in particular not the input log |
| Console.Console.StartRun | main.c:340-345 | the next run starts with rewound game logs, fresh counters, a full queue and the players found so far, all logs staying in their memory |
| Console.Boot | main.c:304-338 | the program before its first run, in memory of its own |
| Determinism.NeverCorrupt | main.c:221-230 | CONN_CORRUPT cannot occur, whatever the network does |
| Determinism.ExactSendWindow | connection.c:154-163 | after a successful sync, sent = max(sent at run start, frame + pause + input_queue_max); otherwise nothing was sent |
| Determinism.PassInv | main.c:215-284 | every pass keeps: queue full, every cursor at frame + pause, turn t executed command t of every player, counters of a running run are the fold |
| Determinism.RestartInv | main.c:340-345 | a restart establishes all of that again |
| Determinism.Reachable | main.c:340-345 | it therefore holds after every sequence of passes and restarts against any server |
| Determinism.LockstepDeterminism | main.c:249-283 | at any two moments of any two executions whose logs agree, the slower run's turns are the faster one's first turns, and while it runs its counters are the fold over them |
| Determinism.RunExtends | connection.c:154-163 | over any continuation the input log, the sent count and every player log only grow: nothing is sent again |
| Chunking.ClientAccounts | connection.c:73-122 | in every execution of the client, with all its early returns and restarts, the frames delivered and those still in the buffer are the frames of all bytes read, and each log holds its player's |
| Chunking.SameBytesSameGame | main.c:215-284 | two executions that read the same bytes, as far as both have, with the same players: the slower one's turns are the faster one's first turns and, while it runs, its counters are the fold over them |
| Determinism.RunsReplay | main.c:340-345 | the turns of two runs with the same players agree wherever both have them |
| Pipeline.ServerCut | network_server.c:77-98 | after any read the server has cut a prefix of the commands owed, and its leftover is NUL-free with room to spare |
| Pipeline.ServerWire | network_server.c:77-98 | a server step keeps the link between input log, streams, buffers and player log |
| Pipeline.LocalProcess | connection.c:92-122 | from the local server's stream player 0's log takes exactly the next commands, no one else's changes, and there is no crash |
| Pipeline.ReceiveWire | connection.c:73-122 | a client read of any size keeps the link |
| Pipeline.SendWire | connection.c:154-163 | sending keeps the link |
| Pipeline.NeverCrashes | main.c:249-250 | one command that came through the receive buffer always packs, so the crash branch is dead |
| Pipeline.NextInv | main.c:215-284 | every step of the machine keeps its whole invariant |
| Pipeline.Reachable | main.c:304-345 | it holds after every execution from the program's start |
| EndToEnd.PrefixChain | connection.c:92-166 | player log, served, sent and input are prefixes of one another in every reachable state |
| EndToEnd.InFlightCount | network_server.c:89-98 | sent minus logged is the number of commands in the two streams and two buffers |
| EndToEnd.Conservation | main.c:221-247 | sent = executed turns + unread in the log + in flight |
| EndToEnd.NoCorruptNoCrash | main.c:228-250 | CONN_CORRUPT and both crash branches are unreachable with the local server |
| EndToEnd.FarthestBound | main.c:239-243 | the farthest count that command_preview finds after a successful sync never exceeds max(input_queue_max, sent at run start) |
| EndToEnd.ClientTrace | main.c:215-345 | every execution of the machine is an execution of its client, so the client's theorems apply |
| EndToEnd.ReloadSafety | main.c:340-345 | across restarts nothing is resent or lost, and the turns of any two runs agree wherever both have them |
| EndToEnd.StallHasFlight | main.c:241-247 | every pass that stalls, also one a halt was typed in, leaves at least input_queue commands in flight |
| EndToEnd.QuietPass | main.c:215-284 | from a stall, a pass in which nobody types either takes a turn or only moves bytes into the buffer |
| EndToEnd.ServerDrains | network_server.c:69-100 | the server can always be brought to frame everything sent, without touching the client |
| EndToEnd.QuietDelivery | main.c:215-284 | with the next command framed and of at most 4087 bytes, quiet passes deliver and execute it |
| EndToEnd.StallEnds | main.c:241-247 | from any stall whose next command is at most 4087 bytes there is a continuation without typing in which the next turn is taken |
| Schedules.SteadyServe | network_server.c:77-98 | a server read while the client is stalled leaves the client alone and takes bytes if there are any |
| Schedules.SteadyPass | main.c:215-284 | a pass without typing, reading up to any number of bytes, ends the stall or leaves it as it was, with fewer bytes to come once all is framed |
| Schedules.StallAlwaysEnds | main.c:241-247 | every schedule without typing with as many server reads as bytes on their way there, followed by one with more passes than bytes then on their way back, delivers and executes the next command if it is at most 4087 bytes |
| EndToEnd.TooLongIsNeverLogged | connection.c:95-98 | a command over 4087 bytes, and everything after it, never reaches the player log |
| EndToEnd.StallEndsExactly | connection.c:95-98 | a stall can end if and only if the next command is at most 4087 bytes |
| EndToEnd.NoJam | network_server.c:92-98 | the server always has a free byte; after a successful sync the client holds less than one frame, and has a free byte if the awaited command is at most 4087 bytes |
| Startup.FirstFrame | connection.c:107-110 | the first frame only creates the log: no byte is consumed and nothing is appended |
| Startup.WaitingPass | main.c:215-237 | a quiet pass without players ends the run if a whole frame has arrived, and otherwise sends and keeps waiting |
| Startup.QuietDiscovery | main.c:234-236 | with a framed first command of at most 4087 bytes, quiet passes find the player |
| Startup.PlayerFound | main.c:234-236 | from any run without players that is not exiting, unless a first command over 4087 bytes is in the input log, there is a continuation without typing into a run with one, at turn zero |
| Startup.NeverFound | connection.c:95-98 | behind an oversized first command no player is ever found |
| Startup.PlayerFoundExactly | main.c:197-237 | from any run without players that is not exiting, a run with one is reachable if and only if no first command over 4087 bytes is already in the input log |
| Oversized.TypedPass | main.c:121-127 | a long line typed in a running program is logged and the run goes on |
| Oversized.ReachStall | main.c:239-247 | passes in which nobody types and nothing arrives use up what is delivered and reach a stall |
| Oversized.DeliversShort | main.c:215-284 | from a run with a player, with or without a long command, the first j commands can be delivered without typing if they are at most 4087 bytes each |
| Oversized.DeliverableExactly | connection.c:95-98 | some execution logs the first j commands of the input log if and only if they are at most 4087 bytes each |
| Oversized.DeliversExactly | connection.c:95-98 | from a run with a player a stall right before the first command over 4087 bytes is reached without typing, and no execution ever logs more |
| Oversized.LongFirst | connection.c:95-98 | for every line of 4088 to 4094 bytes, typing it first gives an execution that runs and will never find a player |
| Oversized.LongLater | connection.c:95-98 | typed in any run with a player, such a line leads to a stall in front of a command that cannot be delivered |
| Oversized.LongStall | main.c:304-345 | such stalls are reached from the program's start |
| Machine.FramingHolds | network_server.c:16-25 | however much has arrived from the local server, the client sees only headers it can handle and NUL-free commands |
| Machine.ServerStep | network_server.c:77-98 | the server class takes the machine's server step |
| Machine.ClientStep | main.c:215-284 | splitter, if stdin has something for it, and console together take the machine's client step and end in its state, still sharing no memory |
| Machine.ReloadStep | main.c:340-345 | they take the machine's restart step, likewise |
| Execution.Take | main.c:215-345 | each of the three kinds of step keeps server, splitter and console sound, apart and in the machine's state, and the machine's invariant |
| Execution.CanMove | main.c:215-218 | whether a move can be made next is decided on the program's own fields |
| Execution.Execute | main.c:304-345 | from the start of the program, for every list of moves, the objects take them until one cannot be made and are then where the step system is after the same steps |
| Execution.ObjectsInOrder | connection.c:92-166 | in every such state the player's log object holds a prefix of what the input log's read cursor has passed |
| Input.Splitter.constructor | input.c:19-28 | an empty zeroed buffer |
| Input.Splitter.TakeLine | input.c:47-55 | hands over the bytes before the first newline, shifts the rest down and leaves the buffer's end as it was |
| Input.Splitter.Poll | input.c:43-62 | handles every newline of the buffer as a C string, accounts for the bytes used, and drops a full buffer without one |
| Input.Splitter.Shutdown | input.c:68-75 | forgets the unfinished line but keeps the bytes |
| Input.PollExact | input.c:44-56 | one poll hands out the lines of the unfinished line and the new bytes if and only if no newline is left between the bytes in use and the terminating NUL |
| Input.UsedExact | input.c:44-55 | under the same condition, and only then, used_buf does not go below zero |
| Input.EveryNextRead | input.c:44-56 | every NUL-free next read is handled right if and only if no newline is left anywhere in the buffer |
| Input.SettledTail | input.c:47-56 | what the loop leaves in use is the unfinished line; it leaves no newline behind exactly when there was none beyond it and each line left before the shift could copy a later one |
| Input.PollKeeps | input.c:43-62 | from a clean buffer a poll is right, keeps the unfinished line or drops it when it fills the buffer, and leaves the buffer clean if and only if the lines were shiftable |
| Input.Shifts | input.c:53-55 | up to 2048 buffered bytes, or a single line, are always shiftable |
| Input.BoundIsTight | input.c:53-55 | 2049 bytes can leave a newline behind, after which some read without a newline is cut |
| Input.After | input.c:30-75 | over any session of shiftable reads and shutdowns the buffer stays clean and holds exactly the unfinished line |
| Input.HandledSince | input.c:30-75 | in any such session the handler has received exactly the lines of the stream read in this run, however it was cut |
| Input.SplitterExact | input.c:42-63 | unless a line outgrows the buffer, that stream is every byte read |
| Input.ZeroTail | input.c:53-55 | in sessions of at most 2048 buffered bytes without a shutdown, what follows the unfinished line is zero |
| Input.LineHandled | input.c:43-56 | every line of up to 4094 bytes, typed into an empty clean buffer, is handed over as it is |
| Input.LinesFit | input.c:47-50 | every line handed over is NUL-free and at most 4094 bytes |
| Clock.NoOverflow | platform_clock.c:73-77 | in the wait branch the fixed-point product stays below 64 bits for any frame rate |
| Clock.SleepArithmetic | platform_clock.c:109-113 | the sleep never overshoots, falls short by less than 1 + delta / 2^33 microseconds, and is a legal tv_nsec |
| Clock.ChooseExact | platform_clock.c:105-124 | the three-way comparison on wrapped values decides as it would in unbounded time, with the exact exception for an unchanged counter |
| Clock.TscClock.Init | platform_clock.c:79-94 | the step and the reciprocal fit the calibration and the clock stands at now |
| Clock.TscClock.Sync | platform_clock.c:102-128 | succeeds exactly past the step or in the clock's own tick; past the step the clock is then at most a step behind, having moved one step or, if more than a step late, to the present with a jerk counted; in its own tick it counts a jerk, or moves a step if two steps wrap |
| Loop.GameLoop.Init | loop.c:45-58 | counters at zero, queue at the frame rate, clock started |
| Loop.GameLoop.Wait | loop.c:29-43 | returns past the step with the clock one step on, or a jerk and more than two steps on |
| Loop.GameLoop.Sync | loop.c:90-94 | keeps (frame + pause + stall + jerk) * step <= clock - start <= elapsed, and equality without jerks |
| Loop.GameLoop.Pause | loop.c:84-88 | the same for a pause |
| Loop.GameLoop.Stall | loop.c:78-82 | the same for a stall |
| Loop.GameLoop.Finish | main.c:256-283 | exactly one of frame and pause advances, according to the goal |
| Hash.StepIsAffine | hash.c:15-15 | shift and additions, each wrapping, are multiplication by 33 and addition modulo 2^64 |
| Hash.MemhashCont | hash.c:21-32 | the loop computes the polynomial in 33 over the bytes above the seed, modulo 2^64 |
| Hash.Memhash | hash.c:8-19 | the same above 5381 |
| Hash.HashContinues | hash.c:21-32 | continuing from the hash of a with b gives the hash of a followed by b |
| Hash.SeedInjective | hash.c:21-32 | for every buffer, equal results mean equal seeds |
| Hash.TellsApart | hash.c:21-32 | two buffers that differ in one byte, anywhere, hash differently from every seed |
| Hash.SmallHashes | hash.c:8-19 | no byte hashes to 5381 and one byte c to 177573 + c |
| Hash.ExecuteHash | execute.c:283-294 | entry i is the hash of the first i + 1 objects run together, the rest are cleared |
| Hash.DivergencePersists | execute.c:283-294 | with equal later objects two chains agree at the end if and only if they agreed before |
| Hash.ObjectsTellApart | execute.c:283-294 | a difference of one byte in one object shows in its entry and every later one |
| Stats.Accumulator.constructor | stats.c:48-52 | no samples, zero moments |
| Stats.NextMoments | stats.c:65-75 | the recurrence gives exactly the mean and the summed squared deviation of one more sample |
| Stats.Accumulator.Add | stats.c:62-80 | the moments stay the count, the mean and the squared deviation of all samples, and min and max stay their bounds |
| Stats.Accumulator.Variance | stats.c:24-28 | times the count, it is the summed squared deviation from the mean |
| Stats.Accumulator.Extremes | stats.c:77-79 | min is the least sample if and only if some sample is at most 2^32 - 1, max the greatest if and only if some sample is not negative |
| Stats.OrderIrrelevant | stats.c:62-80 | the same samples in any order give the same five values |

## Left out

- Sockets, poll, inotify, threads and files: FIFO byte sequences and reads of arbitrary size stand for them, and a network failure ends the run.
- Short writes: `connection_sync` notes them in `buffering` and does not retry; the stream theorems hold while that flag is false.
- NUL bytes inside typed input, which would hide the rest of the splitter's buffer, and inside received commands, which would be read back as two commands.
- Connection.Connection.Io: error returns and hang-up are the one outcome Failure.
- Connection.Connection.Processing: needs NUL-free commands; after the verdict Undefined nothing more is said, as the C program's behaviour is not defined there.
- Connection.Connection.TakeFrame: as Processing.
- Connection.Connection.Sync: as Processing; Undefined ends the run like a crash.
- Records.Record.Append: needs the new end within twice the allocation and below 2^31; beyond that the C code writes past its buffer or wraps, and a failed realloc is not modelled.
- Records.Record.StoreObjects: needs objects of at most 4095 bytes, for the same reason.
- Records.RecordRW.Append: is for NUL-free commands of at most 4095 bytes, which are all the program appends to a command log; offsets are values and the 32-bit counts do not wrap below the byte limit.
- Players.CommandFrame: the frame buffer is a fresh array instead of the one static buffer that all turns share.
- Console.Console.Pass: after a crash only the fact that it crashed is stated.
- Console.Console.ExecuteFrame: of the commands only the simulation goal of the 's' command is interpreted, with `strtol` a parameter; variables, parameters, results, benchmarks and calls into the loaded library are left out.
- Execution.Execute: stops at the first move that cannot be made: a pass outside a run, a read that does not fit the splitter, logs without room, no further reading of the clock past the frame, or a restart while running or after the program has ended.
- Machine.ClientStep: the room left in the logs is a precondition, as is that time goes on until the frame is over.
- Loop.GameLoop.Wait: is for readings after the clock's own tick, as the pacing bounds are false otherwise, and less than one wrap of the counter behind it; the sleeping itself, its interruption and `sleep_count` change nothing the loop depends on and are left out, and the 32-bit frame counters do not wrap.
- Clock.TscClock.Init: the sampled calibration is a positive parameter; its sampling, lock and sort are left out.
- Clock.TscClock.Sync: assumes that less than one wrap of the counter has passed.
- Input.Splitter.Poll: a read is one that returns bytes; once a leftover newline has driven `used_buf` below zero (`Input.UsedExact`) the next read is not modelled.
- Input.SplitterExact: is for sessions whose reads are shiftable; which ones are is exact per poll, and 2048 bytes or one line at a time suffice.
- Stats.Accumulator.Add: exact reals instead of doubles, so rounding, NaN and the relative deviation with its square root are left out.
- Hash.ExecuteHash: printing and the lookup of the objects' memory are left out.
- Multiplayer servers: the theorems of Determinism.dfy and Demux.dfy hold for any number of players up to four, those of EndToEnd.dfy, Startup.dfy, Oversized.dfy, Schedules.dfy and Execution.dfy for the local server, which only ever names player 000.
- Printing, writing logs to disk, comparing logs, prompts and the manual programs.
