# Verification model of the terminal Tetris server

This project models the parts of the server where state changes step by step and proves what
those steps keep over every run. The C++ files named below are in `src/` of the repository.

## What is modelled

**The game** (`Blocks`, `Board`, `Clearing`, `Engine`, `Reachable`, `Moves`, `GameRuns`,
`SmearRun`, `Game`). Class `Game` holds the board arrays `data` and `color`, the shared table
of 28 forms, the piece, the score, and a terminal of 24 x 30 (glyph, colour) cells that is only
written cell by cell. Its methods are the program's loops. Each is proved to take the state of
module `Engine` to its successor, and the properties are proved of that state machine for all
sequences of keys and gravity ticks with arbitrary random draws: each key moves or turns the
cells of the piece as a player expects, or nothing; the incrementally drawn terminal is what
the full repaint would draw; no empty row lies beneath an occupied one; clearing equals one
bottom-up fold; cells and points balance; every piece locks within 22 ticks.

**The throttles** (`Window`, `Drain`, `IpTable`, `Quota`, `Registrations`, `Throttles`,
`AuthThrottle`, `GuessingRuns`). The five-slot ring is refined against the log of all recorded
events, the bounded and lazily pruned table against one such log per address, and the announced
waiting time is exact; an event counts for at least four fifths of the configured window and at
most the whole. Over whole runs the registration discipline keeps its global quota for the
accepted requests, and the quota of an address exactly while the table has room. The login
back-off gives a lower bound for the time any serial guessing run takes, which is met, and a
success undoes it.

**The worker around a connection** (`PostQueue`, `AsyncAuth`, `AuthTrails`, `ConnTable`,
`OutputStream`). Two state machines over atomic steps (the wake-up pipe of the event loop; the
writer thread, hash workers and loop that pass password operations around) and two classes (the
tables of users, events and pooled objects; the send buffer), each with a statement about every
run. The answer to a login or password change is the one due to what the steps of the run
found, verified and wrote for it.

**The credential text** (`Credential`). Printer, parser and verification, with PBKDF2
(section 5.2 of RFC 8018) as an arbitrary function parameter that may fail.

## What the code does differently from its comments

- `RegThrottle.h:22-23` and `IpThrottle.h:20-21` say that five sliding slots never let a
  doubled quota through. They do: `max` events at the end of one slot and `max` at the start
  of the fifth slot after it lie 4 slots and 1 ms apart (`Quota.DoubleQuota`). The quota holds
  over intervals of a given length exactly when that length is at most 4 of the 5 slots
  (`Quota.QuotaExactly`), and always over five consecutive slots (`Quota.AnyFiveSlots`).
- The clearing passes do not find every full row of every board: with row 1 occupied, a row
  that falls into the place of a removed one is not looked at again
  (`Clearing.TallStackKeepsFullRow`). `Clearing.ClearMeaning` says exactly on which gapless
  boards the passes mean the fold, and `Reachable.LockOutcome` that play reaches no other.
- A piece may be spawned on locked cells, because the spawn is not checked. Moving such a
  piece leaves blank cells on the terminal until the next repaint; `Reachable.MovePicture`
  says that this is exactly when the picture goes wrong, and `SmearRun.KeyLeftSmears` is a
  game of 60 ticks and one key in which it does.
- The login back-off fails open. While the records that have not expired fill the table,
  failures at an account without a record are not recorded (`GuessingRuns.RecordedExactly`),
  and any number of guesses at it is let through at once (`GuessingRuns.NoRoomNoDelay`, and
  `GuessingRuns.FullTableNoDelay` for a table that a run reaches). With room for the first
  failure the attack is slow (`GuessingRuns.AttackIsSlow`).
- The quota per address fails open too, for failed logins and for registrations. While other
  addresses with a live event fill the table, nothing is recorded of an address without one
  (`IpTable.IpTable.Record`), and its registrations are accepted without end
  (`Registrations.NoRoomNoQuota`, and `Registrations.FullTableNoQuota` for a table that a run
  reaches). Without a global limit, the quota per address holds of the accepted requests in
  all runs with a given number of addresses exactly when the table holds that many
  (`Registrations.AddressQuotaExactly`).
- The login back-off is cut short by the lifetime of the record when the configuration makes
  the longest delay longer than it (`GuessingRuns.FullWaitsEnforced`, and
  `GuessingRuns.ShortLifetime` for one configuration), and the announced wait may fall short
  by less than a millisecond (`GuessingRuns.AnnouncedWaitSuffices`, and
  `GuessingRuns.WaitFallsShort` for one refused caller).
- The result of event registration is ignored when a connection is accepted: a connection
  whose registration fails stays in `users` without an event. `ConnTable.Worker.Accept` says
  exactly which connections are in this state; on a reused descriptor the event table may
  still hold the entry of the socket before, which the kernel no longer serves.

## Model

| member | source | states |
|---|---|---|
| Blocks.InitBlockInfo | src/TetrisGame/Game.cpp:28-102 | from the zeroed static table the build yields exactly the 28 forms; run again at the next game start, on the table all players share, it changes nothing |
| Blocks.ReadyIsBuildable | src/TetrisGame/Game.cpp:28-102 | a finished table meets the precondition of the build, so every later start is covered |
| Blocks.DrawBaseForms | src/TetrisGame/Game.cpp:28-76 | the base form of each of the seven shapes is set and nothing else changes |
| Blocks.DrawSquareForms | src/TetrisGame/Game.cpp:55-69 | the loop of two steps draws exactly Z, S and O |
| Blocks.BaseFormsAsDrawn | src/TetrisGame/Game.cpp:28-76 | the seven base forms, as a picture |
| Blocks.Turn | src/TetrisGame/Game.cpp:82-99 | the copy through `temp` makes the next form the clockwise quarter turn of this one |
| Blocks.FourTurns | src/TetrisGame/Game.cpp:92-99 | a fourth turn gives the first form back, so rotating with `(form + 1) % 4` is a cycle |
| Blocks.FormFacts | src/TetrisGame/Game.cpp:28-102 | every form has exactly 4 cells, in consecutive rows, and never only in the top row of its grid |
| Board.RowCountMeaning | src/TetrisGame/Game.cpp:336-343 | the counted sum is 0 exactly for an empty row and 18 exactly for a full one |
| Board.StampTotal | src/TetrisGame/Game.cpp:792-803 | locking a piece adds one cell for each of its cells that was not locked already |
| Board.ColoursOfShapes | src/Utility/Utility.cpp:242-261 | no shape is white, L and J share a colour, Z and S share one, and no others do |
| Clearing.ShiftTotal | src/TetrisGame/Game.cpp:355-376 | the shift stops early exactly when an empty row lies above, never writes rows 0 and 1, and conserves cells |
| Clearing.RepeatRemovesOneRow | src/TetrisGame/Game.cpp:330-380 | on any board whatever, a pass that returns 1 has removed one row of 18 cells, which is why the `while(1)` loop ends |
| Clearing.ScanRemovesLowest | src/TetrisGame/Game.cpp:334-376 | on a gapless board with row 1 empty, one pass removes the lowest full scanned row and asks again, or finds none |
| Clearing.ClearIsSettle | src/TetrisGame/Game.cpp:330-380 | with row 1 empty the repeated in-place passes equal one bottom-up fold that drops a full row exactly when it would land in row 5 or lower; colours travel with their cells and `line` counts the dropped rows |
| Clearing.ClearMeaning | src/TetrisGame/Game.cpp:330-380 | on gapless boards the passes equal the fold if and only if row 1 is empty or no scanned row is full |
| Clearing.ClearKeepsTop | src/TetrisGame/Game.cpp:330-380 | on any board the passes leave rows 0 and 1 as they were, so whether the game is over is settled by the lock alone |
| Clearing.TallStackKeepsFullRow | src/TetrisGame/Game.cpp:344-378 | a concrete board with row 1 occupied on which the passes stop and leave a full row behind |
| Clearing.ClearShows | src/TetrisGame/Game.cpp:347-373 | the redraws made while clearing keep every playfield cell of the terminal right and write no other cell |
| Engine.LegalInBox | src/TetrisGame/Game.cpp:302-328 | a legal position keeps the whole piece in rows 0..22 and columns 1..18 |
| Moves.LeftShifts | src/TetrisGame/Game.cpp:563-583 | when every cell of the piece has a free cell to its left, the left key moves every cell of the piece one column to the left and changes nothing else of the game; otherwise it changes nothing |
| Moves.RightShifts | src/TetrisGame/Game.cpp:585-605 | the same for the right key and one column to the right |
| Moves.DownShifts | src/TetrisGame/Game.cpp:541-561 | the same for the down key and one row down |
| Moves.RotateTurns | src/TetrisGame/Game.cpp:607-628 | the rotation key turns the cells of the piece clockwise by a quarter in its 4x4 grid and lowers them one row, exactly when all those cells are inside and free; otherwise it changes nothing |
| Moves.OtherEvents | src/TetrisGame/Game.cpp:630-670 | the repaint key moves nothing and makes the terminal right; other keys, and all events after the end of the game, do nothing |
| Moves.TickFalls | src/TetrisGame/Game.cpp:873-886 | a tick lowers every cell of the piece by one row whenever all those cells are free |
| Moves.TickLocks | src/TetrisGame/Game.cpp:792-803 | cell by cell, the board after a lock has the piece in its colour where it was and is otherwise the same |
| Moves.PreviewAppears | src/TetrisGame/Game.cpp:841-863 | after a lock the piece that was previewed appears at row 1, column 9, and the one drawn now is previewed |
| Moves.FirstPiece | src/TetrisGame/Game.cpp:146-183 | a game begins with an empty playfield, score 0 and the drawn piece at row 1, column 9 |
| Moves.RepaintShows | src/TetrisGame/Game.cpp:405-476 | what every cell of the terminal shows after a repaint: next piece, piece, walls and separator, locked cells, blanks, in this order of precedence |
| Moves.PointsInNumbers | src/TetrisGame/Game.cpp:382-403 | no to four rows are worth 0, 10, 30, 40 and 50 points |
| Moves.LockScores | src/TetrisGame/Game.cpp:382-403 | a lock adds these points for the rows it counted, and the shown score follows |
| Reachable.MovePicture | src/TetrisGame/Game.cpp:541-628 | an executed move leaves the terminal equal to the full repaint if and only if the piece did not lie on locked cells |
| Reachable.RestsOn | src/TetrisGame/Game.cpp:790-803 | a piece that cannot fall has a cell on the floor or directly above a locked cell |
| Reachable.LockKeepsNoGap | src/TetrisGame/Game.cpp:790-803 | locking a piece that cannot fall never leaves an empty row beneath an occupied one |
| Reachable.LockOutcome | src/TetrisGame/Game.cpp:790-822 | after every reachable lock the early exits have skipped no full row, the result is the fold, and a lock that reaches row 1 clears nothing |
| Reachable.ClearTotal | src/TetrisGame/Game.cpp:807-822 | clearing removes exactly 18 cells for each counted row |
| Reachable.LockTotal | src/TetrisGame/Game.cpp:790-822 | a lock adds four cells, less overlaps, less 18 for each cleared row |
| Reachable.FreeLockOverlapsNothing | src/TetrisGame/Game.cpp:792-803 | a piece that lies on no locked cell locks four new cells |
| Reachable.SettledPicture | src/TetrisGame/Game.cpp:790-836 | after lock, row redraws and wall redraw the terminal shows board and preview, and no trace of the piece beside its locked cells |
| Reachable.SpawnPicture | src/TetrisGame/Game.cpp:841-863 | swapping the preview and drawing the new piece gives the full repaint of the new state, on locked cells too |
| Reachable.LostPicture | src/TetrisGame/Game.cpp:838-871 | after the lock that ends a game the terminal still is what the repaint would draw |
| Reachable.LockPicture | src/TetrisGame/Game.cpp:790-872 | row redraws, wall redraw and next-piece swap after a lock leave the terminal equal to the full repaint |
| Reachable.StartInv | src/TetrisGame/Game.cpp:146-183 | a new game satisfies the game invariant |
| Reachable.StepKeepsInv | src/TetrisGame/Game.cpp:541-887 | every key and every tick keeps it: solid stack, no full scanned row, picture, score and cell balance |
| Reachable.RunKeepsInv | src/TetrisGame/Game.cpp:630-887 | so does every sequence of keys and ticks |
| GameRuns.ScreenIsPicture | src/TetrisGame/Game.cpp:405-476 | in every game, as long as no piece has moved off locked cells since the last repaint, and always without an overlapping spawn, the terminal is cell for cell what the repaint would draw |
| SmearRun.KeyLeftSmears | src/TetrisGame/Game.cpp:563-583 | a reachable game in which a piece spawned on locked cells is moved off them: the terminal was right before the key and is not what the repaint would draw after it |
| GameRuns.StackIsSolid | src/TetrisGame/Game.cpp:330-380 | in every game no empty row lies beneath an occupied one (row 0 included), no full row is left in rows 5..22, and the game is over exactly when row 1 is occupied |
| GameRuns.Accounts | src/TetrisGame/Game.cpp:382-403 | in every game occupied cells are 4 per lock less 18 per cleared row less overlaps, with no overlaps when no spawn overlapped; the score is the sum of the per-lock formula |
| GameRuns.LockClearsAtMostFour | src/TetrisGame/Game.cpp:382-403 | a lock clears at most 4 rows more than were full before it, and from a board without a full row adds 0, 10, 30, 40 or 50 points |
| GameRuns.LosingLockClearsNothing | src/TetrisGame/Game.cpp:838-871 | the lock that ends a game clears no row and scores nothing |
| GameRuns.TicksLower | src/TetrisGame/Game.cpp:541-628 | without a lock every tick lowers the piece, whatever keys come between |
| GameRuns.LocksWithin22Ticks | src/TetrisGame/Game.cpp:787-887 | any run with 22 ticks locks a piece |
| Game.Game.constructor | src/TetrisGame/User.cpp:13-24 | a fresh board without colours |
| Game.Game.DrawCells | src/TetrisGame/Game.cpp:185-218 | the loops over the 4x4 grid write exactly the cells of the form at its place on the terminal |
| Game.Game.IsLegal | src/TetrisGame/Game.cpp:302-328 | true exactly when every cell of the form is inside the playfield and free; no index leaves the arrays |
| Game.Game.MoveTo | src/TetrisGame/Game.cpp:541-628 | erase, change position, draw: the state and terminal after a move, or no change when the target is not legal |
| Game.Game.Repaint | src/TetrisGame/Game.cpp:405-476 | draws the picture of the current state, reading only data, color, piece, next piece and score |
| Game.Game.PaintBackground | src/TetrisGame/Game.cpp:410-455 | frame, separator and locked cells in their colours, whatever the terminal showed before |
| Game.Game.PaintWalls | src/TetrisGame/Game.cpp:478-495 | exactly the three vertical walls are drawn again |
| Game.Game.RowSum | src/TetrisGame/Game.cpp:336-340 | the number of occupied cells of a row |
| Game.Game.EraseRow | src/TetrisGame/Game.cpp:347-353 | exactly the cells of that row are emptied, on the board and on the terminal |
| Game.Game.CopyRowDown | src/TetrisGame/Game.cpp:357-373 | data, color and terminal of a row become those of the row above it |
| Game.Game.ShiftDown | src/TetrisGame/Game.cpp:355-376 | the in-place shift with its early stop is the shift of the specification |
| Game.Game.IncreaseScore | src/TetrisGame/Game.cpp:330-380 | one pass over the arrays is one pass of the specification, including its result and `line` |
| Game.Game.ClearRows | src/TetrisGame/Game.cpp:807-822 | the loop ends, and has done the whole clearing |
| Game.Game.LockCells | src/TetrisGame/Game.cpp:792-803 | exactly the cells of the piece are locked, with its colour; walls, floor and panel stay |
| Game.Game.UpdateCurrentScore | src/TetrisGame/Game.cpp:382-403 | the score grows by the points of the cleared rows and the shown score follows |
| Game.Game.IsOver | src/TetrisGame/Game.cpp:497-509 | true exactly when row 1 is not empty |
| Game.Game.SpawnNext | src/TetrisGame/Game.cpp:841-863 | old preview erased, new preview and new piece drawn, fields exchanged |
| Game.Game.LockAndClear | src/TetrisGame/Game.cpp:792-836 | lock, clear, score and wall redraw take the state to the settled one |
| Game.Game.ProcessBlockDown | src/TetrisGame/Game.cpp:787-887 | a tick takes the state to its successor, for any random draws |
| Game.Game.React | src/TetrisGame/Game.cpp:630-670 | every key and tick takes the arrays and the terminal to the successor state, whose effect on the cells `Moves` states, so all statements about runs hold of them; walls and panel keep their initial values and cells keep a colour in 0..6 |
| Game.Game.InitInterface | src/TetrisGame/Game.cpp:104-144 | frame, floor and separator are set, the playfield is emptied, on whatever board was there before |
| Game.Game.InitGameFace | src/TetrisGame/Game.cpp:146-183 | a new game starts in the start state, on a fresh or a used board and with a built or unbuilt table |
| Game.Game.PlayAgain | src/TetrisGame/Game.cpp:693-707 | after any game whatever, the next one starts in the start state again: no cell, colour, score or table entry of the old game is left |
| Window.BucketBounds | src/TetrisGame/RegThrottle.cpp:34-40 | truncating division with the correction for negative times is the floor: a time lies in its bucket |
| Window.SlotIndexIsResidue | src/TetrisGame/RegThrottle.cpp:42-45 | the slot index is the Euclidean residue, also for negative buckets |
| Window.SlotDurationMs | src/TetrisGame/RegThrottle.cpp:29-32 | a slot is the longest of which five fit into the window, and at least 1 ms |
| Window.BumpTracks | src/TetrisGame/RegThrottle.cpp:128-140 | recording an event keeps ring and log in agreement, also when the slot held an older bucket |
| Window.TracksLater | src/TetrisGame/RegThrottle.cpp:47-58 | the agreement survives the passing of time without any update |
| Window.RingRefinesLog | src/TetrisGame/IpThrottle.cpp:82-92 | the five slots answer every later question like the whole log: the exact count below the 32-bit cap, and "at least the limit" always |
| Window.EveryRingRefinesItsLog | src/TetrisGame/RegThrottle.cpp:34-58 | the same for the ring built from any ascending log, negative times included |
| Drain.ComputeWindowSum | src/TetrisGame/RegThrottle.cpp:47-58 | the loop sums the slots of the last five buckets |
| Drain.Insert | src/TetrisGame/RegThrottle.cpp:78-85 | one insertion keeps the list sorted and adds exactly the new slot |
| Drain.SortLiveSlots | src/TetrisGame/RegThrottle.cpp:66-86 | the insertion sort leaves exactly the live slots, in ascending order of bucket |
| Drain.DrainFromSlot | src/TetrisGame/RegThrottle.cpp:88-95 | once the slots up to one bucket have to go, the moment that bucket leaves the window is the exact admission time |
| Drain.DrainAtMs | src/TetrisGame/RegThrottle.cpp:61-100 | throttled at every moment before the returned time and at none from it on, if nothing is recorded; the fallback return is never reached |
| Drain.Evaluate | src/TetrisGame/RegThrottle.cpp:103-126 | refused exactly at the limit, and the announced seconds are the least whole number, at least 1, after which the caller is admitted |
| Drain.RetryWithinWindow | src/TetrisGame/RegThrottle.cpp:29-32 | the announced seconds never exceed the window |
| IpTable.IpTable.Check | src/TetrisGame/IpThrottle.cpp:155-192 | the decision and the wait are those of the never-pruned log of the address; checking changes no log |
| IpTable.IpTable.Record | src/TetrisGame/IpThrottle.cpp:194-223 | one event is logged if and only if the address has a live event or the live addresses leave room, whether or not this call prunes; the table never exceeds maxEntries |
| IpTable.IpTable.Prune | src/TetrisGame/IpThrottle.cpp:142-152 | exactly entries without live events go, and no answer changes |
| IpTable.IpTable.PruneIfNeeded | src/TetrisGame/IpThrottle.cpp:134-153 | pruning changes no later answer, and a table that stays full holds only addresses with live events |
| Throttles.IpThrottle.Check | src/TetrisGame/IpThrottle.cpp:155-192 | a known address is refused exactly when its log is over the limit, with an exact wait, and an unknown source never; in milliseconds: refused when the limit is reached by events of the last four fifths of the window, admitted when it is not reached by those younger than the window |
| Throttles.IpThrottle.OnFailure | src/TetrisGame/IpThrottle.cpp:194-223 | a failed login is recorded if and only if its address is known and has a live failure or room |
| Throttles.RegThrottle.Check | src/TetrisGame/RegThrottle.cpp:196-228 | refused exactly when one of the two enabled logs is over its limit, the global one first, with the exact wait for the reported one; in milliseconds: each refuses when its limit is reached within the last four fifths of its window, and neither does when it is not reached within the whole |
| Throttles.RegThrottle.OnAttempt | src/TetrisGame/RegThrottle.cpp:230-268 | an attempt is recorded globally whenever that limit is on, and under its address if and only if that limit is on, the address is known, and it has a live attempt or room |
| Throttles.RegThrottle.Register | src/TetrisGame/Server.cpp:215-248 | with one clock reading, the decision is that of the whole history, and the whole new history, global and per address, is that of the specification; only a request that meets the policy is accepted, and it is whenever both logs are below their limits over the whole windows; the quotas over the recorded events are kept, and a refused request leaves no trace |
| Throttles.RegThrottle.constructor | src/TetrisGame/RegThrottle.cpp:186-194 | the empty windows a process starts with keep both quotas |
| Throttles.ServeRegistrations | src/TetrisGame/Server.cpp:215-248 | from the start of the process, over every sequence of requests in time order, decisions and history are those of the specification: the global log is exactly the accepted requests, the log of each address exactly its accepted requests for which there was room, and both are within their quotas |
| Registrations.AttemptKeepsQuotas | src/TetrisGame/RegThrottle.cpp:230-268 | recording an admitted attempt keeps both quotas over the whole history |
| Registrations.RunKeepsQuotas | src/TetrisGame/Server.cpp:215-248 | over every run every log is within its quota in every window of five slots |
| Registrations.LogsAreAccepted | src/TetrisGame/Server.cpp:243-246 | what the logs contain, in terms of the accepted requests |
| Registrations.AcceptedWithinQuotas | src/TetrisGame/Server.cpp:215-248 | over every run at most globalMax requests are accepted in any five slots, and at most ipMax of an address that always had room |
| Registrations.FewAddressesHaveRoom | src/TetrisGame/RegThrottle.cpp:260-266 | there always is room in a run with no more addresses than the table holds |
| Registrations.NoRoomNoQuota | src/TetrisGame/RegThrottle.cpp:260-266 | without room, any number of requests of an address is accepted at one moment, up to the global limit, and none is recorded under it |
| Registrations.FullTableNoQuota | src/TetrisGame/RegThrottle.cpp:260-266 | a run for every table size: once that many addresses have registered, every one of n requests of one more address is accepted in the same slot |
| Registrations.SecondAddressIsFree | src/TetrisGame/RegThrottle.cpp:260-266 | the same in numbers: a limit of one per address, a table for one, and n accepted requests of the second address |
| Registrations.AddressQuotaExactly | src/TetrisGame/RegThrottle.cpp:243-267 | without a global limit, the quota per address holds of the accepted requests in all runs with at most that many addresses if and only if the table holds that many |
| Quota.AdmittedKeepsLimit | src/TetrisGame/Server.cpp:215-246 | recording an admitted event keeps every five-slot window of the whole log within the limit |
| Quota.AnyFiveSlots | src/TetrisGame/Server.cpp:215-246 | over every run of check-then-record, any five consecutive slots hold at most the limit |
| Quota.QuotaWithinFourSlots | src/TetrisGame/RegThrottle.cpp:29-58 | any closed interval up to four slots long holds at most the limit |
| Quota.DoubleQuota | src/TetrisGame/RegThrottle.h:22-23 | a run that gets twice the limit through within four slots and one millisecond |
| Quota.QuotaExactly | src/TetrisGame/RegThrottle.h:22-23 | the limit holds over all intervals of a given length in all runs if and only if the length is at most four slots |
| Quota.WindowInMs | src/TetrisGame/RegThrottle.cpp:29-58 | of any log, everything within the last four fifths of the window counts, and nothing that is a whole window old |
| Quota.TenMinutes | src/TetrisGame/IpThrottle.cpp:64-92 | with a window of ten minutes an event counts for eight minutes, and not after ten |
| AuthThrottle.ConfigFromEnv | src/TetrisGame/AuthThrottle.cpp:25-57 | whatever the environment holds, every field is within its documented bounds and the largest delay is not below the base delay |
| AuthThrottle.ConfigByField | src/TetrisGame/AuthThrottle.cpp:25-57 | each field is what the environment asks for when that is within its bounds, and its default otherwise |
| AuthThrottle.MaximumDelayByField | src/TetrisGame/AuthThrottle.cpp:38-43 | so is the largest delay, but never less than the base delay |
| AuthThrottle.DelayIsExponential | src/TetrisGame/AuthThrottle.cpp:77-96 | the clamped 64-bit shift equals min(base * 2^(k-free-1), max) for every k beyond the free attempts, and the shift itself never wraps |
| AuthThrottle.FreeAttemptsHaveNoDelay | src/TetrisGame/AuthThrottle.cpp:77-81 | up to the free attempts there is no delay |
| AuthThrottle.DelayGrows | src/TetrisGame/AuthThrottle.cpp:77-96 | a later failure never waits less |
| AuthThrottle.AuthThrottle.Check | src/TetrisGame/AuthThrottle.cpp:117-147 | the decision for the account, and that only an expired record is erased |
| AuthThrottle.AuthThrottle.PruneIfNeeded | src/TetrisGame/AuthThrottle.cpp:98-115 | either nothing happens or exactly the expired records go |
| AuthThrottle.AuthThrottle.OnFailure | src/TetrisGame/AuthThrottle.cpp:149-178 | the whole new state of table and prune time after a failure |
| AuthThrottle.AuthThrottle.OnSuccess | src/TetrisGame/AuthThrottle.cpp:180-185 | exactly the record of the account goes; what that means for it and for the others is stated by `GuessingRuns.SuccessForgives` and `GuessingRuns.SuccessSparesOthers` |
| GuessingRuns.StepRemembers | src/TetrisGame/AuthThrottle.cpp:98-178 | no check, failure or success of other accounts, and no pruning or full table, loses an unexpired record |
| GuessingRuns.GuessingIsSlow | src/TetrisGame/AuthThrottle.cpp:117-178 | from any recorded failure on, every further serial guess costs at least the delay of the failure before it, whatever other accounts do |
| GuessingRuns.RecordedExactly | src/TetrisGame/AuthThrottle.cpp:149-177 | a failure leaves a record if and only if the account has an unexpired one or the unexpired records leave room, whether or not this failure prunes |
| GuessingRuns.RecordsCount | src/TetrisGame/AuthThrottle.cpp:166-176 | after any run every record counts at least one failure |
| GuessingRuns.AttackIsSlow | src/TetrisGame/AuthThrottle.cpp:117-178 | after any history that leaves room for the first failure, n failures of a check-then-fail run on one account with no success and no gap of a full lifetime take at least the sum of the delays after failures 1 to n-1, or of those after the failures already on record |
| GuessingRuns.BoundIsMet | src/TetrisGame/AuthThrottle.cpp:117-178 | no larger bound holds: when the delays are shorter than the lifetime, guessing as early as possible is such a run for every n and takes exactly the sum of the delays |
| GuessingRuns.SuccessForgives | src/TetrisGame/AuthThrottle.cpp:180-185 | after a success the account is admitted at every time and its next recorded failure counts 1 |
| GuessingRuns.SuccessSparesOthers | src/TetrisGame/AuthThrottle.cpp:180-185 | records and decisions of all other accounts are unchanged |
| GuessingRuns.OldRecordIsForgotten | src/TetrisGame/AuthThrottle.cpp:131-173 | a record as old as its lifetime refuses nobody, and the next recorded failure counts 1 |
| GuessingRuns.RecordCountsFailures | src/TetrisGame/AuthThrottle.cpp:149-178 | in every run a record counts at least one and at most all of the account's failures, and its delay is the one for that count, from the last failure on |
| GuessingRuns.FreeAttemptsAreFree | src/TetrisGame/AuthThrottle.cpp:77-81 | in every run an account with no more failures than free attempts is admitted |
| GuessingRuns.NoRoomNoDelay | src/TetrisGame/AuthThrottle.cpp:158-167 | without room, any number of check-then-fail guesses at the account passes every check at one moment |
| GuessingRuns.FullTableNoDelay | src/TetrisGame/AuthThrottle.cpp:158-167 | such a table is reached, with the smallest table the environment can set, by one failure of another account |
| GuessingRuns.RefusedFor | src/TetrisGame/AuthThrottle.cpp:131-146 | after a failure the account is refused exactly for the delay or the lifetime of the record, whichever is shorter |
| GuessingRuns.FullWaitsEnforced | src/TetrisGame/AuthThrottle.cpp:38-49 | all delays are enforced in full if and only if the largest delay is not longer than the lifetime |
| GuessingRuns.ShortLifetime | src/TetrisGame/AuthThrottle.cpp:38-49 | a configuration from the environment under which an account with a delay of 2 s is admitted after 1 s, and not a nanosecond earlier |
| GuessingRuns.AnnouncedWaitSuffices | src/TetrisGame/AuthThrottle.cpp:137-145 | exactly when the seconds announced to a refused caller cover the time to its next allowed attempt, and that they never miss it by a millisecond nor exceed it by a second |
| GuessingRuns.WaitFallsShort | src/TetrisGame/AuthThrottle.cpp:137-145 | a caller told to wait one second who is refused again when that second is over |
| PostQueue.StepKeepsInv | src/EventLoop/EventLoop.cpp:217-254 | every interleaved step of posters and loop keeps order, exactly-once and the pending wake-up |
| PostQueue.NoLostWakeup | src/EventLoop/EventLoop.cpp:217-254 | in every run, with a full pipe too, the tasks run are a prefix of the tasks posted, the rest is in hand or queued in order, and while a task is queued there is a byte in the pipe, a byte about to be written, or a loop about to take the queue |
| PostQueue.InternalStepsShrinkWork | src/EventLoop/EventLoop.cpp:217-254 | the loop cannot spin: a round costs at least one byte, and every step brings its end nearer |
| PostQueue.EveryTaskRuns | src/EventLoop/EventLoop.cpp:217-254 | under every scheduling of loop and due writes, without another post the steps come to an end, and then every posted task has been run |
| PostQueue.EveryTaskCanRun | src/EventLoop/EventLoop.cpp:217-254 | from every reachable state such steps exist |
| AsyncAuth.StepKeepsPlaces | src/TetrisGame/Filedata.cpp:320-493 | no step of writer, worker or loop loses or doubles an operation |
| AsyncAuth.StepKeepsChecked | src/TetrisGame/Filedata.cpp:320-493 | every step keeps: nothing is verified twice, stored unverified or twice, answered Busy after a verification, or answered other than its verification and its write say |
| AsyncAuth.StepKeepsWaits | src/TetrisGame/Server.cpp:366-417 | every step keeps: a waiting connection has its current operation outstanding, and an outstanding operation belongs to a connection that is waiting or gone |
| AsyncAuth.StepKeepsInv | src/TetrisGame/Filedata.cpp:151-169 | all of this together with the limits of hash queue and workers, also without a pool |
| AsyncAuth.EveryRunAnswersOnce | src/TetrisGame/Filedata.cpp:320-493 | in every run each login or password change is answered at most once, exactly once when nothing is in flight; Busy means never verified; a login is answered Ok exactly when it passed, a password change exactly when its new credential was written, for which it had to pass; the hash queue keeps its limit |
| AuthTrails.EveryAnswerIsDue | src/TetrisGame/Filedata.cpp:320-493 | in every run an answer is the one due to what its lookup found, whether the hash queue was full, what the verification said and whether the write worked, and each of these happened exactly once if it was called for and not at all otherwise |
| AuthTrails.TrailIsSteps | src/TetrisGame/Filedata.cpp:320-493 | these are exactly the outcomes of the steps that writer and workers ran for the operation |
| AuthTrails.LoginAnswer | src/TetrisGame/Filedata.cpp:320-410 | a login is answered Ok if and only if a step found its account and a step verified its password with a match |
| AuthTrails.LoginNeverWrong | src/TetrisGame/Filedata.cpp:320-410 | a found account with a matching password is never refused, any other verification is answered BadCredentials, and without an account nobody gets in |
| AuthTrails.ChangeAnswer | src/TetrisGame/Filedata.cpp:414-493 | a password change is answered Ok if and only if a step found the account, a step verified the password with a match, and a step wrote the new credential |
| AuthTrails.ChangeRefused | src/TetrisGame/Filedata.cpp:414-493 | a password change is told of a wrong password if and only if a step found no account or a step verified a mismatch |
| AsyncAuth.WaitingHasOneOperation | src/TetrisGame/Server.cpp:552-604 | in every run a connection in STATUS_VERIFYING_PASSWORD has exactly one unanswered operation of all it ever submitted |
| AsyncAuth.InternalStepsShrinkWork | src/TetrisGame/Filedata.cpp:219-247 | every step of the server's own threads brings the answers nearer |
| AsyncAuth.AnswersCome | src/TetrisGame/Filedata.cpp:320-493 | under every scheduling the server's own steps come to an end, and then every operation has its one answer and no connection waits |
| ConnTable.Worker.constructor | src/ConnectionPool/ConnectionPool.cpp:42-55 | the pool starts with that many distinct idle objects, the tables without clients |
| ConnTable.Worker.Acquire | src/ConnectionPool/ConnectionPool.cpp:57-87 | the front object of the pool, reset and with its descriptor, or a new one; it is no longer pooled |
| ConnTable.Worker.Release | src/ConnectionPool/ConnectionPool.cpp:89-114 | reset and appended while there is room; a full pool drops the object untouched |
| ConnTable.Worker.RegisterFdEvent | src/EventLoop/EventLoop.cpp:99-147 | what each way of ending leaves in the event table, an older event of the same descriptor included |
| ConnTable.Worker.RemoveFdEvent | src/EventLoop/EventLoop.cpp:200-215 | the entry goes; the timers' entry never does |
| ConnTable.Worker.Admit | src/TetrisGame/Server.cpp:914-931 | the connection is filed under its descriptor in place of whatever was filed there, and gets its event unless registration fails, an older entry notwithstanding |
| ConnTable.Worker.Accept | src/TetrisGame/Server.cpp:891-949 | on a new or a reused descriptor and on both failure paths users, events and pool stay in step, and exactly which connections lack an event |
| ConnTable.Worker.Discard | src/TetrisGame/Server.cpp:933-948 | removed from both tables before the object goes back to the pool |
| ConnTable.Worker.Handle | src/TetrisGame/Server.cpp:951-959 | a handler reaches exactly the object filed under its descriptor |
| ConnTable.Worker.FlushAndRelease | src/EventLoop/EventLoop.cpp:172-183 | the object is released exactly when its connection has ended, by the flush or before |
| ConnTable.Worker.ReleaseQuit | src/EventLoop/EventLoop.cpp:165-184 | exactly the ended connections are collected, each object released once while there is room, the others untouched |
| ConnTable.Worker.Forget | src/EventLoop/EventLoop.cpp:186-192 | exactly the collected descriptors leave both tables |
| ConnTable.Worker.CleanUp | src/EventLoop/EventLoop.cpp:165-198 | after the timer no ended connection is left, the tables are in step, and the pool is the old one with the freed objects, less what the trim took from its front; a trim that is due leaves at most the target and is noted, and none takes place otherwise |
| ConnTable.TickTakesEnded | src/EventLoop/EventLoop.cpp:165-192 | the timer takes exactly the ended connections and leaves the others as they are |
| ConnTable.Worker.TrimIdleObjects | src/ConnectionPool/ConnectionPool.cpp:158-194 | the oldest idle objects go until the target is left |
| ConnTable.Worker.MaybeTrim | src/ConnectionPool/ConnectionPool.cpp:196-216 | when a trim is due, and by how much it shrinks the pool |
| ConnTable.TakeStep | src/EventLoop/EventLoop.cpp:165-215 | accept, input and timer keep the tables in step, and what is filed afterwards, with which status and whether with an event, is exactly determined |
| ConnTable.RunLoop | src/TetrisGame/Server.cpp:891-949 | over every run the users are the client descriptors with an event as long as registration succeeds, each object is filed under its own descriptor and nowhere else, none is both live and pooled or pooled twice, the pool size is right and bounded, and exactly the connections are filed that the steps set up and did not end |
| ConnTable.StaysFiled | src/EventLoop/EventLoop.cpp:165-198 | a connection stays filed and keeps its event until it ends or its descriptor goes to a new socket |
| ConnTable.OnlyConnectedAreFiled | src/TetrisGame/Server.cpp:927-949 | nothing is filed that was not set up |
| ConnTable.AllHeard | src/TetrisGame/Server.cpp:927-931 | while registration succeeds every filed connection has its event |
| OutputStream.DoneTakesAll | src/Utility/Utility.cpp:86-116 | the loop ends as done exactly when all bytes were taken |
| OutputStream.SignalsDoNotMatter | src/Utility/Utility.cpp:95-98 | interrupted calls change neither what is sent nor how the loop ends |
| OutputStream.WritesBeforeStop | src/Utility/Utility.cpp:86-116 | any number of partial writes before a stop are all taken up to the length, what comes after the stop is not, and the stop alone decides how the loop ends |
| OutputStream.TwoWritesEmpty | src/Utility/Utility.cpp:86-116 | two partial writes that make up the buffer empty it |
| OutputStream.OnlyFailuresBreak | src/Utility/Utility.cpp:86-116 | only a failing call of send breaks a connection |
| OutputStream.LivesOn | src/Utility/Utility.cpp:60-124 | a connection whose client stays, whose sends do not fail, and which has at most 1 MB to send is never given up |
| OutputStream.WhenGivenUp | src/Utility/Utility.cpp:60-124 | a flush gives an open connection up if and only if more than 1 MB is waiting or the socket breaks |
| OutputStream.Connection.SendAll | src/Utility/Utility.cpp:86-116 | for any sequence of send results the bytes delivered are the ones the socket took, in order |
| OutputStream.Connection.Flush | src/Utility/Utility.cpp:60-124 | delivered plus buffered stays the output while the connection lives, the pending flag says whether anything is left, and exactly when the connection is given up (error, closed socket, more than 1 MB) |
| OutputStream.Connection.Output | src/Utility/Utility.cpp:25-43 | inside a batch nothing is sent; outside, a ready socket gets everything |
| OutputStream.Connection.EndBatch | src/Utility/Utility.cpp:45-58 | only the outermost batch sends, never on a connection that has quit |
| OutputStream.Connection.OnTimer | src/EventLoop/EventLoop.cpp:172-177 | the timer delivers what is left when the socket is ready |
| OutputStream.Connection.HangUp | src/TetrisGame/Server.cpp:65-75 | closing loses nothing of what was delivered; waiting output stays flagged |
| OutputStream.Run | src/Utility/Utility.cpp:25-124 | over any outputs, nested batches, timer flushes and send results: buffer, delivered bytes and state are exactly determined; delivered plus buffered is all output until the connection is closed, delivered is a prefix of it for ever, and waiting bytes are always flagged |
| Credential.ToHex | src/TetrisGame/PasswordHash.cpp:17-26 | the loop writes the lower-case spelling |
| Credential.HexSpells | src/TetrisGame/PasswordHash.cpp:17-26 | which spells the bytes it was given |
| Credential.FromHex | src/TetrisGame/PasswordHash.cpp:35-46 | returns the bytes a text spells, in either case, and fails exactly when it spells none |
| Credential.LowerSpellingIsUnique | src/TetrisGame/PasswordHash.cpp:17-46 | in lower case there is one spelling |
| Credential.Find | src/TetrisGame/PasswordHash.cpp:79 | the first '$' from a position on, if there is one |
| Credential.Split | src/TetrisGame/PasswordHash.cpp:76-86 | the parts between the '$' signs |
| Credential.SplitIsUnique | src/TetrisGame/PasswordHash.cpp:76-86 | there is only one way to split |
| Credential.ReadNumber | src/TetrisGame/PasswordHash.cpp:90-95 | reads any numeral of up to nine digits without leaving the 32-bit range, and rejects everything else |
| Credential.DecimalReadsBack | src/TetrisGame/PasswordHash.cpp:121 | a printed number reads back and has no leading zero |
| Credential.NumeralIsDecimal | src/TetrisGame/PasswordHash.cpp:90-95 | without a leading zero a number has one numeral |
| Credential.ReadParts | src/TetrisGame/PasswordHash.cpp:87-103 | accepts exactly four parts with the tag and values within the limits |
| Credential.ParseCredential | src/TetrisGame/PasswordHash.cpp:73-104 | accepts exactly the texts of the grammar with iterations 1..10^7, salt 8..64 bytes and a 32-byte digest, and returns what they stand for |
| Credential.OneMeaning | src/TetrisGame/PasswordHash.cpp:73-104 | a text stands for one triple only |
| Credential.PrintedReadsBack | src/TetrisGame/PasswordHash.cpp:73-127 | round trip: the printed form of any triple within the limits stands for that triple and no other |
| Credential.PrintedIsCanonical | src/TetrisGame/PasswordHash.cpp:73-127 | the other way: an accepted text is the printed form exactly when it has no leading zero and no upper-case digit |
| Credential.Hash | src/TetrisGame/PasswordHash.cpp:108-127 | prints the current parameters, the salt and the derived digest, or fails exactly when the random source or the derivation does |
| Credential.Verify | src/TetrisGame/PasswordHash.cpp:133-172 | matches exactly by digest or as an old plain-text entry, asks for a rehash exactly when the match used outdated parameters, and a text with the hash prefix that does not parse matches nothing |
| Credential.MatchesByDerivation | src/TetrisGame/PasswordHash.cpp:137-153 | against any text that stands for a hash, a password matches if and only if it is not too long and its derivation with the salt and the iterations of that text gives the digest; the text is outdated exactly when those are not today's |
| Credential.PrintedMatchesByDerivation | src/TetrisGame/PasswordHash.cpp:137-153 | the same for the printed form of every triple within the limits, so a credential of other parameters still lets its owner in |
| Credential.PlainTextMatchesItself | src/TetrisGame/PasswordHash.cpp:161-171 | a text without the hash prefix matches itself alone, unless it is empty, and is outdated |
| Credential.LimitsByHand | src/TetrisGame/PasswordHash.cpp:96-100 | the limits in numbers |
| Credential.HexDigitsByHand | src/TetrisGame/PasswordHash.cpp:28-33 | which characters are digits, and their values |
| Credential.HexByHand | src/TetrisGame/PasswordHash.cpp:17-26 | the high half of a byte is written first |
| Credential.DecimalByHand | src/TetrisGame/PasswordHash.cpp:121 | numbers are written in decimal, most significant digit first |
| Credential.HashedVerifies | src/TetrisGame/PasswordHash.cpp:108-172 | verify(p, hash(p)) holds with no rehash, and another password matches exactly when it derives the same digest |

## Left out

- Failing terminal output inside the game: a draw that fails ends the handler early and the connection with it; the model draws every cell.
- Texts on the terminal ("Next:", "Score:", menus, GAME OVER) and escape sequences: the terminal is a grid of (glyph, colour), and the score is the number shown.
- Decoding of key bytes, and key bytes that arrive together: a step is one key.
- Wall-clock speed of gravity: a tick is a step that may come at any time.
- Game.Game.InitGameFace: is stated for a score of 0, as a new connection has it and as the way to the next game restores it (`Game.Game.PlayAgain`); the score on the terminal is blank until the first lock or repaint, and the model shows it as 0.
- The 32-bit range of score, `line` and failure counters, and the 64-bit range of times: unbounded integers.
- Throttles.RegThrottle.OnAttempt: the source has its own copy of the ring and of the table; both copies are modelled once, in `Window`, `Drain` and `IpTable`.
- Drain.SortLiveSlots: the two parallel arrays of the insertion sort are one array of (bucket, count) slots.
- Order in which hash tables and the users map are walked: any order.
- The environment bounds of RegThrottle and IpThrottle: limits, windows and table sizes are arbitrary, but for `Registrations.AddressQuotaExactly`, where the table is smaller than the number of addresses there are, as its bound of a million makes it.
- PostQueue.NoLostWakeup: assumes that the pipe was created; without it `post` runs the task on the caller's thread; a read of the pipe fails only because it is empty.
- AsyncAuth.EveryRunAnswersOnce: covers the time before shutdown, because the writer thread stops with tasks still queued (src/TetrisGame/Filedata.cpp:220), and tasks that do not end in an exception outside the handlers the code has.
- AsyncAuth.WaitingHasOneOperation: takes every connection object as acquired once; a late callback that meets an object reused from the pool is told apart by its status only, so the statement does not extend to it.
- What a migration write and a password change do to each other's stored credential.
- ConnTable.Worker.Accept: the kernel may return any descriptor but that of the listening socket; the counters for statistics and `active_connections` are not modelled.
- OutputStream.Connection.Flush: the results of `send` are any finite list, so an endless series of interruptions is not a run; a closed descriptor is taken to refuse every byte until its object leaves the tables, and a batch to end before its object goes back to the pool.
- Credential.Verify: comparison in constant time is equality; timing, and the dummy verification of unknown accounts, are not modelled.
- SQLite storage, CSV import, the admin command line, the bridge, deployment, the leader board and `SystemOptimizer`: plumbing around the core.
