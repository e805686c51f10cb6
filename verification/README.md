# Pinewood derby lane judge: timer protocol model

A Dafny model of the protocol logic of `judge.c`, the text-only lane judge
that talks to a race timer over a serial line. All device and terminal I/O
is replaced by its inputs. The serial port is an opaque handle. A line the
timer sent is a value, and a failed read is `None`. The operator's answers
are values too. What remains splits into five pieces, one module each:

- `Banner` (banner.dfy) models `init_timer`. The timer's identification
  line becomes a lane count by a priority test: an '8' anywhere gives 8,
  else a '4' anywhere gives 4, else a '2' gives 2, else 0 (error). Only the
  text before the first NUL counts, as with `strrchr`. This is not the
  "search backward for a digit" that the code's comment describes.
  `RightmostLaneDigit` is that other reading, and the lemmas show where the
  two agree and where they differ.
- `RaceTimes` (race_times.dfy) models `get_times`. The result line comes
  already split into `(lane, time)` pairs. A time is an integer count of
  ten-thousandths of a second, and 0 is the float 0.0. `Decode` is the
  reference meaning and `GetTimes` is the C loop, proved equal to it.
- `Reconnect` (reconnect.dfy) models `reinit_timer`. It runs over a finite
  sequence of operator rounds. In each round the port either fails to open
  or opens and yields a banner.
- `History` (history.dfy) models the four-slot ring `prev_times` /
  `prev_head`: the push, the backward display walk and the cursor.
- `Session` (session.dfy) models the body of `main`'s loop: how the return
  code is classified, the history update, recovery, the exit test on the
  operator's answer and the rearm byte. It also models start-up and a run
  of several passes.

`Common` (common.dfy) holds `Option`, the constants `MaxLanes` = 4
(`MAX_LANES`) and `HistorySlots` = 4, and `CString`: the part of a buffer
that C string functions see.

Some behaviour of the code is easy to misread, and the model keeps it:

- A result line whose first time is zero is a null race only by its times.
  `get_times` still returns the first lane token, so every lane reads 0
  while the return value is that token (`FirstTimeZero`).
- Decoding stops at the first zero time, so lanes named after it read 0.
  On the four-lane line `1 3.2001 2 3.5512 3 0.0000 4 4.0012`, where lane 3
  did not finish, the times are `[3.2001, 3.5512, 0, 0]`
  (`LaneThreeUnfinished`, `UnfinishedLaneRound`).
- After a good race the newest times are shown by the times display. Then
  "Previous results" always prints the three other slots, oldest last,
  including slots never written. These read as zero, or as leftover memory
  in the last lane's row (`FifthRaceDisplay`, `History.Initial`).

## Model

| member | source | states |
|---|---|---|
| Common.CString | judge.c:69-77 | what `strrchr` and `strchr` see of a buffer: a prefix of it, free of NUL, that ends at the first NUL or at the end of the buffer |
| Common.CStringFinds | judge.c:285 | `strchr` finds `c` exactly when some `c` in the buffer has no NUL ahead of it |
| Banner.LaneCount | judge.c:56-83 | the count is always one of 0, 2, 4, 8; it is nonzero only when the banner read succeeded |
| Banner.StrRChr | judge.c:69-73 | finds `c` exactly when it occurs before the first NUL, at its last position there |
| Banner.InitTimer | judge.c:57-83 | the three `strrchr` probes give 8 iff an '8' occurs, 4 iff no '8' but a '4', 2 iff only a '2', and 0 iff the read failed or no lane digit occurs; this equals `LaneCount` |
| Banner.RightmostLaneDigit | judge.c:67-68 | the comment's backward search, restricted to the lane digits: 0 exactly when the line holds no lane digit; otherwise the value of a lane digit with no lane digit after it |
| Banner.EightWinsAnywhere | judge.c:69-70 | a line with an '8' before any NUL reports 8, wherever any '4' or '2' stands |
| Banner.OnlyFourPresent | judge.c:71-72 | a '4' before any NUL reports 4 when the line holds no '8' |
| Banner.SingleDigitAgrees | judge.c:67-78 | when only one kind of lane digit occurs, the priority test and the rightmost-digit reading agree |
| Banner.TrailingNonDigits | judge.c:67-68 | characters that are not lane digits at the end do not change the rightmost-digit reading |
| Banner.PriorityIsNotRightmost | judge.c:67-74 | an '8' ahead of a '4' with no lane digit after it (a version such as "v8.1" before "4 Lanes") reports 8, while the rightmost lane digit is 4 |
| RaceTimes.Consumed | judge.c:135-146 | at most `lanes` pairs are stored, all with nonzero times, and storing stops at the first zero time |
| RaceTimes.LastTime | judge.c:147 | a lane no stored pair names keeps its cleared 0; otherwise it holds the time of the last pair naming it, so a later pair overwrites an earlier one |
| RaceTimes.Decode | judge.c:119-150 | a failed read returns -1 and leaves the results untouched; a successful read returns the first lane token, and slots from `lanes` up to `MAX_LANES` keep their old values |
| RaceTimes.GetTimes | judge.c:120-150 | the C loop (clear, then store by lane and stop at the first zero time) computes exactly `Decode` |
| RaceTimes.DecodeIgnoresOldLanes | judge.c:134-148 | after a successful read, the return value and the first `lanes` results depend on the line alone, not on what the array held before |
| RaceTimes.FirstTimeZero | judge.c:135-146 | a zero first time gives all-zero lanes, while the return value is still the first lane token |
| RaceTimes.UnnamedLanesZero | judge.c:134-148 | a lane no stored pair names reads 0, including lanes named only after the first zero time |
| RaceTimes.LastTimeOfDistinct | judge.c:147 | with distinct lanes, the last pair naming a lane is the only one |
| RaceTimes.StoredByLane | judge.c:147 | each stored pair's time lands in `results[lane-1]`, by lane and not by position, when lanes are distinct |
| RaceTimes.LaneThreeUnfinished | judge.c:134-148 | on four lanes, `1 3.2001 2 3.5512 3 0.0000 4 4.0012` returns 1 with times `[32001, 35512, 0, 0]` |
| Reconnect.Accepts | judge.c:100-109 | a round ends recovery only if the port opened; the expected count is then one of 0, 2, 4, 8, and when it is nonzero the banner read succeeded |
| Reconnect.Retry | judge.c:97-116 | returns a handle iff some round opened with the expected lane count; it returns the first such round's handle; every earlier round was refused; the closed handles are exactly those of earlier opened rounds, in order, so an open failure closes nothing |
| Reconnect.ReinitTimer | judge.c:85-117 | the failed port is closed first; a handle comes back iff some round reports the expected lane count, and it is the first such round's handle; after the failed port, exactly the handles of the earlier opened rounds are closed, in order |
| Reconnect.MismatchClosesOpenFailureDoesNot | judge.c:100-115 | a refused first round closes nothing if the open failed, and closes its own handle if the lane count was wrong |
| Reconnect.ThirdRoundSucceeds | judge.c:97-116 | two failed opens, then a banner that reports the expected lane count: recovery ends after exactly three rounds with that handle, having closed only the original port |
| History.Initial | judge.c:241 | the `memset` clears the first three lanes' rows and leaves the last lane's row as it was; the cursor starts at 0 |
| History.Push | judge.c:256-274 | only column `prev_head` changes, and only in rows `0..lanes-1`, where it takes the race's times; the cursor becomes `(prev_head+1) mod 4` and stays in `[0,3]` |
| History.WrittenEntry | judge.c:256-258 | reading back the slot a push wrote gives the race's times for the timer's lanes |
| History.PushReadsOwnLanes | judge.c:256-258 | a push depends only on the times of the timer's lanes |
| History.PrevSlot | judge.c:267-269 | one step back, wrapping 0 to 3, is `(i-1) mod 4` |
| History.Walk | judge.c:263-270 | the walk from `i` visits `(i-k) mod 4` for `k` below the distance back to the cursor |
| History.RecentOrder | judge.c:260-270 | the display visits exactly `prev_head-1`, `prev_head-2`, `prev_head-3` (mod 4), in that order, and never the slot just written |
| History.Previous | judge.c:259-270 | the three printed rows are the slots one, two and three behind the slot just written |
| History.PushAllCons | judge.c:256-274 | saving one race and then a list is saving the longer list |
| History.CursorAdvances | judge.c:272-274 | after n good races the cursor has moved n slots, mod 4 |
| History.NewestEntries | judge.c:256-274 | the k-th newest race (k < 4) sits k+1 slots behind the cursor |
| History.PreviousRow | judge.c:259-270 | the k-th row printed after a race (k = 1, 2, 3) is the k-th race before it |
| History.FifthRaceDisplay | judge.c:255-274 | after races e1..e5 the slot just written holds e5, and the previous results are e4, e3, e2 |
| Session.Classify | judge.c:250-282 | exactly one path is taken: good iff the code is positive (its winner is the code), null iff it is 0, recovery iff it is negative |
| Session.RearmBytes | judge.c:152-157 | nothing is written in debug mode, otherwise one space |
| Session.WantsExit | judge.c:285-286 | the loop ends exactly when the answer holds an 'x' or an 'X' with no NUL ahead of it |
| Session.Finish | judge.c:283-287 | a failed operator read keeps the old buffer; the loop exits iff the buffer holds 'x' or 'X'; otherwise the rearm bytes are written |
| Session.Step | judge.c:246-288 | the results are the decoded line; a good race pushes exactly those times, shows them and then the three older slots; null races and errors leave the history alone; recovery closes what `reinit_timer` closes and resumes on the handle it returns, the first accepted round's; the pass waits only when no round is accepted; the operator buffer is the answer, or the old buffer when the read failed; the lane count never changes |
| Session.PassFacts | judge.c:246-288 | a pass stalls iff the line decodes to a negative code and no round is accepted; whether it was a good race, and its lane times, depend on the line alone; the history moves by one push exactly on a good race; the operator buffer is the answer, or the old buffer when the read failed, and the pass exits iff that buffer asks to |
| Session.RunRounds | judge.c:246-288 | a run completes some number of passes, none of which stalled and none before the last of which was asked to exit; the operator buffer is the last answer read in them; the races it saves are exactly the good races among them, each with the times its line decodes to, in order; the history is the start history with those pushed; it stops early exactly when the next pass stalls in recovery or the last answer asks to exit |
| Session.Resume | judge.c:283-288 | the same promises hold once the first pass is known: a stalled pass ends the run before it, an exit ends it after it, and otherwise the rest of the run follows |
| Session.ExitFits | judge.c:283-286 | a pass whose answer asks to exit ends the run with that pass's race saved if it was good |
| Session.ContinueSaves | judge.c:255-288 | a pass that does not stop the run puts its race, if good, ahead of the rest of the run's races, and the history pushes them in that order |
| Session.ContinueGoods | judge.c:250-258 | the first pass's race, if it was good, comes ahead of the good races the rest of the run saves |
| Session.ContinueHistory | judge.c:256-274 | the history pushes the first pass's race, if it was good, before the rest of the run's races |
| Session.GoodRacesFirst | judge.c:250-258 | the good races among the first n + 1 rounds are the first round's, if it decodes to a positive code, ahead of those among the next n |
| Session.SavedAfterFirst | judge.c:256-274 | saving at most one race and then a list of races is saving the two lists joined |
| Session.ContinueStops | judge.c:283-288 | a run whose first pass goes on stops exactly where the rest of it stops, and none of its completed passes stalled |
| Session.OperatorAfterShift | judge.c:283-285 | reading the answers of the later rounds from the buffer the first round left gives the same buffer as reading them all from the start |
| Session.ContinueAnswers | judge.c:283-288 | a run whose first pass goes on ends with the last answer read, and no pass before its last asked to exit |
| Session.NoEarlierExit | judge.c:285-286 | if the first answer does not ask to exit and no later answer before the last one does, then no answer before the last one does, counted from the start |
| Session.ContinueFits | judge.c:283-288 | a pass that does not stop the run hands over to the rest of it with all the run's promises kept |
| Session.Startup | judge.c:222-243 | start-up fails iff the port does not open or the banner gives 0; otherwise the session has the banner's lane count, the opened port, the initial history, the debug flag, the results array and the operator buffer main set up, and fits the arrays iff that count is at most 4 |
| Session.EightLaneTimerExceedsArrays | judge.c:194-195 | an "8 Lanes" banner starts a session whose lane count exceeds the four-slot arrays |
| Session.CommentBanner | judge.c:67-74 | the banner "SuperDuper Timer v9.3 - 4 Lanes found" reports 4 |
| Session.EnterContinues | judge.c:285-286 | a bare Enter does not end the session |
| Session.UnfinishedLaneRound | judge.c:248-257 | on a four-lane session, a line on which lane 3 did not finish is a good race for lane 1 with times `[32001, 35512, 0, 0]`, and the port stays the same |
| Session.RecoveredRound | judge.c:279-282 | a failed read whose first reopen reports four lanes resumes on the new handle with the history unchanged |
| Session.RunContinues | judge.c:283-288 | a pass that ends without exit hands over to the rest of the run, adding its times to the saved races iff it was a good race |
| Session.RecoveryEndsRun | judge.c:279-288 | a failed read that recovers on the first reopen, as the last round, saves nothing and leaves the run on the new handle |
| Session.UnfinishedLaneStartsRun | judge.c:246-288 | a good race on which lane 3 did not finish, followed by any rounds, puts its times ahead of theirs |
| Session.RaceThenRecovery | judge.c:246-288 | that race then a recovered failure: one race saved, two passes, the run does not stop, and the link resumes on the new handle |
| Session.StartRaceRecover | judge.c:222-288 | from a banner that reports four lanes, the same run saves the race, resumes on the new handle and leaves the history as the race pushed onto the initial one |

## Left out

- `open_timer`, `close_timer` and the termios set-up are serial-port I/O. A port is an opaque handle; opening one is an input, and closing one is recorded as the handles closed. When `fopen` fails, `open_timer` (judge.c:33-34) returns from a function of type `FILE *` without a value; the model reads that as the evident intent, a failed open (`None` at start-up, `OpenFailed` in recovery).
- `display_winner` and `display_times` render through `system("toilet ...")`. The model only reports which rows a pass shows.
- `usage` and the `getopt` parsing are command-line plumbing. So is the uninitialised `filename` when `-p` is missing.
- The `printf` prompts and the blocking reads from stdin are left out. Each operator answer is an input; None means fgets failed and the buffer keeps its old contents. The 10-byte read size, which splits a longer answer over several reads, is not modelled.
- Each line from the timer is one value. `fgets` with `LINE_LEN` = 80 delivers at most 79 characters, so a longer line is split and its tail becomes the next read. For example, a 79-character banner followed by its newline leaves "\n", which the next `get_times` reads as a null race with code 0. This split is not modelled.
- `strtol` / `strtof` text conversion and float comparison are libc calls. The result line arrives as integer pairs. Past the last token both calls find no number and return 0, so a pair past the end of the line reads as lane 0, time 0 (`RaceTimes.PairAt`).
- Reconnect.Retry: the real retry loop never gives up. The model runs over finitely many rounds, and when they run out without a match it reports the pass as still waiting.
- RaceTimes.Decode: requires 1 <= lanes <= 4, and requires a lane in `1..lanes` for every pair it stores. The C code checks neither. A stored lane below 1 or above 4 writes outside `results`. A lane between `lanes + 1` and 4 writes a slot of `times` that no later step reads for this timer. The model gives neither case a meaning.
- RaceTimes.GetTimes: has the same preconditions as `Decode`, for the same reason.
- History.Push: requires lanes <= 4, because `prev_times` has four rows.
- Session.Step: needs a session with at most 4 lanes, because an 8-lane timer makes `get_times` and the history write past their arrays (`EightLaneTimerExceedsArrays`).
- Interrupting the process (Ctrl-C) is outside the loop's logic.
