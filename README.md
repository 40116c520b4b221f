# A model of the xv6 scheduling, console and user-account extensions

This project models the core of an extended xv6 kernel, together with the small user programs shipped with it, and proves properties of that model.

- **Process table** (`proc_table.dfy`, module `Proc`):
  - a fixed array of process slots plus the three per-class counters of RUNNABLE processes (EDF, MLFQ level 1 round robin, MLFQ level 2 FCFS);
  - the operations that change them: allocproc, fork, exit, wait, kill, yield, sleep, wakeup1, aging, create_realtime_process, change_process_queue;
  - the EDF, round-robin and FCFS selectors and one dispatch step of the scheduler;
  - process lookup and snapshot collection.
  
  Every table operation states the new table as a function of the old one. The data it keeps is each counter's *drift*: how far the counter is from the true number of RUNNABLE slots of its class. Each operation either preserves the drift or says exactly how it moves it. For example, kill's wakeup leaves its class counter one short.
- **Synchronisation case studies from proc.c**:
  - the sleeping barber shop (`barber.dfy`): a 5-entry circular customer queue and a cap of 10 admissions;
  - the reader-writer lock (`rw_lock.dfy`): two 64-entry pid rings and the reader and writer counts;
  - the reader-writer pattern (`rw_pattern.dfy`): how a pattern becomes a duty per process.
  
  Blocking is a returned outcome, and waking is a separate method.
- **Smaller computations in proc.c**: next_palindrome and num_digits (`proc_numeric.dfy`), and the line-by-line diff of two files (`diff.dfy`).
- **The console line editor** (`console.dfy`, `console_lines.dfy`, `console_strings.dfy`):
  - the 128-byte circular input buffer with read, write and edit indices and every editing key of consoleintr;
  - the two 10-row history rings, prefix completion, the clipboard, and the copy loop of consoleread;
  - the console's own string routines (strSplit, strchr, strcmp, strtok, is_keyword, remove_between_sharps) and printint's digit conversion.
- **The user-account table** (`user_mgmt.dfy`): at most 64 users with distinct ids, one logged-in user, and a 64-entry system-call log per user.
- **User programs**: the leap-year and date-to-seconds conversion of set_sleep (`set_sleep.dfy`), the curly-brace checker (`brace_check.dfy`), find_sum (`find_sum.dfy`), make_user's argument checks (`make_user.dfy`) and reader_writer's process count (`reader_writer.dfy`).
- **Shared pieces** (`clang.dfy`, `ring.dfy`):
  - C semantics: 32-bit wrap-around, truncating division and NUL-terminated strings;
  - the window of a circular buffer, used by several rings.

Nothing in the model performs I/O. The current process, `ticks`, NPROC, the outcome of memory allocation and the files diff reads are all parameters. The kernel's `ticks` is unsigned, while the process fields that record it are C ints, so the model records `ToInt32(ticks)`, the value such a field receives.

The code is modelled as written, defects included:

- kill does not count the process it wakes.
- A woken reader decrements the waiting-reader count after the releaser has already set it to 0.
- A password of 16 or more characters is stored truncated, so it can never log in.
- make_user accepts an empty id and ids that wrap to negative numbers.
- find_sum reads `argv[argc]`; its contents are a parameter.
- login reads through a null `curr_user`; the value read is a parameter.
- remove_between_sharps can write `output[-1]`; the write is dropped.
- A `#` left in the buffer after a line can empty the line remove_between_sharps keeps.

## Model

| member | source | states |
|---|---|---|
| CLang.CStr | XV6/console.c:609-617 | the C string at the front of a buffer is the prefix before its first NUL |
| CLang.Reverse | XV6/console.c:123-127 | position k of the result is position n-1-k of the input |
| CLang.ReverseSnoc | XV6/proc.c:866-883 | reversing s + [x] puts x first |
| CLang.ReverseFrom | XV6/console.c:123-127 | reading a sequence backwards from position i-1 extends the reversal of its tail by s[i-1] |
| CLang.ToInt32 | XV6/set_sleep_syscall.c:12-31 | the result is a 32-bit int congruent to the input modulo 2^32 |
| CLang.CDiv | XV6/reader_writer.c:14-20 | C division truncates toward zero: the magnitude of the quotient is that of the dividend divided by the divisor, the quotient has the dividend's sign, and q·b lies within one divisor of a on the side of zero |
| CLang.StrNEqualShort | XV6/user_mgmt.c:54-72 | for a string shorter than n, strncmp over n characters is 0 exactly for an equal string |
| CLang.StrNEqualPrefix | XV6/console.c:619-637 | strncmp over the length of a is 0 exactly when b starts with a |
| Ring.Occupancy | XV6/proc.c:1296-1312 | the number of entries between head and tail of a ring of n slots is below n |
| Ring.WindowPush | XV6/proc.c:1296-1312 | writing at the tail appends the value to the ring's window of queued entries |
| Ring.WindowPop | XV6/proc.c:1334-1339 | the head entry is the first of the window, and advancing the head drops it |
| Ring.WindowExtend | XV6/proc.c:1479-1500 | the window one longer ends with the next slot's value |
| Ring.OccupancyTail | XV6/proc.c:1385-1410 | head plus occupancy reaches tail modulo n |
| Ring.OccupancyPush | XV6/proc.c:1385-1410 | advancing the tail of a non-full ring adds one to the occupancy |
| Ring.OccupancyPop | XV6/proc.c:1466-1498 | advancing the head of a non-empty ring removes one from the occupancy |
| Proc.RunnableOfUpdate | XV6/proc.c:75-76 | replacing one slot changes a class's RUNNABLE count by exactly that slot's old and new contribution |
| Proc.RunnableOfUpdateAll | XV6/proc.c:75-76 | the same for all classes at once |
| Proc.RunnableOfZero | XV6/proc.c:505-523 | a zero RUNNABLE count of a class means no slot of that class is RUNNABLE |
| Proc.RunnableOfWitness | XV6/proc.c:505-523 | a positive RUNNABLE count of a class has a RUNNABLE slot of that class |
| Proc.WakeTableWakesSleepers | XV6/proc.c:774-793 | wakeup1 changes only the slots sleeping on the channel: each becomes RUNNABLE, and a level-2 one also gets entering time ticks and waiting time 0 |
| Proc.AgeTableAges | XV6/proc.c:1016-1031 | aging changes only RUNNABLE level-2 slots, and one below the threshold only waits one tick longer |
| Proc.AgingMovesBetweenLevels | XV6/proc.c:1016-1031 | aging moves exactly the promoted slots from level 2 to level 1, so the sum of the two MLFQ counts is unchanged and EDF is untouched |
| Proc.AgingPromotesAtThreshold | XV6/proc.c:1016-1031 | a RUNNABLE level-2 process whose waiting time reaches 800 ends the pass in level 1 with waiting time 0 and arrival time ticks |
| Proc.QueueOfCode | XV6/proc.c:1100-1105 | only the codes of MLFQ level 1 and level 2 name a target queue |
| Proc.ReparentScanParents | XV6/proc.c:401-412 | the reparenting scan points every child of the exiting process at init and changes no other parent |
| Proc.ExitLeavesNoChildren | XV6/proc.c:401-415 | after exit (never of init) the exiting slot is a ZOMBIE, its children name init as parent, other parents are unchanged, and no slot names the exiting process |
| Proc.EdfChoiceUnique | XV6/proc.c:476-496 | the EDF specification picks at most one slot: the RUNNABLE EDF slot of least remaining time, the later slot on ties |
| Proc.FcfsSkipsEntryBeforeWrap | XV6/proc.c:526-533 | at ticks 2^31 the int baseline is negative, so a slot that entered at 2^31-1 is not chosen and FCFS chooses none |
| Proc.RoundRobinChoiceUnique | XV6/proc.c:507-523 | the first RUNNABLE level-1 slot in circular order after the last one dispatched is unique |
| Proc.Prefix | XV6/proc.c:1177-1199 | the name copy is a prefix of the name of at most n characters |
| Proc.SnapshotsOfUsedSlots | XV6/proc.c:1177-1199 | there is one snapshot per used slot, in table order, and none of an unused one |
| Proc.Take | XV6/proc.c:1177-1199 | the first m snapshots, or all of them when fewer exist, and none for m ≤ 0 |
| Proc.FirstFrom | XV6/proc.c:1080-1088 | the slot found passes the test, and no slot between the start and it does |
| Proc.FirstIs | XV6/proc.c:1080-1088 | a scan that stops at slot i after rejecting all earlier slots has found the first slot passing the test |
| Proc.ProcTable.constructor | XV6/proc.c:75-76 | all slots unused, all counters 0, nextpid 1, and the counters agree with the table |
| Proc.ProcTable.AllocProc | XV6/proc.c:172-217 | the first UNUSED slot becomes EMBRYO with the next pid; without a kernel stack it is freed again; with no UNUSED slot nothing changes |
| Proc.ProcTable.UserInit | XV6/proc.c:252-255 | the first process becomes RUNNABLE in level 1, is counted there, and becomes init |
| Proc.ProcTable.Fork | XV6/proc.c:285-339 | the child slot gets the parent, its name and RUNNABLE in level 1 or 2; a failed allocation or memory copy returns -1 and frees the slot |
| Proc.ProcTable.StartChild | XV6/proc.c:321-334 | the child becomes RUNNABLE in level 1 or level 2, and the counter of its class counts it |
| Proc.ProcTable.WakeIfSleeping | XV6/proc.c:782-791 | one slot is woken as wakeup1 wakes it, and its class counter counts it, so the drift is kept |
| Proc.ProcTable.Wakeup1 | XV6/proc.c:774-793 | the table becomes WakeTable of the old one, the drift is kept, and with no sleeper on the channel nothing changes |
| Proc.ProcTable.Sleep | XV6/proc.c:743-756 | the caller becomes SLEEPING on the channel and leaves its counter if it was RUNNABLE |
| Proc.ProcTable.Yield | XV6/proc.c:681-696 | the caller becomes RUNNABLE and is counted in its class; level 2 restarts its waiting time and keeps its FCFS entering time |
| Proc.ProcTable.Kill | XV6/proc.c:808-825 | the first slot with the pid is killed and, if sleeping, made RUNNABLE without being counted; -1 when no slot has the pid |
| Proc.ProcTable.Wait | XV6/proc.c:423-462 | the first ZOMBIE child is reaped and its pid returned; with no children, or a killed caller, -1; otherwise the caller sleeps on its own slot |
| Proc.ProcTable.WakeupKeepingWait | XV6/proc.c:394-398 | exit's wakeup of the parent, with the caller's waiting time restored |
| Proc.ProcTable.HandOverToInit | XV6/proc.c:401-412 | one turn of exit's reparenting loop, as ReparentStep states |
| Proc.ProcTable.ReparentChildren | XV6/proc.c:401-412 | the whole reparenting loop, as ReparentScan states |
| Proc.ProcTable.Exit | XV6/proc.c:345-418 | init exiting panics and changes nothing; otherwise the table becomes ExitTable of the old one, and the drift is kept when the caller was not sleeping |
| Proc.ProcTable.UncountExiting | XV6/proc.c:377-388 | a RUNNABLE caller leaves the counter of its class and the FCFS order |
| Proc.ProcTable.SelectEarliestDeadline | XV6/proc.c:476-496 | the result meets the EDF specification: the RUNNABLE EDF slot of least deadline minus ticks, the later one on ties, or none |
| Proc.ProcTable.SelectMultilevelFeedback | XV6/proc.c:505-551 | round robin while the level-1 counter is nonzero; otherwise FCFS while the level-2 counter is nonzero; otherwise none |
| Proc.ProcTable.SelectRoundRobin | XV6/proc.c:507-523 | the first RUNNABLE level-1 slot in circular order after the last dispatched one, that slot itself checked last |
| Proc.ProcTable.SelectFirstComeFirstServed | XV6/proc.c:524-549 | the RUNNABLE level-2 slot with an entering time other than -1 and not past the int value of ticks, of least entering time, the later one on ties, or none |
| Proc.ProcTable.ChooseNext | XV6/proc.c:594-607 | EDF while its counter is nonzero, then round robin, then FCFS; a chosen slot is RUNNABLE |
| Proc.ProcTable.Dispatch | XV6/proc.c:612-637 | the chosen slot becomes RUNNING and leaves its counter, level 1 becomes the last round-robin slot, and the time bookkeeping restarts for a new pid |
| Proc.ProcTable.MarkRunning | XV6/proc.c:612-626 | the slot becomes RUNNING and its counter drops by one, so the drift is kept |
| Proc.ProcTable.RestartTimes | XV6/proc.c:627-637 | the run times restart when the dispatch follows none or another pid |
| Proc.ProcTable.SchedulerStep | XV6/proc.c:578-651 | one pass keeps the counters in agreement, dispatches what the class order chooses, and changes nothing when nothing is chosen |
| Proc.ProcTable.SchedulerReturn | XV6/proc.c:645-648 | the returning process becomes the last dispatched one and level 1 restarts its round-robin time |
| Proc.ProcTable.AgeOne | XV6/proc.c:1016-1031 | one slot is aged, the drift is kept, and the sum of the two MLFQ counters is unchanged |
| Proc.ProcTable.AgingMechanism | XV6/proc.c:1013-1039 | the table becomes AgeTable of the old one, the drift is kept, and counts move only from level 2 to level 1 |
| Proc.ProcTable.CreateRealtimeProcess | XV6/proc.c:1044-1075 | the caller joins EDF with deadline ticks plus the given one and returns 0; the drift is kept, except that for a caller already RUNNABLE in EDF the EDF drift grows by one while both MLFQ drifts are kept |
| Proc.ProcTable.UncountFromMlfq | XV6/proc.c:1127-1154 | a RUNNABLE slot of an MLFQ level leaves that level's counter |
| Proc.ProcTable.GetProcByPid | XV6/proc.c:1080-1088 | the first used slot with the pid, or none exactly when no used slot has it |
| Proc.ProcTable.ChangeProcessQueue | XV6/proc.c:1092-1158 | -1 with nothing changed for another queue type, an unknown pid, a target already in the level, or a RUNNING target other than the caller; otherwise 0 and the target requeued, with the drift of Requeue |
| Proc.ProcTable.Requeue | XV6/proc.c:1127-1154 | the target gets the new level, waiting time 0 and arrival ticks, and an FCFS entering time in level 2; the drift is kept, except that a RUNNABLE EDF target stays counted in EDF: the EDF drift moves by one and both MLFQ drifts are kept |
| Proc.ProcTable.CollectProcessSnapshots | XV6/proc.c:1177-1199 | the snapshots of the first maxCount used slots, in table order, and their count |
| ProcNumeric.DigitsAreDigits | XV6/proc.c:866-883 | every element of a number's digit sequence is a decimal digit |
| ProcNumeric.DigitsValue | XV6/proc.c:866-883 | a non-negative number's digit sequence denotes the number |
| ProcNumeric.ValueAppend | XV6/proc.c:866-883 | appending a digit adds it at the next power of ten |
| ProcNumeric.ValueBelow | XV6/proc.c:866-883 | k digits denote a number below 10^k |
| ProcNumeric.ValueInjective | XV6/proc.c:866-883 | equal-length digit sequences that denote the same number are equal |
| ProcNumeric.RevAccValue | XV6/proc.c:866-883 | the reversal loop appends the reversed digits of the number to the accumulator |
| ProcNumeric.DigitsLength | XV6/proc.c:866-883 | a number below 10^k has at most k digits |
| ProcNumeric.ToInt32OfInt | XV6/proc.c:866-883 | a value in the range of a C int is left unchanged by the 32-bit conversion |
| ProcNumeric.ReversalInRange | XV6/proc.c:866-883 | below 10^9 the reversal is the number the reversed digits denote and stays below 10^9 |
| ProcNumeric.StopsAtPalindromes | XV6/proc.c:866-883 | below 10^9 the search stops at a number exactly when its digits read the same both ways |
| ProcNumeric.Pow10Monotone | XV6/proc.c:1162-1174 | powers of ten grow with the exponent |
| ProcNumeric.StopsAtNonPositive | XV6/proc.c:866-883 | among non-positive numbers the search stops only at 0 |
| ProcNumeric.LargestIntPalindromeStops | XV6/proc.c:866-883 | the search stops at 2147447412, the largest palindrome a C int holds |
| ProcNumeric.NextPalindrome | XV6/proc.c:866-883 | the result is the first number from num on at which the search stops, and 0 for a non-positive start |
| ProcNumeric.ReverseDigits | XV6/proc.c:871-877 | the inner loop computes the reversal RevAcc(i, 0), changing nothing |
| ProcNumeric.DigitsLengthBounds | XV6/proc.c:1162-1174 | a positive number with k digits lies in 10^(k-1) .. 10^k - 1 |
| ProcNumeric.NumDigits | XV6/proc.c:1162-1174 | the printed width of n: 1 for 0, the digit count for a positive number, one more for the minus sign, and 1 for INT_MIN |
| Diff.LineAt | XV6/proc.c:945-979 | a read line is a segment of the file without line breaks, at most 127 bytes, and the offset moves past it and past its terminating break if any |
| Diff.LineFromSpec | XV6/proc.c:945-979 | the helper loop's line extends the bytes already kept |
| Diff.ReadLine | XV6/proc.c:945-979 | the line-reading loop returns what LineAt specifies |
| Diff.CompareUnfold | XV6/proc.c:945-979 | one comparison step: a differing pair of lines is reported with its number before the rest |
| Diff.CompareSelf | XV6/proc.c:945-979 | a file never differs from itself |
| Diff.CompareIncreasing | XV6/proc.c:945-979 | the reported line numbers are at least the first and strictly increase |
| Diff.BlankLineEndsComparison | XV6/proc.c:945-979 | an empty line in both files ends the comparison, so later differences are not reported |
| Diff.DiffFiles | XV6/proc.c:906-985 | -1 when a file is missing; otherwise the differing lines are reported, and the result is 0 exactly when there are none |
| Diff.DiffOfSameFile | XV6/proc.c:906-985 | comparing a file with itself reports nothing |
| Barber.Shop.constructor | XV6/proc.c:1264-1357 | the shop starts with an empty queue and no admissions |
| Barber.Shop.BarberSleep | XV6/proc.c:1264-1289 | the barber leaves a finished shop and sleeps when the queue is empty, and otherwise goes on |
| Barber.Shop.BarberWakes | XV6/proc.c:1264-1289 | a woken barber is awake and leaves exactly when the shop is finished |
| Barber.Shop.SleepingBarber | XV6/proc.c:1292-1322 | the process to wake is known exactly when the barber sleeps |
| Barber.Shop.CustomerArrive | XV6/proc.c:1292-1322 | after 10 admissions nobody is admitted; otherwise the total grows, and the customer joins the tail unless all 5 seats are taken |
| Barber.Shop.TakeSeat | XV6/proc.c:1310-1312 | the pid joins the tail of the waiting queue, which keeps its ring invariant |
| Barber.Shop.CutHair | XV6/proc.c:1325-1357 | with customers waiting, the head of the queue is served and removed, in FIFO order |
| Barber.Shop.ServeHead | XV6/proc.c:1337-1339 | the customer taken is the first one waiting, and the rest keep their order |
| RwLock.NonZero | XV6/proc.c:1479-1500 | the pids of a window that are not 0, in order |
| RwLock.Lock.constructor | XV6/proc.c:1360-1380 | all counts 0, both rings empty and zero-filled |
| RwLock.Lock.WriterMustWait | XV6/proc.c:1382-1400 | a writer waits whenever a reader would, and also while readers are active or woken readers are pending |
| RwLock.Lock.WriterLock | XV6/proc.c:1382-1400 | a writer that must wait joins the tail of the writer ring; otherwise it becomes the active writer |
| RwLock.Lock.WriterWakes | XV6/proc.c:1382-1400 | a woken writer leaves the waiting count and becomes the active writer |
| RwLock.Lock.ReaderLock | XV6/proc.c:1402-1421 | a reader that must wait joins the tail of the reader ring; otherwise it becomes active |
| RwLock.Lock.ReaderWakes | XV6/proc.c:1402-1421 | a woken reader leaves the waiting count and becomes active |
| RwLock.Lock.WriterCriticalSection | XV6/proc.c:1510-1516 | the writer increments the shared counter |
| RwLock.Lock.ReaderRelease | XV6/proc.c:1445-1460 | the last active reader wakes the head writer if one waits |
| RwLock.Lock.WakeHeadWriter | XV6/proc.c:1466-1478 | the head of the writer ring is woken and removed |
| RwLock.Lock.WriterRelease | XV6/proc.c:1462-1508 | releasing wakes the head writer if any; otherwise the waiting readers in FIFO order |
| RwLock.Lock.WakeReaders | XV6/proc.c:1479-1500 | the nonzero pids of the reader window are woken in order, and the head moves past them |
| RwLock.NonZeroExtend | XV6/proc.c:1479-1500 | a window one longer adds its last pid when that pid is not 0 |
| RwLock.WokenReaderLeavesNegativeCount | XV6/proc.c:1402-1421 | a reader woken after the releaser zeroed the waiting count leaves it at -1 |
| RwPattern.BitLength | XV6/proc.c:1423-1436 | the number of binary digits: 0 for a non-positive pattern, at least 1 otherwise |
| RwPattern.ShiftOnce | XV6/proc.c:1428-1434 | halving once more shifts one more bit out |
| RwPattern.BitLengthOfShift | XV6/proc.c:1428-1434 | shifting out k bits leaves k fewer binary digits |
| RwPattern.BitLengthBelow | XV6/proc.c:1428-1434 | a pattern below 2^k has at most k binary digits |
| RwPattern.IntPatternBits | XV6/proc.c:1428-1434 | a C int pattern has at most 31 binary digits |
| RwPattern.Pow2Value31 | XV6/proc.c:1428-1434 | 2^31 is one past the largest C int |
| RwPattern.PatternSpellsDuties | XV6/proc.c:1518-1539 | a leading 1 followed by the duties spells the pattern in binary, and every duty is 0 or 1 |
| RwPattern.DutiesAreStoredBits | XV6/proc.c:1518-1539 | the duties are the stored bits below the top one, from the most significant down |
| RwPattern.StoredDutiesHaveRoles | XV6/proc.c:1518-1539 | every duty a positive pattern stores is 0 or 1, so it makes its process a reader or a writer |
| RwPattern.DutySequence.constructor | XV6/proc.c:1423-1436 | an empty duty sequence of the source's size |
| RwPattern.DutySequence.GetRwPattern | XV6/proc.c:1423-1436 | sequence[k] holds bit k of the pattern, the count is the bit length minus one, and later entries are kept |
| RwPattern.DutySequence.TakeDuty | XV6/proc.c:1518-1539 | a child takes the duty at index count-1 and the count drops by one; a count outside 1..100 is a read outside the sequence, reported as none |
| ReaderWriter.ProcessCount | XV6/reader_writer.c:14-20 | the number of halvings before the pattern reaches 0 or ±1: bit length minus one, and 0 for patterns -1 to 1 |
| ReaderWriter.ProcessCountMatchesDuties | XV6/reader_writer.c:14-20 | for a positive pattern this is the number of duties get_rw_pattern stores |
| ReaderWriter.NegativePatternForksWithoutDuties | XV6/reader_writer.c:14-22 | a pattern of -2 or less forks at least one child while get_rw_pattern leaves the count at -1 |
| Console.LineStart | XV6/console.c:305-312 | Ctrl-U stops between w and e |
| Console.LineStartAfterNewline | XV6/console.c:305-312 | Ctrl-U deletes no newline, and stops at w or just after a newline |
| Console.BackWhile | XV6/console.c:421-440 | moving back never passes e and, starting at or after w, never goes below w |
| Console.BackWhileStops | XV6/console.c:421-440 | the bytes moved over are all of the kind asked for, and the move stops at w or before a byte of the other kind |
| Console.WordStartAfterSpace | XV6/console.c:421-440 | Ctrl-A never moves forward or below w, and stops at w or just after a space |
| Console.SkipForward | XV6/console.c:403-418 | moving forward never goes back, and never passes the line end |
| Console.SkipForwardStops | XV6/console.c:403-418 | the bytes moved over are all of the kind asked for, and the move stops at the line end or before a byte of another kind |
| Console.NextWordWithinLine | XV6/console.c:403-418 | Ctrl-D never moves back or past the line end, and stops at the line end or on a byte that is not a space |
| Console.StrSplit | XV6/console.c:609-617 | dst becomes the buffer SplitInto specifies: src[start..end) at its front and a NUL after it |
| Console.Console.constructor | XV6/console.c:292-492 | the zero-initialised input buffer, histories and clipboard |
| Console.Console.ResetClipboard | XV6/console.c:646-651 | the flag and both positions become 0 and nothing else changes |
| Console.Console.KillLine | XV6/console.c:305-312 | e moves to LineStart: never below w, and not over a newline |
| Console.Console.EraseChar | XV6/console.c:313-319 | one byte back, unless e is at w |
| Console.Console.MoveLeft | XV6/console.c:377-389 | one byte back, unless e is at w |
| Console.Console.MoveRight | XV6/console.c:391-400 | one byte forward while before the line end and within 128 bytes of w |
| Console.Console.NextWord | XV6/console.c:403-418 | e moves to the start of the next word, within the line |
| Console.Console.WordStartKey | XV6/console.c:421-440 | e moves back to the start of the word, not below w |
| Console.Console.MoveBackWhile | XV6/console.c:428-439 | the scan leaves e where BackWhile stops: at w, or just after the first byte of the other kind |
| Console.Console.FindPrefixMatch | XV6/console.c:619-637 | the highest command-history row below size that starts with the typed prefix, or none |
| Console.Console.Complete | XV6/console.c:325-341 | with a match the line from w is overwritten by the command and e moves to its end; without one nothing changes |
| Console.Console.CopyCommand | XV6/console.c:335 | the command is copied from w on and the rest of the buffer is NUL padded, the bytes before w untouched |
| Console.Console.Copy | XV6/console.c:343-358 | the first Ctrl-C marks e as both ends of the selection; the second copies the selection, which is then always empty, resets the selection and makes the clipboard valid |
| Console.Console.Paste | XV6/console.c:360-375 | a valid clipboard's string is stored from e on, modulo 128, and e moves past it; otherwise nothing changes |
| Console.Console.PasteClipboard | XV6/console.c:369-371 | the clipboard's string is stored byte by byte from e on, modulo 128, and e moves past it |
| Console.Console.SaveLastInHistory | XV6/console.c:561-572 | the history becomes Recorded of the old one with the line just ended |
| Console.Console.SaveLastInCmdHistory | XV6/console.c:574-586 | the same for the command history, which a line starting with '!' leaves unchanged |
| Console.Console.FindNextSharp | XV6/console.c:751-756 | the scan returns NextSharp: the first '#' from k up to w, or w |
| Console.Console.RemoveBetweenSharps | XV6/console.c:744-771 | the output buffer becomes SharpsRemoved of its old contents: the kept bytes, with the last one overwritten by a NUL |
| Console.Console.CopyStripped | XV6/console.c:749-768 | the loop writes exactly the bytes Stripped keeps to the start of output, leaving the rest of output as it was |
| Console.Console.StripStep | XV6/console.c:750-767 | one pass moves i forward, to the closing '#' of a pair or by one, and keeps the prefix written so far plus the bytes still to keep equal to Stripped of the line |
| Console.Console.SharpStep | XV6/console.c:750-763 | at a '#', i moves to the next '#' of the line when there is one, clearing the first-sharp flag; otherwise by one, keeping the '#' only in the last position while the flag is set; the prefix plus the bytes still to keep stays Stripped of the line |
| Console.Console.TypeKey | XV6/console.c:443-479 | with room, the key is stored at e modulo 128, '\r' as '\n'; a newline, ^D or a full buffer commits the line by setting w to e |
| Console.Console.StoreKey | XV6/console.c:447-454 | the byte goes in at e modulo 128, e moves on, and w becomes e exactly on a newline, a ^D or a full buffer |
| Console.Console.EndLine | XV6/console.c:456-477 | a newline strips the '#' pairs of a '!' line into output, and records a non-empty line in the history and, unless it starts with '!', in the command history; other keys change none of these |
| Console.Console.HandleKey | XV6/console.c:297-479 | the edit each key performs: Ctrl-U to LineStart, Backspace/Delete and the left arrow one byte back unless at w, the right arrow one byte forward within the line, Ctrl-D to NextWordStart, Ctrl-A to WordStart, each leaving buf and w alone; Tab, Ctrl-C, Ctrl-V and an ordinary key as Complete, Copy, Paste and TypeKey state; r never moves, w never moves back, and a process listing is asked for exactly for Ctrl-P |
| Console.Console.LoopKey | XV6/console.c:297-479 | one turn of the key loop keeps the invariant, r, the monotone w and the empty clipboard, and flags Ctrl-P |
| Console.Console.ConsoleIntr | XV6/console.c:292-492 | keys are handled up to the first negative code; a listing is asked for exactly when Ctrl-P was among them; the clipboard is reset unless a copy is in progress |
| Console.Console.ConsoleRead | XV6/console.c:495-533 | the bytes copied are those ReadLoop specifies: from r on, up to n bytes, a newline included, a ^D not copied; -1 for a killed process; a request for more input otherwise |
| Console.Console.ReadBytes | XV6/console.c:503-527 | from any number of bytes still wanted, the loop over the input buffer returns exactly the bytes, the final read index and the stop reason ReadLoop specifies, changing nothing |
| Console.Console.ReadStep | XV6/console.c:512-526 | one pass at a non-empty buffer either ends the loop on a ^D or a newline with the whole read complete, or copies one byte and leaves the rest to ReadLoop of the next position |
| Console.Console.ResumeRead | XV6/console.c:503-532 | after waking, the loop goes on with the bytes still wanted, so a ^D found now is kept for the next read, and the count returned covers the bytes of the earlier passes too |
| Console.Console.Finish | XV6/console.c:504-532 | a non-negative count exactly when the loop copied to its end, -1 exactly for a killed process at the empty buffer, otherwise asleep |
| ConsoleLines.StrLenFrom | XV6/console.c:391-400 | strlen from position k: the bytes before the result are not NUL and a NUL follows |
| ConsoleLines.CStrOfTerminated | XV6/console.c:609-617 | a buffer holding s and then a terminator spells s up to its first NUL |
| ConsoleLines.CStrOfNulFree | XV6/console.c:609-617 | a NUL-free string is its own C string |
| ConsoleLines.SplitIntoHolds | XV6/console.c:609-617 | strSplit leaves the copied segment at the front of dst and a NUL after it |
| ConsoleLines.SplitEmptyRange | XV6/console.c:609-617 | an empty range leaves the empty string in dst |
| ConsoleLines.SplitIntoSegment | XV6/console.c:609-617 | copying from a buffer is copying its segment from the front |
| ConsoleLines.Recorded | XV6/console.c:561-572 | saving a line keeps the history well-formed |
| ConsoleLines.RecordLines | XV6/console.c:561-572 | saving several lines in turn keeps the history well-formed |
| ConsoleLines.RecordedStoresLine | XV6/console.c:561-572 | the line goes to the row the index pointed to, the index advances modulo 10, the size grows up to 10, and the other rows are kept |
| ConsoleLines.HistoryCounts | XV6/console.c:561-572 | from the empty ring, the size counts the saved lines up to 10 and the index is their number modulo 10 |
| ConsoleLines.HistoryKeepsLastTen | XV6/console.c:561-572 | from the empty ring, the history holds the last ten lines saved |
| ConsoleLines.OlderRowKept | XV6/console.c:561-572 | saving a line leaves the rows of the nine lines before it |
| ConsoleLines.ExtendsIsPrefix | XV6/console.c:619-637 | the match test holds exactly when the row's string starts with the prefix |
| ConsoleLines.LatestMatch | XV6/console.c:619-637 | a match found lies below the bound |
| ConsoleLines.LatestMatchIsLatest | XV6/console.c:619-637 | the match found starts with the prefix and no later row below the bound does; with none found, no row below the bound does |
| ConsoleLines.TypedPrefixIsSegment | XV6/console.c:619-637 | with fewer than 128 bytes typed, the prefix is what was typed, up to a NUL in it |
| ConsoleLines.Overwritten | XV6/console.c:325-341 | strncpy into the input buffer keeps its length |
| ConsoleLines.OverwrittenHolds | XV6/console.c:325-341 | strncpy keeps the bytes before w, puts the string at w when it fits, and pads with NULs after it |
| ConsoleLines.Pasted | XV6/console.c:360-375 | pasting keeps the buffer's 128 bytes |
| ConsoleLines.PastedHolds | XV6/console.c:360-375 | a string of at most 128 bytes is pasted whole, byte i at position e + i modulo 128 |
| ConsoleLines.NextSharp | XV6/console.c:751-756 | the first position from k on holding a '#', or w when there is none |
| ConsoleLines.Stripped | XV6/console.c:744-771 | remove_between_sharps keeps at most as many bytes as the line holds |
| ConsoleLines.NoSharpKeptWhole | XV6/console.c:744-771 | a line with no '#' is kept whole |
| ConsoleLines.LastByteKept | XV6/console.c:744-771 | when the line's last byte is not a '#' and no '#' lies just past the line, that byte is kept last |
| ConsoleLines.SharpsRemoved | XV6/console.c:744-771 | the output holds the kept bytes with the last one replaced by a NUL and the rest unchanged; with nothing kept the write to output[-1] is dropped and the buffer is unchanged |
| ConsoleLines.StaleSharpKeepsNothing | XV6/console.c:751-769 | a '#' left past a "!#" line makes the scan keep nothing |
| ConsoleLines.ReadLoop | XV6/console.c:503-532 | the read index moves between r and w, past the copied bytes and at most one ^D, and at most n bytes are copied |
| ConsoleLines.ReadLoopCopies | XV6/console.c:503-532 | the copied bytes are those from r on, modulo 128; none is ^D, and only the last can be a newline |
| ConsoleLines.ReadLoopStops | XV6/console.c:503-532 | a read that does not wait stops with n bytes, after a newline, or at a ^D, which it leaves unread when bytes were already copied |
| ConsoleStrings.StrChr | XV6/console.c:688-697 | the first index of c in the string, or none exactly when c does not occur; never the terminator |
| ConsoleStrings.CommonPrefix | XV6/console.c:699-705 | the two strings agree before the result and differ at it, unless one has ended |
| ConsoleStrings.StrCmp | XV6/console.c:699-705 | the difference of the unsigned bytes at the first position where the strings differ |
| ConsoleStrings.CommonPrefixAt | XV6/console.c:699-705 | the loop's stopping index is the common prefix length |
| ConsoleStrings.StrCmpZeroIffEqual | XV6/console.c:699-705 | strcmp gives 0 exactly for equal strings |
| ConsoleStrings.IsKeyword | XV6/console.c:735-742 | 1 exactly when the word is one of the seven keywords |
| ConsoleStrings.Tokenizer.constructor | XV6/console.c:707-731 | the static pointer starts out null |
| ConsoleStrings.Tokenizer.StrTok | XV6/console.c:707-731 | skips delimiters, returns the start of the next token, ends it with a NUL in its buffer and resumes after it; none when only delimiters remain, with the resume pointer and its buffer left as they were |
| ConsoleStrings.SkipDelimiters | XV6/console.c:707-731 | the skip stops at the end of the string or on a non-delimiter |
| ConsoleStrings.TokenEnd | XV6/console.c:707-731 | a token holds no delimiter and no NUL, and ends at a delimiter or the end of the string |
| ConsoleStrings.TokenStart | XV6/console.c:707-731 | a token starts on a byte that is neither NUL nor a delimiter |
| ConsoleStrings.TokenIsDelimiterFree | XV6/console.c:707-731 | a token is not empty and holds no delimiter, and every byte skipped before it is a delimiter |
| ConsoleStrings.SkippedAreDelimiters | XV6/console.c:707-731 | every byte skipped is a delimiter |
| ConsoleStrings.Shifted | XV6/console.c:119-121 | x / base: smaller than x for positive x, 0 exactly for x below base |
| ConsoleStrings.LowDigit | XV6/console.c:119-121 | a digit character of the base |
| ConsoleStrings.ShiftedRemainder | XV6/console.c:119-121 | x is base times x / base plus the value of its low digit character |
| ConsoleStrings.DigitString | XV6/console.c:119-121 | every number has at least one digit |
| ConsoleStrings.DigitIndexOfDigit | XV6/console.c:119-121 | each digit character stands for its index in the table |
| ConsoleStrings.DigitStringValue | XV6/console.c:119-121 | the printed digits, read back in the base, are the number |
| ConsoleStrings.DigitStringStep | XV6/console.c:119-121 | the digits of x are those of x / base followed by the digit of x modulo base |
| ConsoleStrings.DigitStringLength | XV6/console.c:119-121 | a number below base^k has at most k digits |
| ConsoleStrings.AtMostTenDigits | XV6/console.c:106-128 | a 32-bit unsigned value has at most ten digits in base 10 or 16, so the 16-byte buffer suffices |
| ConsoleStrings.PowerMonotone | XV6/console.c:106-128 | a larger base gives a larger power |
| ConsoleStrings.PrintInt | XV6/console.c:106-128 | printint emits a minus sign for a negative signed argument, then the digits of the magnitude |
| ConsoleStrings.ConvertDigits | XV6/console.c:119-121 | the do-while loop stores the digits least significant first and returns their count |
| ConsoleStrings.ConvertRemaining | XV6/console.c:119-121 | the while part of the loop appends the remaining digits, least significant first, up to the whole digit string |
| ConsoleStrings.ConversionStep | XV6/console.c:119-121 | the loop peels the digits off the end of the number's digit string |
| ConsoleStrings.BackwardsSpells | XV6/console.c:123-127 | the buffer read backwards is the sign then the digits |
| ConsoleStrings.PutBackwards | XV6/console.c:126-127 | the closing loop emits the first n bytes of the buffer in reverse |
| UserMgmt.SafeCopy | XV6/user_mgmt.c:39-46 | safestrcpy keeps a prefix of at most n - 1 characters, and the whole string when it fits |
| UserMgmt.NewUser | XV6/user_mgmt.c:39-46 | the new user is used, logged out, with an empty log and the password truncated to 15 characters |
| UserMgmt.LongPasswordNeverMatches | XV6/user_mgmt.c:39-72 | a user created with a password of 16 or more characters can never log in with it |
| UserMgmt.ShortPasswordMatches | XV6/user_mgmt.c:39-72 | a user with a shorter password logs in with exactly that password |
| UserMgmt.EmptyTableKeepsInvariant | XV6/user_mgmt.h:5-9 | the zero-initialised table meets the table invariant |
| UserMgmt.AddKeepsInvariant | XV6/user_mgmt.c:39-46 | adding a user with a fresh id keeps the ids distinct and the invariant |
| UserMgmt.LoginKeepsInvariant | XV6/user_mgmt.c:54-72 | logging in while nobody is logged in keeps the invariant |
| UserMgmt.LogoutKeepsInvariant | XV6/user_mgmt.c:79-87 | logging out keeps the invariant |
| UserMgmt.Logged | XV6/user_mgmt.c:94-105 | a call is appended while the log has room; a full log resets the count to 0 and records nothing; the count stays within 0 .. 64 |
| UserMgmt.LogKeepsInvariant | XV6/user_mgmt.c:94-105 | recording a call keeps the invariant |
| UserMgmt.UserTable.constructor | XV6/user_mgmt.h:5-9 | the empty table and a null current user |
| UserMgmt.UserTable.IsUserIdUnique | XV6/user_mgmt.c:135-142 | 1 exactly when no stored user has the id, else 0 |
| UserMgmt.UserTable.AddUser | XV6/user_mgmt.c:27-47 | -1 and nothing changed for a full table or a duplicate id; otherwise slot size holds the new user and the size grows by one |
| UserMgmt.UserTable.LoginUser | XV6/user_mgmt.c:50-73 | fails while the current user is logged in; otherwise succeeds exactly when a user matches id and password, and the first one becomes the current, logged-in user |
| UserMgmt.UserTable.FindLogin | XV6/user_mgmt.c:60-69 | the loop finds the first stored user whose id and password match, or reports that none does, changing nothing |
| UserMgmt.UserTable.LogoutUser | XV6/user_mgmt.c:76-89 | fails with no current user; otherwise logs it out and clears the current user |
| UserMgmt.UserTable.LogSyscall | XV6/user_mgmt.c:91-107 | while a user is logged in, its log becomes Logged of the old one; otherwise nothing changes |
| SetSleep.ConvertTimeToSecond | XV6/set_sleep_syscall.c:12-31 | the loops compute the days since 2000-01-01 times 86400 plus the hours, minutes and seconds, in a 32-bit int |
| SetSleep.EpochIsZero | XV6/set_sleep_syscall.c:16-29 | 2000-01-01 00:00:00 is second 0 |
| SetSleep.YearEndMeetsNextYear | XV6/set_sleep_syscall.c:16-28 | the second after 31 December 23:59:59 is 1 January 00:00:00 of the next year, so a year's months add up to its length |
| SetSleep.DaysBeforeDecember | XV6/set_sleep_syscall.c:14-27 | the month loop counts 334 days before December, 335 in a leap year |
| SetSleep.LeapStep | XV6/set_sleep_syscall.c:8-11 | the closed-form leap count grows by one exactly at a leap year |
| SetSleep.DaysBeforeYearClosedForm | XV6/set_sleep_syscall.c:16-22 | the year loop adds 365 days per year plus one per leap year |
| SetSleep.GregorianCycle | XV6/set_sleep_syscall.c:8-22 | 400 years hold 146097 days, and the leap-year rule repeats after them |
| BraceCheck.AcceptedPrefix | XV6/user_curly_brace_correction_check.c:9-21 | every prefix of an accepted string is accepted |
| BraceCheck.DepthStep | XV6/user_curly_brace_correction_check.c:9-21 | one more character changes the depth by +1 for '{', -1 for '}' and 0 otherwise |
| BraceCheck.AcceptedStep | XV6/user_curly_brace_correction_check.c:9-21 | one more character keeps a string accepted exactly when it is '{', or '}' with an open brace |
| BraceCheck.DepthFitsStack | XV6/user_curly_brace_correction_check.c:7-14 | without an overflow the nesting depth never exceeds the 100-entry stack |
| BraceCheck.IsValidSequence | XV6/user_curly_brace_correction_check.c:4-27 | 1 exactly for a string of braces that is balanced, else 0 |
| BraceCheck.NotAcceptedExtends | XV6/user_curly_brace_correction_check.c:16-19 | a rejected prefix rejects the whole string |
| BraceCheck.OtherCharacterRejected | XV6/user_curly_brace_correction_check.c:16-19 | any character other than a brace makes the string unbalanced |
| BraceCheck.UnmatchedCloseRejected | XV6/user_curly_brace_correction_check.c:16-19 | a '}' with no open brace makes the string unbalanced |
| BraceCheck.EmptyIsBalanced | XV6/user_curly_brace_correction_check.c:22-25 | the empty string is balanced |
| BraceCheck.NestedPairsBalanced | XV6/user_curly_brace_correction_check.c:4-27 | wrapping a balanced string in "{" and "}" keeps it balanced |
| BraceCheck.DepthConcat | XV6/user_curly_brace_correction_check.c:4-27 | the depth of a concatenation is the sum of the depths |
| BraceCheck.BalancedConcat | XV6/user_curly_brace_correction_check.c:4-27 | two balanced strings in a row are balanced |
| FindSum.Trailing | XV6/find_sum.c:19-30 | the digit run at the end of a string, not empty when the last character is a digit |
| FindSum.TrailingIsLongestDigitSuffix | XV6/find_sum.c:19-30 | the trailing run is a suffix of digits, and the character before it, if any, is not a digit |
| FindSum.SumOfRunsSplit | XV6/find_sum.c:19-30 | the sum is the completed runs plus the value of the trailing run |
| FindSum.TrailingDigit | XV6/find_sum.c:19-28 | a digit extends the trailing run and completes nothing |
| FindSum.TrailingOther | XV6/find_sum.c:19-28 | a non-digit ends the trailing run and adds its value to the completed runs |
| FindSum.FindSum | XV6/find_sum.c:6-43 | a usage error with fewer than two arguments; otherwise the 32-bit sum of the runs of every argument from index 1 and of the string read at argv[argc] |
| FindSum.AddRuns | XV6/find_sum.c:19-30 | the inner loop adds the values of the string's maximal digit runs |
| FindSum.NoDigitsAddNothing | XV6/find_sum.c:20-27 | a string without digits adds 0 |
| FindSum.DigitsAreOneRun | XV6/find_sum.c:29-30 | a string of digits is one run, counted although it reaches the end of the string |
| FindSum.TrailingOfDigits | XV6/find_sum.c:19-30 | a string of digits is its own trailing run |
| FindSum.TrailingAfterSeparator | XV6/find_sum.c:19-30 | after a non-digit, the trailing run is that of what follows it |
| FindSum.SeparatorSplitsRuns | XV6/find_sum.c:19-30 | a non-digit splits the sum into the sums of the two sides |
| FindSum.SumOfRunsOtherEnd | XV6/find_sum.c:19-30 | a final non-digit adds nothing |
| FindSum.SumOfRunsDigitEnd | XV6/find_sum.c:19-30 | a final digit run adds its value to the sum of what precedes it |
| FindSum.SeparatorOtherEnd | XV6/find_sum.c:19-30 | dropping a final non-digit changes neither sum |
| FindSum.SeparatorDigitEnd | XV6/find_sum.c:19-30 | a final digit run after a separator lies wholly after it |
| MakeUser.IsValidNumber | XV6/make_user.c:7-14 | 1 exactly when every character is a decimal digit, so also for the empty string; 0 at the first non-digit |
| MakeUser.CheckArguments | XV6/make_user.c:17-29 | a usage error unless there are exactly two arguments, an invalid-id error unless the first is all digits, and otherwise make_user with the parsed id |
| MakeUser.DecimalNonNegative | XV6/make_user.c:7-14 | a string of digits denotes a non-negative number |
| MakeUser.ValidIdIsNonNegative | XV6/make_user.c:17-29 | an id that fits a C int is read as itself |
| MakeUser.CheckAdmitsZeroAndNegativeIds | XV6/make_user.c:17-29 | the empty id passes and gives 0, and an id past the largest C int passes and wraps to a negative number |

## Left out

- Locks, interrupt masking and concurrency: every operation is one sequential state change. Where a process would block (sleep, the barber, the rw lock, consoleread), the method returns that outcome, and a separate method models what happens on waking (for consoleread, Console.Console.ResumeRead).
- Context switching, CPU identity and the current process: the current process is a parameter. swtch, sched and the page-table switches are not part of this model.
- Memory and file collaborators: kalloc, copyuvm and the inode reads of diff. Their failures are boolean parameters, and diff's files are byte sequences, with a missing file as None.
- Device output: cprintf, consputc, the colour routines, print_colored_keywords, procdump, print_process_info and the history display. Only the strings printint would print are modelled.
- strtok's NUL writes into the coloured line belong to print_colored_keywords, which is not part of this model; strtok itself is.
- get_user_logs: it only prints a user's log.
- The busy-wait of the set_sleep system call, sys_sleep and the simulated haircut loop are not part of this model. They poll the timer or burn time, and change no state.
- The drivers sched_tests.c, sleeping_barber.c, customer.c, logout.c, diff.c and logs.c are not part of this model. The user programs' printing and exec calls are not part of it either.
- safestrcpy, strncmp, strlen and strncpy: these follow their standard C definitions.
- atoi: ParsedId reads the digits into a 32-bit int; ulib is not part of this model.
- Console.Console.ConsoleIntr: the new console state is stated key by key, by HandleKey's contract; the contract of the whole loop keeps only the invariant, r, the monotone w, the Ctrl-P flag and the clipboard reset, and does not state the state after the keys as a fold of HandleKey's effect.
- ChangeProcessQueue: the source prints through the pointer get_proc_by_pid returned before testing it for null. That read only feeds cprintf, so the model applies the null test directly.
- Memory outside a buffer: bytes read past the end of the console's buffers are NUL, and bytes written past the end (output[-1], or strncpy from w ≥ 128) are dropped. The kernel would touch neighbouring memory instead.
- History rows are stored as sequence values. The uninitialised temp buffer of find_prefix_match is taken as zero-filled.
- The console indices r, w and e are unbounded naturals: the 32-bit wrap-around of these uints after 2^32 keys is not modelled.
- The `c == C('D')` test in the default branch of consoleintr can never hold there, because Ctrl-D is handled by its own case. The model does not carry that dead test separately.
- Proc.ProcTable.Yield: the drift is stated only for a caller that was not already RUNNABLE. A RUNNABLE caller is counted twice, and the contract says nothing about that case.
- Proc.ProcTable.Exit: the drift is stated only for a caller that is not SLEEPING. A sleeping caller can be woken, and so counted, by exit's own wakeups, and then becomes a ZOMBIE without being uncounted.
- Proc.ProcTable.SelectMultilevelFeedback: requires the counters to agree with the table; the round-robin scan of the source never ends when its counter is positive and no level-1 slot is RUNNABLE.
- ProcNumeric.NextPalindrome: requires num to be at most 2147447412, the largest palindrome in a C int. Past it the source's loop relies on signed overflow to come round.
- BraceCheck.IsValidSequence: requires that the scan never pushes a 101st '{'. The source then writes past its stack array.
- SetSleep.ConvertTimeToSecond: requires a month of at most 13, so that the month loop stays inside the 13-entry month table.
- SetSleep.ConvertTimeToSecond: the year is the unbounded natural in RtcDate. The source copies the unsigned year into an int, which would turn negative above INT_MAX; the years a CMOS clock reports are far below that.
- RwPattern.DutySequence.TakeDuty: for a count outside 1..100, the source reads memory outside the sequence (index -2 after a pattern of -2 or less, see ReaderWriter.NegativePatternForksWithoutDuties). The model reports that read as None and does not say what value is found there, nor what role the child then takes.
- Proc.ProcTable.Exit: init exiting is reported as a panic with nothing changed; the halt of the kernel that follows is not modelled.
