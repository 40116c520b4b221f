/** The process table of XV6/proc.c and the scheduler bookkeeping done on it: slot
    allocation, fork's classification, exit and wait, kill, yield, the state change of
    sleep, wakeup1, the EDF and MLFQ selectors, one dispatch step of the scheduler, aging,
    admission to the real-time class, reclassification between the two MLFQ levels and
    the snapshot used by the process listing.

    Locks, context switches and the hardware are not modelled: every operation is one
    atomic step on the table, the current process is a slot index given by the caller and
    the tick counter is a parameter. The counter is unsigned while the fields that record
    it are C ints, so every recorded tick count is ToInt32(ticks), the value the int
    field receives, and FCFS starts its minimum from that value too. */
module Proc {
  import opened CLang

  datatype ProcState = Unused | Embryo | Sleeping | Runnable | Running | Zombie

  /** The scheduling classes, in the order of enum class_and_level. */
  datatype SchedClass = WithoutPriority | Edf | MlfqLevel1 | MlfqLevel2

  /** The integer the source stores for a class and compares with change_process_queue's argument. */
  function ClassCode(c: SchedClass): int {
    match c
    case WithoutPriority => 0
    case Edf => 1
    case MlfqLevel1 => 2
    case MlfqLevel2 => 3
  }

  /** A wait channel: the address of a slot (sleep(curproc)), no address (chan 0) or any other key. */
  datatype Chan = NoChan | SlotChan(slot: nat) | KeyChan(key: int)

  function ChanOf(slot: Option<nat>): Chan {
    if slot.None? then NoChan else SlotChan(slot.value)
  }

  /** One slot of ptable.proc; parent is a slot index, None for the null pointer. */
  datatype Proc = Proc(
    state: ProcState,
    cal: SchedClass,
    pid: int,
    parent: Option<nat>,
    chan: Chan,
    killed: bool,
    name: CString,
    waitingTime: int,
    deadline: int,
    enteringTime: int,
    arrivalTime: int,
    continuousTime: int)

  /** A slot of the zero-initialised static table. */
  const FreshSlot := Proc(Unused, WithoutPriority, 0, None, NoChan, false, "", 0, 0, 0, 0, 0)

  /** entering_time_to_the_fcfs_queue when the slot is not eligible for FCFS. */
  const NoEntry := -1
  /** waiting_time at which aging promotes a level-2 process. */
  const AgingThreshold := 800
  /** Length of the name copies kept in a snapshot (safestrcpy into char[16]). */
  const NameCopyLen := 15

  // ---------------------------------------------------------------------------
  // Counting RUNNABLE slots per class
  // ---------------------------------------------------------------------------

  function Ind(p: Proc, c: SchedClass): nat {
    if p.state == Runnable && p.cal == c then 1 else 0
  }

  /** The number of RUNNABLE slots of class c. */
  function RunnableOf(s: seq<Proc>, c: SchedClass): nat {
    if |s| == 0 then 0 else RunnableOf(s[..|s| - 1], c) + Ind(s[|s| - 1], c)
  }

  /** Replacing one slot changes each count by that slot's contribution only. */
  lemma {:induction false} RunnableOfUpdate(s: seq<Proc>, i: nat, v: Proc, c: SchedClass)
    requires i < |s|
    ensures RunnableOf(s[i := v], c) == RunnableOf(s, c) - Ind(s[i], c) + Ind(v, c)
  {
    var n := |s|;
    if i == n - 1 {
      assert s[i := v][..n - 1] == s[..n - 1];
    } else {
      assert s[i := v][..n - 1] == s[..n - 1][i := v];
      RunnableOfUpdate(s[..n - 1], i, v, c);
    }
  }

  lemma RunnableOfUpdateAll(s: seq<Proc>, i: nat, v: Proc)
    requires i < |s|
    ensures forall c :: RunnableOf(s[i := v], c) == RunnableOf(s, c) - Ind(s[i], c) + Ind(v, c)
  {
    forall c ensures RunnableOf(s[i := v], c) == RunnableOf(s, c) - Ind(s[i], c) + Ind(v, c) {
      RunnableOfUpdate(s, i, v, c);
    }
  }

  /** A zero count has no witness slot. */
  lemma {:induction false} RunnableOfZero(s: seq<Proc>, c: SchedClass)
    requires RunnableOf(s, c) == 0
    ensures forall i :: 0 <= i < |s| ==> !(s[i].state == Runnable && s[i].cal == c)
  {
    if |s| > 0 {
      RunnableOfZero(s[..|s| - 1], c);
      assert forall i :: 0 <= i < |s| - 1 ==> s[i] == s[..|s| - 1][i];
    }
  }

  /** A positive count has a witness slot. */
  lemma {:induction false} RunnableOfWitness(s: seq<Proc>, c: SchedClass)
    requires RunnableOf(s, c) > 0
    ensures exists i :: 0 <= i < |s| && s[i].state == Runnable && s[i].cal == c
  {
    var n := |s|;
    if Ind(s[n - 1], c) == 0 {
      RunnableOfWitness(s[..n - 1], c);
      var i :| 0 <= i < n - 1 && s[..n - 1][i].state == Runnable && s[..n - 1][i].cal == c;
      assert s[i] == s[..n - 1][i];
    }
  }

  // ---------------------------------------------------------------------------
  // Slot transitions
  // ---------------------------------------------------------------------------

  predicate SleepsOn(p: Proc, ch: Chan) {
    p.state == Sleeping && p.chan == ch
  }

  /** wakeup1 on one slot: a sleeper on ch becomes RUNNABLE; a level-2 one re-enters FCFS now. */
  function WakeSlot(p: Proc, ch: Chan, ticks: nat): Proc {
    if !SleepsOn(p, ch) then p
    else if p.cal == MlfqLevel2 then p.(state := Runnable, enteringTime := ToInt32(ticks), waitingTime := 0)
    else p.(state := Runnable)
  }

  function WakeTable(s: seq<Proc>, ch: Chan, ticks: nat): (r: seq<Proc>)
    ensures |r| == |s| && forall k :: 0 <= k < |s| ==> r[k] == WakeSlot(s[k], ch, ticks)
  {
    seq(|s|, k requires 0 <= k < |s| => WakeSlot(s[k], ch, ticks))
  }

  /** wakeup1 changes only the slots sleeping on ch: each becomes RUNNABLE in its class, and
      a level-2 one also gets entering time ticks and waiting time 0. */
  lemma WakeTableWakesSleepers(s: seq<Proc>, ch: Chan, ticks: nat)
    ensures forall k :: 0 <= k < |s| && !SleepsOn(s[k], ch) ==> WakeTable(s, ch, ticks)[k] == s[k]
    ensures forall k :: 0 <= k < |s| && SleepsOn(s[k], ch) && s[k].cal != MlfqLevel2 ==>
      WakeTable(s, ch, ticks)[k] == s[k].(state := Runnable)
    ensures forall k :: 0 <= k < |s| && SleepsOn(s[k], ch) && s[k].cal == MlfqLevel2 ==>
      WakeTable(s, ch, ticks)[k] == s[k].(state := Runnable, enteringTime := ToInt32(ticks), waitingTime := 0)
  {
  }

  function SleepSlot(p: Proc, ch: Chan): Proc {
    p.(chan := ch, state := Sleeping)
  }

  function YieldSlot(p: Proc): Proc {
    if p.cal == MlfqLevel2 then p.(state := Runnable, waitingTime := 0) else p.(state := Runnable)
  }

  function KillSlot(p: Proc): Proc {
    if p.state == Sleeping then p.(killed := true, state := Runnable) else p.(killed := true)
  }

  /** What allocproc writes into a free slot before the kernel stack is allocated. */
  function Allocated(p: Proc, pid: int, ticks: nat): Proc {
    p.(state := Embryo, pid := pid, waitingTime := 0, arrivalTime := ToInt32(ticks), continuousTime := 0)
  }

  /** The slot of a successfully forked child. */
  function Forked(p: Proc, pid: int, parent: nat, name: CString, high: bool, ticks: nat): Proc {
    Adopted(Allocated(p, pid, ticks), parent, name, high, ticks)
  }

  /** fork's work on the allocated slot: parent, name, RUNNABLE, and level 1 (high) or level 2. */
  function Adopted(p: Proc, parent: nat, name: CString, high: bool, ticks: nat): Proc {
    var q := p.(parent := Some(parent), name := name, state := Runnable);
    if high then q.(cal := MlfqLevel1, arrivalTime := ToInt32(ticks))
    else q.(cal := MlfqLevel2, enteringTime := ToInt32(ticks), arrivalTime := ToInt32(ticks))
  }

  /** What wait leaves in a reaped slot. */
  function Reap(p: Proc): Proc {
    p.(pid := 0, parent := None, name := "", killed := false, state := Unused)
  }

  /** aging_mechanism on one slot. */
  function AgeSlot(p: Proc, ticks: nat): Proc {
    if p.state == Runnable && p.cal == MlfqLevel2 then
      if p.waitingTime + 1 == AgingThreshold then
        p.(cal := MlfqLevel1, waitingTime := 0, arrivalTime := ToInt32(ticks))
      else p.(waitingTime := p.waitingTime + 1)
    else p
  }

  function AgeTable(s: seq<Proc>, ticks: nat): (r: seq<Proc>)
    ensures |r| == |s| && forall k :: 0 <= k < |s| ==> r[k] == AgeSlot(s[k], ticks)
  {
    seq(|s|, k requires 0 <= k < |s| => AgeSlot(s[k], ticks))
  }

  /** Aging touches only RUNNABLE level-2 slots, and one below the threshold only waits one
      tick longer. */
  lemma AgeTableAges(s: seq<Proc>, ticks: nat)
    ensures forall k :: 0 <= k < |s| && !(s[k].state == Runnable && s[k].cal == MlfqLevel2) ==>
      AgeTable(s, ticks)[k] == s[k]
    ensures forall k ::
      (0 <= k < |s| && s[k].state == Runnable && s[k].cal == MlfqLevel2 && s[k].waitingTime + 1 != AgingThreshold) ==>
      AgeTable(s, ticks)[k] == s[k].(waitingTime := s[k].waitingTime + 1)
  {
  }

  /** Aging moves exactly the promoted slots from level 2 to level 1 and leaves EDF alone. */
  lemma {:induction false} AgingMovesBetweenLevels(s: seq<Proc>, ticks: nat)
    ensures RunnableOf(AgeTable(s, ticks), MlfqLevel1) + RunnableOf(AgeTable(s, ticks), MlfqLevel2)
         == RunnableOf(s, MlfqLevel1) + RunnableOf(s, MlfqLevel2)
    ensures RunnableOf(AgeTable(s, ticks), Edf) == RunnableOf(s, Edf)
    ensures RunnableOf(AgeTable(s, ticks), MlfqLevel2) <= RunnableOf(s, MlfqLevel2)
  {
    if |s| > 0 {
      var n := |s|;
      assert AgeTable(s, ticks)[..n - 1] == AgeTable(s[..n - 1], ticks);
      AgingMovesBetweenLevels(s[..n - 1], ticks);
    }
  }

  /** A process whose waiting time reaches the threshold ends the pass in level 1 with waiting time 0. */
  lemma AgingPromotesAtThreshold(p: Proc, ticks: nat)
    requires p.state == Runnable && p.cal == MlfqLevel2 && p.waitingTime == AgingThreshold - 1
    ensures AgeSlot(p, ticks).cal == MlfqLevel1 && AgeSlot(p, ticks).waitingTime == 0
    ensures AgeSlot(p, ticks).state == Runnable && AgeSlot(p, ticks).arrivalTime == ToInt32(ticks)
  {
  }

  /** create_realtime_process on the caller's slot. */
  function RealtimeSlot(p: Proc, decidedDeadline: int, ticks: nat): Proc {
    p.(deadline := ToInt32(ToInt32(ticks) + decidedDeadline), arrivalTime := ToInt32(ticks), cal := Edf)
  }

  /** change_process_queue's update of its target. */
  function RequeuedSlot(p: Proc, c: SchedClass, ticks: nat): Proc {
    var q := p.(cal := c, arrivalTime := ToInt32(ticks), waitingTime := 0);
    if c == MlfqLevel2 then q.(enteringTime := ToInt32(ticks)) else q
  }

  /** The class change_process_queue's integer argument names, if it names one of the two MLFQ levels. */
  function QueueOfCode(code: int): (r: Option<SchedClass>)
    ensures r.Some? <==> code == ClassCode(MlfqLevel1) || code == ClassCode(MlfqLevel2)
    ensures r.Some? ==> ClassCode(r.value) == code
  {
    if code == 2 then Some(MlfqLevel1) else if code == 3 then Some(MlfqLevel2) else None
  }

  // ---------------------------------------------------------------------------
  // Exit's table transformation
  // ---------------------------------------------------------------------------

  /** wakeup1 on ch around which slot j's waiting time is saved and restored. */
  function WakeKeepingWait(s: seq<Proc>, ch: Chan, ticks: nat, j: nat): (r: seq<Proc>)
    requires j < |s|
    ensures |r| == |s|
  {
    var w := WakeTable(s, ch, ticks);
    w[j := w[j].(waitingTime := s[j].waitingTime)]
  }

  /** Exit's treatment of slot j: a child of cur is handed to init, and init is woken
      when the child is a ZOMBIE (the child's waiting time survives that wakeup). */
  function ReparentStep(t: seq<Proc>, cur: nat, init: Option<nat>, ticks: nat, j: nat): (r: seq<Proc>)
    requires j < |t|
    ensures |r| == |t|
  {
    if t[j].parent != Some(cur) then t
    else
      var t1 := t[j := t[j].(parent := init)];
      if t1[j].state != Zombie then t1 else WakeKeepingWait(t1, ChanOf(init), ticks, j)
  }

  /** The table after exit's reparenting scan has visited slots 0..i-1. */
  function ReparentScan(s: seq<Proc>, cur: nat, init: Option<nat>, ticks: nat, i: nat): (r: seq<Proc>)
    requires i <= |s|
    ensures |r| == |s|
  {
    if i == 0 then s else ReparentStep(ReparentScan(s, cur, init, ticks, i - 1), cur, init, ticks, i - 1)
  }

  /** Exit's first step: a RUNNABLE level-2 caller leaves the FCFS order. */
  function ExitUncounted(s: seq<Proc>, cur: nat): (r: seq<Proc>)
    requires cur < |s|
    ensures |r| == |s|
  {
    if s[cur].state == Runnable && s[cur].cal == MlfqLevel2 then s[cur := s[cur].(enteringTime := NoEntry)] else s
  }

  /** The whole of exit's bookkeeping on the table. */
  function ExitTable(s: seq<Proc>, cur: nat, init: Option<nat>, ticks: nat): (r: seq<Proc>)
    requires cur < |s|
    ensures |r| == |s|
  {
    var s1 := ExitUncounted(s, cur);
    var s2 := WakeKeepingWait(s1, ChanOf(s1[cur].parent), ticks, cur);
    var s3 := ReparentScan(s2, cur, init, ticks, |s2|);
    s3[cur := s3[cur].(state := Zombie)]
  }

  /** The reparenting scan points every child of cur at init and changes no other parent. */
  lemma {:induction false} ReparentScanParents(s: seq<Proc>, cur: nat, init: Option<nat>, ticks: nat, i: nat)
    requires i <= |s|
    ensures forall k :: 0 <= k < |s| ==>
      ReparentScan(s, cur, init, ticks, i)[k].parent
        == (if k < i && s[k].parent == Some(cur) then init else s[k].parent)
  {
    if i > 0 {
      ReparentScanParents(s, cur, init, ticks, i - 1);
    }
  }

  /** After exit the exiting slot is a ZOMBIE and no slot names it as parent any more. */
  lemma ExitLeavesNoChildren(s: seq<Proc>, cur: nat, init: Option<nat>, ticks: nat)
    requires cur < |s| && init != Some(cur)
    ensures ExitTable(s, cur, init, ticks)[cur].state == Zombie
    ensures forall k :: 0 <= k < |s| && k != cur ==>
      ExitTable(s, cur, init, ticks)[k].parent == (if s[k].parent == Some(cur) then init else s[k].parent)
    ensures forall k :: 0 <= k < |s| ==> ExitTable(s, cur, init, ticks)[k].parent != Some(cur)
  {
    var s1 := ExitUncounted(s, cur);
    var s2 := WakeKeepingWait(s1, ChanOf(s1[cur].parent), ticks, cur);
    assert forall k :: 0 <= k < |s| ==> s2[k].parent == s[k].parent;
    ReparentScanParents(s2, cur, init, ticks, |s2|);
  }

  // ---------------------------------------------------------------------------
  // What the selectors choose
  // ---------------------------------------------------------------------------

  predicate EdfCandidate(p: Proc) {
    p.cal == Edf && p.state == Runnable
  }

  /** p->deadline - ticks, computed in 32-bit arithmetic as the source does. */
  function Remaining(p: Proc, ticks: nat): int {
    ToInt32(p.deadline - ticks)
  }

  /** r is what earliest_deadline_first_scheduler returns: a RUNNABLE EDF slot of least
      remaining time, the last such slot in table order, or None when there is none. */
  ghost predicate IsEdfChoice(s: seq<Proc>, ticks: nat, r: Option<nat>) {
    match r
    case None => forall i :: 0 <= i < |s| ==> !EdfCandidate(s[i])
    case Some(k) =>
      && k < |s| && EdfCandidate(s[k])
      && (forall i :: 0 <= i < |s| && EdfCandidate(s[i]) ==> Remaining(s[k], ticks) <= Remaining(s[i], ticks))
      && (forall i :: k < i < |s| && EdfCandidate(s[i]) ==> Remaining(s[k], ticks) < Remaining(s[i], ticks))
  }

  lemma EdfChoiceUnique(s: seq<Proc>, ticks: nat, r1: Option<nat>, r2: Option<nat>)
    requires IsEdfChoice(s, ticks, r1) && IsEdfChoice(s, ticks, r2)
    ensures r1 == r2
  {
  }

  predicate RoundRobinCandidate(p: Proc) {
    p.state == Runnable && p.cal == MlfqLevel1
  }

  /** The step at which the circular scan that starts after slot last reaches slot j:
      1 for the next slot, n for last itself. */
  function ScanDistance(last: nat, j: nat, n: nat): int {
    if j > last then j - last else j + n - last
  }

  /** k is the first RUNNABLE level-1 slot of the circular scan that starts after last. */
  ghost predicate IsRoundRobinChoice(s: seq<Proc>, last: nat, k: nat) {
    && last < |s| && k < |s| && RoundRobinCandidate(s[k])
    && forall j :: 0 <= j < |s| && ScanDistance(last, j, |s|) < ScanDistance(last, k, |s|) ==> !RoundRobinCandidate(s[j])
  }

  predicate FcfsEligible(p: Proc, ticks: nat) {
    p.state == Runnable && p.cal == MlfqLevel2 && p.enteringTime != NoEntry && p.enteringTime <= ToInt32(ticks)
  }

  /** r is what the FCFS half of multilevel_feedback_queue_scheduler returns: an eligible
      level-2 slot of least entering time, the last such in table order, or None. */
  ghost predicate IsFcfsChoice(s: seq<Proc>, ticks: nat, r: Option<nat>) {
    match r
    case None => forall i :: 0 <= i < |s| ==> !FcfsEligible(s[i], ticks)
    case Some(k) =>
      && k < |s| && FcfsEligible(s[k], ticks)
      && (forall i :: 0 <= i < |s| && FcfsEligible(s[i], ticks) ==> s[k].enteringTime <= s[i].enteringTime)
      && (forall i :: k < i < |s| && FcfsEligible(s[i], ticks) ==> s[k].enteringTime < s[i].enteringTime)
  }

  /** Once ticks reaches 2^31 its int value is negative, so a level-2 slot that entered the
      queue just before is no longer eligible and FCFS chooses nothing. */
  lemma FcfsSkipsEntryBeforeWrap(p: Proc)
    requires p.state == Runnable && p.cal == MlfqLevel2 && p.enteringTime == INT_MAX
    ensures FcfsEligible(p, INT_MAX)
    ensures IsFcfsChoice([p], INT_MAX + 1, None)
  {
    assert ToInt32(INT_MAX + 1) == -0x8000_0000;
  }

  lemma RoundRobinChoiceUnique(s: seq<Proc>, last: nat, k1: nat, k2: nat)
    requires IsRoundRobinChoice(s, last, k1) && IsRoundRobinChoice(s, last, k2)
    ensures k1 == k2
  {
  }

  // ---------------------------------------------------------------------------
  // Snapshots
  // ---------------------------------------------------------------------------

  datatype Snapshot = Snapshot(
    name: string, pid: int, state: ProcState, cal: SchedClass, waitingTime: int,
    deadline: int, continuousTime: int, enteringTime: int, arrivalTime: int)

  function Prefix(s: string, n: nat): (r: string)
    ensures |r| <= n && |r| <= |s| && r == s[..|r|]
  {
    if |s| <= n then s else s[..n]
  }

  function SnapshotOf(p: Proc): Snapshot {
    Snapshot(Prefix(p.name, NameCopyLen), p.pid, p.state, p.cal, p.waitingTime,
             p.deadline, p.continuousTime, p.enteringTime, p.arrivalTime)
  }

  /** The snapshots of all used slots, in table order. */
  function Snapshots(s: seq<Proc>): seq<Snapshot> {
    if |s| == 0 then []
    else Snapshots(s[..|s| - 1]) + (if s[|s| - 1].state != Unused then [SnapshotOf(s[|s| - 1])] else [])
  }

  function LiveCount(s: seq<Proc>): nat {
    if |s| == 0 then 0 else LiveCount(s[..|s| - 1]) + (if s[|s| - 1].state != Unused then 1 else 0)
  }

  /** There is one snapshot per used slot and none of an unused one. */
  lemma {:induction false} SnapshotsOfUsedSlots(s: seq<Proc>)
    ensures |Snapshots(s)| == LiveCount(s)
    ensures forall k :: 0 <= k < |Snapshots(s)| ==> Snapshots(s)[k].state != Unused
    ensures forall k :: 0 <= k < |Snapshots(s)| ==> exists j :: 0 <= j < |s| && Snapshots(s)[k] == SnapshotOf(s[j])
  {
    if |s| > 0 {
      var n := |s|;
      SnapshotsOfUsedSlots(s[..n - 1]);
      forall k | 0 <= k < |Snapshots(s)|
        ensures exists j :: 0 <= j < |s| && Snapshots(s)[k] == SnapshotOf(s[j])
      {
        if k < |Snapshots(s[..n - 1])| {
          var j :| 0 <= j < n - 1 && Snapshots(s[..n - 1])[k] == SnapshotOf(s[..n - 1][j]);
          assert s[..n - 1][j] == s[j];
        } else {
          assert Snapshots(s)[k] == SnapshotOf(s[n - 1]);
        }
      }
    }
  }

  function Take<T>(xs: seq<T>, m: int): (r: seq<T>)
    ensures |r| == if m <= 0 then 0 else if |xs| <= m then |xs| else m
    ensures r == xs[..|r|]
  {
    if m <= 0 then [] else if |xs| <= m then xs else xs[..m]
  }

  datatype WaitOutcome = Reaped(pid: int) | NoChildren | Blocked

  /** The slot tests the table scans use. */
  datatype SlotTest = IsUnused | HasPid(pid: int) | IsLive(pid: int) | IsChildOf(parent: nat) | IsZombieChildOf(zombieParent: nat)

  predicate Matches(p: Proc, t: SlotTest) {
    match t
    case IsUnused => p.state == Unused
    case HasPid(pid) => p.pid == pid
    case IsLive(pid) => p.pid == pid && p.state != Unused
    case IsChildOf(cur) => p.parent == Some(cur)
    case IsZombieChildOf(cur) => p.parent == Some(cur) && p.state == Zombie
  }

  /** The first slot at or after i that passes t. */
  function FirstFrom(s: seq<Proc>, t: SlotTest, i: nat): (r: Option<nat>)
    decreases |s| - i
    ensures r.None? <==> forall k :: i <= k < |s| ==> !Matches(s[k], t)
    ensures r.Some? ==> i <= r.value < |s| && Matches(s[r.value], t)
    ensures r.Some? ==> forall k :: i <= k < r.value ==> !Matches(s[k], t)
  {
    if i >= |s| then None else if Matches(s[i], t) then Some(i) else FirstFrom(s, t, i + 1)
  }

  /** The first slot of the table that passes t. */
  function First(s: seq<Proc>, t: SlotTest): Option<nat> {
    FirstFrom(s, t, 0)
  }

  /** A scan that stops at slot i, having rejected every slot before it, found First. */
  lemma FirstIs(s: seq<Proc>, t: SlotTest, i: nat)
    requires i < |s| && Matches(s[i], t)
    requires forall k :: 0 <= k < i ==> !Matches(s[k], t)
    ensures First(s, t) == Some(i)
  {
  }

  /** The slot allocproc leaves when the kernel stack cannot be allocated. */
  function AllocFailed(p: Proc, pid: int, ticks: nat): Proc {
    Allocated(p, pid, ticks).(state := Unused)
  }

  /** What the scheduler writes into the slot it dispatches; restart says the last dispatch
      was of another process (or there was none), which restarts the continuous time. */
  function DispatchedSlot(p: Proc, restart: bool): Proc {
    RunningSlot(p).(continuousTime := if restart then 0 else p.continuousTime)
  }

  function RunningSlot(p: Proc): Proc {
    p.(state := Running, waitingTime := if p.cal == MlfqLevel2 then 0 else p.waitingTime)
  }

  // ---------------------------------------------------------------------------
  // The table
  // ---------------------------------------------------------------------------

  class ProcTable {
    /** ptable.proc; its length is NPROC. */
    const procs: array<Proc>
    /** number_of_runnable_processes_in_edf_queue */
    var edfCount: int
    /** number_of_runnable_multilevel_feedback_queue[0] (round robin) */
    var rrCount: int
    /** number_of_runnable_multilevel_feedback_queue[1] (FCFS) */
    var fcfsCount: int
    var nextPid: int
    var initProc: Option<nat>
    /** The scheduler's locals: the last slot dispatched from level 1, the last slot
        dispatched at all, and the CPU fields time_for_roundrobin and proc. */
    var lastRoundRobin: nat
    var lastDispatched: Option<nat>
    var timeForRoundRobin: int
    var cpuProc: Option<nat>

    ghost predicate Valid()
      reads this
    {
      && procs.Length > 0
      && lastRoundRobin < procs.Length
      && (lastDispatched.Some? ==> lastDispatched.value < procs.Length)
      && (initProc.Some? ==> initProc.value < procs.Length)
      && (cpuProc.Some? ==> cpuProc.value < procs.Length)
    }

    function Counter(c: SchedClass): int
      reads this
    {
      match c
      case WithoutPriority => 0
      case Edf => edfCount
      case MlfqLevel1 => rrCount
      case MlfqLevel2 => fcfsCount
    }

    /** How far a counter is from the true number of RUNNABLE slots of its class. */
    ghost function Drift(c: SchedClass): int
      reads this, procs
    {
      Counter(c) - RunnableOf(procs[..], c)
    }

    /** Each class counter equals the number of RUNNABLE slots of that class. */
    ghost predicate CountersAgree()
      reads this, procs
    {
      Drift(Edf) == 0 && Drift(MlfqLevel1) == 0 && Drift(MlfqLevel2) == 0
    }

    /** No counter moved away from (or toward) the table. */
    twostate predicate DriftKept()
      reads this, procs
    {
      && Drift(Edf) == old(Drift(Edf))
      && Drift(MlfqLevel1) == old(Drift(MlfqLevel1))
      && Drift(MlfqLevel2) == old(Drift(MlfqLevel2))
    }

    /** pinit's state with an NPROC of n: all slots unused, all counters 0, nextpid 1. */
    constructor (n: nat)
      requires n > 0
      ensures Valid() && CountersAgree()
      ensures procs.Length == n && forall k :: 0 <= k < n ==> procs[k] == FreshSlot
      ensures edfCount == 0 && rrCount == 0 && fcfsCount == 0 && nextPid == 1 && initProc == None
    {
      procs := new Proc[n](_ => FreshSlot);
      edfCount, rrCount, fcfsCount := 0, 0, 0;
      nextPid := 1;
      initProc := None;
      lastRoundRobin := 0;
      lastDispatched := None;
      timeForRoundRobin := 0;
      cpuProc := None;
      new;
      NoneRunnable(procs[..]);
    }

    static lemma {:induction false} NoneRunnable(s: seq<Proc>)
      requires forall k :: 0 <= k < |s| ==> s[k].state != Runnable
      ensures forall c :: RunnableOf(s, c) == 0
    {
      if |s| > 0 {
        NoneRunnable(s[..|s| - 1]);
      }
    }

    /** allocproc: claim the first UNUSED slot as EMBRYO with a fresh pid; if the kernel
        stack cannot be allocated the slot goes back to UNUSED (its pid is spent). */
    method AllocProc(ticks: nat, kstackOk: bool) returns (slot: Option<nat>)
      modifies procs, this`nextPid
      ensures var f := First(old(procs[..]), IsUnused);
        && (f.None? ==> slot == None && procs[..] == old(procs[..]) && nextPid == old(nextPid))
        && (f.Some? ==> nextPid == old(nextPid) + 1 && slot == (if kstackOk then f else None))
        && (f.Some? && kstackOk ==> procs[..] == old(procs[..])[f.value := Allocated(old(procs[f.value]), old(nextPid), ticks)])
        && (f.Some? && !kstackOk ==> procs[..] == old(procs[..])[f.value := AllocFailed(old(procs[f.value]), old(nextPid), ticks)])
      ensures DriftKept()
    {
      var i := 0;
      while i < procs.Length && procs[i].state != Unused
        invariant 0 <= i <= procs.Length
        invariant forall j :: 0 <= j < i ==> procs[j].state != Unused
      {
        i := i + 1;
      }
      if i == procs.Length {
        return None;
      }
      FirstIs(procs[..], IsUnused, i);
      ghost var before := procs[..];
      var q := Allocated(procs[i], nextPid, ticks);
      nextPid := nextPid + 1;
      if !kstackOk {
        q := q.(state := Unused);
        slot := None;
      } else {
        slot := Some(i);
      }
      RunnableOfUpdateAll(before, i, q);
      procs[i] := q;
      assert procs[..] == before[i := q];
    }

    /** userinit's bookkeeping: the first process becomes RUNNABLE in level 1 and is init. */
    method UserInit(ticks: nat)
      requires Valid()
      requires First(procs[..], IsUnused).Some?
      modifies procs, this`nextPid, this`initProc, this`rrCount
      ensures Valid() && DriftKept()
      ensures var k := First(old(procs[..]), IsUnused).value;
        && initProc == Some(k) && nextPid == old(nextPid) + 1
        && procs[..] == old(procs[..])[k := Allocated(old(procs[k]), old(nextPid), ticks).(
             name := "initcode", state := Runnable, cal := MlfqLevel1)]
    {
      var p := AllocProc(ticks, true);
      initProc := p;
      var k := p.value;
      ghost var before := procs[..];
      var q := procs[k].(name := "initcode", state := Runnable, cal := MlfqLevel1, arrivalTime := ToInt32(ticks));
      rrCount := rrCount + 1;
      RunnableOfUpdateAll(before, k, q);
      procs[k] := q;
      assert procs[..] == before[k := q];
    }

    /** fork's table work: allocate a slot, link it to its parent and classify it, level 1
        for a child of init or of a process named "sh", level 2 otherwise. Failing
        allocations of the kernel stack or of the address space give -1. */
    method Fork(cur: nat, ticks: nat, kstackOk: bool, copyOk: bool) returns (pid: int)
      requires cur < procs.Length
      modifies procs, this`nextPid, this`rrCount, this`fcfsCount
      ensures var f := First(old(procs[..]), IsUnused);
        && (f.None? ==> pid == -1 && procs[..] == old(procs[..]) && nextPid == old(nextPid))
        && (f.Some? ==> nextPid == old(nextPid) + 1)
        && (f.Some? && !(kstackOk && copyOk) ==>
              pid == -1 && procs[..] == old(procs[..])[f.value := AllocFailed(old(procs[f.value]), old(nextPid), ticks)])
        && (f.Some? && kstackOk && copyOk ==>
              && pid == old(nextPid)
              && procs[..] == old(procs[..])[f.value := Forked(old(procs[f.value]), old(nextPid), cur, old(procs[cur].name),
                                                               initProc == Some(cur) || old(procs[cur].name) == "sh", ticks)])
      ensures DriftKept()
    {
      var np := AllocProc(ticks, kstackOk);
      if np == None {
        return -1;
      }
      var k := np.value;
      if !copyOk {
        ghost var before := procs[..];
        var q := procs[k].(state := Unused);
        RunnableOfUpdateAll(before, k, q);
        procs[k] := q;
        assert procs[..] == before[k := q];
        return -1;
      }
      pid := procs[k].pid;
      StartChild(k, cur, ticks);
    }

    /** fork from the copy of the parent's name on: the child becomes RUNNABLE in level 1
        if its parent is init or is named "sh", in level 2 otherwise. */
    method StartChild(k: nat, cur: nat, ticks: nat)
      requires k < procs.Length && cur < procs.Length && procs[k].state != Runnable
      modifies procs, this`rrCount, this`fcfsCount
      ensures procs[..] == old(procs[..])[k := Adopted(old(procs[k]), cur, old(procs[cur].name),
                                                       initProc == Some(cur) || old(procs[cur].name) == "sh", ticks)]
      ensures DriftKept()
    {
      ghost var before := procs[..];
      var q := procs[k].(parent := Some(cur));
      q := q.(name := procs[cur].name);
      q := q.(state := Runnable);
      if initProc == Some(cur) || q.name == "sh" {
        q := q.(cal := MlfqLevel1);
        rrCount := rrCount + 1;
        q := q.(arrivalTime := ToInt32(ticks));
      } else {
        q := q.(cal := MlfqLevel2);
        fcfsCount := fcfsCount + 1;
        q := q.(enteringTime := ToInt32(ticks));
        q := q.(arrivalTime := ToInt32(ticks));
      }
      RunnableOfUpdateAll(before, k, q);
      procs[k] := q;
      assert procs[..] == before[k := q];
    }

    /** One turn of wakeup1's loop. */
    method WakeIfSleeping(i: nat, chan: Chan, ticks: nat)
      requires i < procs.Length
      modifies procs, this`edfCount, this`rrCount, this`fcfsCount
      ensures procs[..] == old(procs[..])[i := WakeSlot(old(procs[i]), chan, ticks)]
      ensures DriftKept()
      ensures !SleepsOn(old(procs[i]), chan) ==>
        edfCount == old(edfCount) && rrCount == old(rrCount) && fcfsCount == old(fcfsCount)
    {
      ghost var before := procs[..];
      var p := procs[i];
      if p.state == Sleeping && p.chan == chan {
        var q := p.(state := Runnable);
        if p.cal == Edf {
          edfCount := edfCount + 1;
        } else if p.cal == MlfqLevel1 {
          rrCount := rrCount + 1;
        } else if p.cal == MlfqLevel2 {
          fcfsCount := fcfsCount + 1;
          q := q.(enteringTime := ToInt32(ticks), waitingTime := 0);
        }
        RunnableOfUpdateAll(before, i, q);
        procs[i] := q;
        assert procs[..] == before[i := q];
      } else {
        assert before == before[i := WakeSlot(before[i], chan, ticks)];
      }
    }

    /** wakeup1: every slot sleeping on chan becomes RUNNABLE and is counted again. */
    method Wakeup1(chan: Chan, ticks: nat)
      modifies procs, this`edfCount, this`rrCount, this`fcfsCount
      ensures procs[..] == WakeTable(old(procs[..]), chan, ticks)
      ensures DriftKept()
      ensures (forall k :: 0 <= k < procs.Length ==> !SleepsOn(old(procs[k]), chan)) ==>
        procs[..] == old(procs[..]) && edfCount == old(edfCount) && rrCount == old(rrCount) && fcfsCount == old(fcfsCount)
    {
      var i := 0;
      while i < procs.Length
        invariant 0 <= i <= procs.Length
        invariant forall k :: 0 <= k < i ==> procs[k] == WakeSlot(old(procs[k]), chan, ticks)
        invariant forall k :: i <= k < procs.Length ==> procs[k] == old(procs[k])
        invariant DriftKept()
        invariant (forall k :: 0 <= k < procs.Length ==> !SleepsOn(old(procs[k]), chan)) ==>
          edfCount == old(edfCount) && rrCount == old(rrCount) && fcfsCount == old(fcfsCount)
      {
        WakeIfSleeping(i, chan, ticks);
        i := i + 1;
      }
      assert procs[..] == WakeTable(old(procs[..]), chan, ticks);
    }

    /** The state change inside sleep: the caller is taken out of its counter if RUNNABLE
        and becomes SLEEPING on chan. */
    method Sleep(cur: nat, chan: Chan)
      requires cur < procs.Length
      modifies procs, this`edfCount, this`rrCount, this`fcfsCount
      ensures procs[..] == old(procs[..])[cur := SleepSlot(old(procs[cur]), chan)]
      ensures DriftKept()
    {
      ghost var before := procs[..];
      var q := procs[cur].(chan := chan);
      if q.state == Runnable {
        if q.cal == Edf {
          edfCount := edfCount - 1;
        } else if q.cal == MlfqLevel1 {
          rrCount := rrCount - 1;
        } else if q.cal == MlfqLevel2 {
          fcfsCount := fcfsCount - 1;
        }
      }
      q := q.(state := Sleeping);
      RunnableOfUpdateAll(before, cur, q);
      procs[cur] := q;
      assert procs[..] == before[cur := q];
    }

    /** yield: the caller becomes RUNNABLE and is counted in its class; level 2 restarts
        its waiting time. The counters stay right only if the caller was not already RUNNABLE. */
    method Yield(cur: nat)
      requires cur < procs.Length
      modifies procs, this`edfCount, this`rrCount, this`fcfsCount
      ensures procs[..] == old(procs[..])[cur := YieldSlot(old(procs[cur]))]
      ensures old(procs[cur].state) != Runnable ==> DriftKept()
    {
      ghost var before := procs[..];
      var q := procs[cur].(state := Runnable);
      if q.cal == Edf {
        edfCount := edfCount + 1;
      } else if q.cal == MlfqLevel1 {
        rrCount := rrCount + 1;
      } else if q.cal == MlfqLevel2 {
        fcfsCount := fcfsCount + 1;
        q := q.(waitingTime := 0);
      }
      RunnableOfUpdateAll(before, cur, q);
      procs[cur] := q;
      assert procs[..] == before[cur := q];
    }

    /** kill: mark the first slot carrying pid as killed and force it RUNNABLE if it sleeps.
        The source does not count the woken slot, so its class counter falls one short. */
    method Kill(pid: int) returns (r: int)
      modifies procs
      ensures var f := First(old(procs[..]), HasPid(pid));
        && (f.None? ==> r == -1 && procs[..] == old(procs[..]))
        && (f.Some? ==> r == 0 && procs[..] == old(procs[..])[f.value := KillSlot(old(procs[f.value]))])
        && (f.Some? && old(procs[f.value].state) == Sleeping && old(procs[f.value].cal) != WithoutPriority ==>
              Drift(old(procs[f.value].cal)) == old(Drift(procs[f.value].cal)) - 1)
    {
      var i := 0;
      while i < procs.Length
        invariant 0 <= i <= procs.Length
        invariant forall j :: 0 <= j < i ==> procs[j].pid != pid
      {
        if procs[i].pid == pid {
          FirstIs(procs[..], HasPid(pid), i);
          ghost var before := procs[..];
          var q := procs[i].(killed := true);
          if q.state == Sleeping {
            q := q.(state := Runnable);
          }
          RunnableOfUpdateAll(before, i, q);
          procs[i] := q;
          assert procs[..] == before[i := q];
          return 0;
        }
        i := i + 1;
      }
      return -1;
    }

    /** wait, one pass: reap the first ZOMBIE child; with no child at all, or when the
        caller is killed, fail; otherwise the caller sleeps on its own slot. */
    method Wait(cur: nat) returns (outcome: WaitOutcome)
      requires cur < procs.Length
      modifies procs, this`edfCount, this`rrCount, this`fcfsCount
      ensures DriftKept()
      ensures var z := First(old(procs[..]), IsZombieChildOf(cur));
        && (z.Some? ==>
              outcome == Reaped(old(procs[z.value].pid)) && procs[..] == old(procs[..])[z.value := Reap(old(procs[z.value]))])
        && (z.None? && (First(old(procs[..]), IsChildOf(cur)).None? || old(procs[cur].killed)) ==>
              outcome == NoChildren && procs[..] == old(procs[..]))
        && (z.None? && First(old(procs[..]), IsChildOf(cur)).Some? && !old(procs[cur].killed) ==>
              outcome == Blocked && procs[..] == old(procs[..])[cur := SleepSlot(old(procs[cur]), SlotChan(cur))])
    {
      var haveKids := false;
      var i := 0;
      while i < procs.Length
        invariant 0 <= i <= procs.Length
        invariant haveKids <==> exists j :: 0 <= j < i && procs[j].parent == Some(cur)
        invariant forall j :: 0 <= j < i ==> !Matches(procs[j], IsZombieChildOf(cur))
      {
        if procs[i].parent == Some(cur) {
          haveKids := true;
          if procs[i].state == Zombie {
            FirstIs(procs[..], IsZombieChildOf(cur), i);
            var pid := procs[i].pid;
            ghost var before := procs[..];
            var q := procs[i].(pid := 0, parent := None, name := "", killed := false, state := Unused);
            RunnableOfUpdateAll(before, i, q);
            procs[i] := q;
            assert procs[..] == before[i := q];
            return Reaped(pid);
          }
        }
        i := i + 1;
      }
      assert First(procs[..], IsZombieChildOf(cur)).None?;
      if haveKids {
        var j :| 0 <= j < procs.Length && procs[j].parent == Some(cur);
        assert Matches(procs[..][j], IsChildOf(cur));
      }
      if !haveKids || procs[cur].killed {
        return NoChildren;
      }
      Sleep(cur, SlotChan(cur));
      return Blocked;
    }

    /** wakeup1 on chan with slot j's waiting time saved before and restored after. */
    method WakeupKeepingWait(chan: Chan, ticks: nat, j: nat)
      requires j < procs.Length
      modifies procs, this`edfCount, this`rrCount, this`fcfsCount
      ensures procs[..] == WakeKeepingWait(old(procs[..]), chan, ticks, j)
      ensures DriftKept()
      ensures forall k :: 0 <= k < procs.Length && old(procs[k].state) != Sleeping ==>
        procs[k].state == old(procs[k].state) && procs[k].cal == old(procs[k].cal)
    {
      var previousWaitingTime := procs[j].waitingTime;
      Wakeup1(chan, ticks);
      ghost var w := procs[..];
      var q := procs[j].(waitingTime := previousWaitingTime);
      RunnableOfUpdateAll(w, j, q);
      procs[j] := q;
      assert procs[..] == w[j := q];
    }

    /** One turn of exit's reparenting loop. */
    method HandOverToInit(j: nat, cur: nat, ticks: nat)
      requires j < procs.Length && cur < procs.Length
      modifies procs, this`edfCount, this`rrCount, this`fcfsCount
      ensures procs[..] == ReparentStep(old(procs[..]), cur, initProc, ticks, j)
      ensures DriftKept()
      ensures old(procs[cur].state) != Sleeping ==>
        procs[cur].state == old(procs[cur].state) && procs[cur].cal == old(procs[cur].cal)
    {
      if procs[j].parent == Some(cur) {
        ghost var t := procs[..];
        var q := procs[j].(parent := initProc);
        RunnableOfUpdateAll(t, j, q);
        procs[j] := q;
        assert procs[..] == t[j := q];
        if procs[j].state == Zombie {
          WakeupKeepingWait(ChanOf(initProc), ticks, j);
        }
      }
    }

    /** exit's reparenting loop over the whole table. */
    method ReparentChildren(cur: nat, ticks: nat)
      requires cur < procs.Length
      modifies procs, this`edfCount, this`rrCount, this`fcfsCount
      ensures procs[..] == ReparentScan(old(procs[..]), cur, initProc, ticks, procs.Length)
      ensures DriftKept()
      ensures old(procs[cur].state) != Sleeping ==>
        procs[cur].state == old(procs[cur].state) && procs[cur].cal == old(procs[cur].cal)
    {
      var i := 0;
      while i < procs.Length
        invariant 0 <= i <= procs.Length
        invariant procs[..] == ReparentScan(old(procs[..]), cur, initProc, ticks, i)
        invariant DriftKept()
        invariant old(procs[cur].state) != Sleeping ==>
          procs[cur].state == old(procs[cur].state) && procs[cur].cal == old(procs[cur].cal)
      {
        HandOverToInit(i, cur, ticks);
        i := i + 1;
      }
    }

    /** exit's bookkeeping on the table: uncount the caller if RUNNABLE, wake its parent,
        hand its children to init (waking init for each ZOMBIE child) and become a ZOMBIE.
        init itself exiting is the kernel's panic, reported as such with nothing changed. */
    method Exit(cur: nat, ticks: nat) returns (panics: bool)
      requires cur < procs.Length
      modifies procs, this`edfCount, this`rrCount, this`fcfsCount
      ensures panics <==> initProc == Some(cur)
      ensures panics ==> unchanged(this, procs)
      ensures !panics ==> procs[..] == ExitTable(old(procs[..]), cur, initProc, ticks)
      ensures !panics && old(procs[cur].state) != Sleeping ==> DriftKept()
    {
      if initProc == Some(cur) {
        return true;
      }
      panics := false;
      UncountExiting(cur);
      WakeupKeepingWait(ChanOf(procs[cur].parent), ticks, cur);
      ReparentChildren(cur, ticks);
      ghost var s3 := procs[..];
      var q := procs[cur].(state := Zombie);
      RunnableOfUpdateAll(s3, cur, q);
      procs[cur] := q;
      assert procs[..] == s3[cur := q];
    }

    /** exit's first step: a RUNNABLE caller leaves its counter. */
    method UncountExiting(cur: nat)
      requires cur < procs.Length
      modifies procs, this`edfCount, this`rrCount, this`fcfsCount
      ensures procs[..] == ExitUncounted(old(procs[..]), cur)
      ensures procs[cur].state == old(procs[cur].state) && procs[cur].cal == old(procs[cur].cal)
      ensures Drift(Edf) == old(Drift(Edf)) - Ind(old(procs[cur]), Edf)
      ensures Drift(MlfqLevel1) == old(Drift(MlfqLevel1)) - Ind(old(procs[cur]), MlfqLevel1)
      ensures Drift(MlfqLevel2) == old(Drift(MlfqLevel2)) - Ind(old(procs[cur]), MlfqLevel2)
    {
      ghost var s0 := procs[..];
      var q := procs[cur];
      if q.state == Runnable {
        if q.cal == Edf {
          edfCount := edfCount - 1;
        } else if q.cal == MlfqLevel1 {
          rrCount := rrCount - 1;
        } else if q.cal == MlfqLevel2 {
          fcfsCount := fcfsCount - 1;
          q := q.(enteringTime := NoEntry);
        }
      }
      RunnableOfUpdateAll(s0, cur, q);
      procs[cur] := q;
      assert procs[..] == s0[cur := q];
    }

    /** earliest_deadline_first_scheduler. */
    method SelectEarliestDeadline(ticks: nat) returns (r: Option<nat>)
      ensures IsEdfChoice(procs[..], ticks, r)
    {
      r := None;
      var lowest := INT_MAX;
      var i := 0;
      while i < procs.Length
        invariant 0 <= i <= procs.Length
        invariant r.None? ==> lowest == INT_MAX && forall j :: 0 <= j < i ==> !EdfCandidate(procs[j])
        invariant r.Some? ==> r.value < i && EdfCandidate(procs[r.value]) && lowest == Remaining(procs[r.value], ticks)
        invariant forall j :: 0 <= j < i && EdfCandidate(procs[j]) ==> lowest <= Remaining(procs[j], ticks)
        invariant r.Some? ==> forall j :: r.value < j < i && EdfCandidate(procs[j]) ==> lowest < Remaining(procs[j], ticks)
      {
        var p := procs[i];
        if p.cal == Edf && p.state == Runnable {
          var remaining := Remaining(p, ticks);
          if remaining <= lowest {
            lowest := remaining;
            r := Some(i);
          }
        }
        i := i + 1;
      }
    }

    /** multilevel_feedback_queue_scheduler: round robin over level 1 while its counter is
        nonzero, else FCFS over level 2. The round-robin scan only terminates because the
        counter agrees with the table. */
    method SelectMultilevelFeedback(last: nat, ticks: nat) returns (r: Option<nat>)
      requires last < procs.Length
      requires CountersAgree()
      ensures rrCount != 0 ==> r.Some? && IsRoundRobinChoice(procs[..], last, r.value)
      ensures rrCount == 0 && fcfsCount != 0 ==> IsFcfsChoice(procs[..], ticks, r)
      ensures rrCount == 0 && fcfsCount == 0 ==> r == None
    {
      if rrCount != 0 {
        var k := SelectRoundRobin(last);
        r := Some(k);
      } else if fcfsCount != 0 {
        r := SelectFirstComeFirstServed(ticks);
      } else {
        r := None;
      }
    }

    /** The round-robin half: the circular scan from the slot after last. */
    method SelectRoundRobin(last: nat) returns (k: nat)
      requires last < procs.Length
      requires RunnableOf(procs[..], MlfqLevel1) > 0
      ensures IsRoundRobinChoice(procs[..], last, k)
    {
      var n := procs.Length;
      RunnableOfWitness(procs[..], MlfqLevel1);
      ghost var w :| 0 <= w < n && procs[..][w].state == Runnable && procs[..][w].cal == MlfqLevel1;
      var idx := last;
      ghost var d := 0;
      while true
        invariant 0 <= d < ScanDistance(last, w, n)
        invariant idx == if last + d < n then last + d else last + d - n
        invariant forall j :: 0 <= j < n && ScanDistance(last, j, n) <= d ==> !RoundRobinCandidate(procs[j])
        decreases ScanDistance(last, w, n) - d
      {
        idx := idx + 1;
        if idx >= n {
          idx := 0;
        }
        d := d + 1;
        assert ScanDistance(last, idx, n) == d;
        if procs[idx].state == Runnable && procs[idx].cal == MlfqLevel1 {
          return idx;
        }
        assert forall j :: 0 <= j < n && ScanDistance(last, j, n) == d ==> j == idx;
      }
    }

    /** The FCFS half: the eligible level-2 slot of least entering time, the later on ties. */
    method SelectFirstComeFirstServed(ticks: nat) returns (r: Option<nat>)
      ensures IsFcfsChoice(procs[..], ticks, r)
    {
      var minArrival := ToInt32(ticks);
      r := None;
      var i := 0;
      while i < procs.Length
        invariant 0 <= i <= procs.Length
        invariant r.None? ==> minArrival == ToInt32(ticks) && forall j :: 0 <= j < i ==> !FcfsEligible(procs[j], ticks)
        invariant r.Some? ==> r.value < i && FcfsEligible(procs[r.value], ticks) && minArrival == procs[r.value].enteringTime
        invariant forall j :: 0 <= j < i && FcfsEligible(procs[j], ticks) ==> minArrival <= procs[j].enteringTime
        invariant r.Some? ==> forall j :: r.value < j < i && FcfsEligible(procs[j], ticks) ==> minArrival < procs[j].enteringTime
      {
        var p := procs[i];
        if p.state == Runnable && p.cal == MlfqLevel2 {
          if p.enteringTime <= minArrival && p.enteringTime != NoEntry {
            minArrival := p.enteringTime;
            r := Some(i);
          }
        }
        i := i + 1;
      }
    }

    /** The choice made at the top of scheduler's loop: EDF while its counter is nonzero,
        else MLFQ while either of its counters is nonzero, else nothing. */
    method ChooseNext(ticks: nat) returns (p: Option<nat>)
      requires Valid() && CountersAgree()
      ensures edfCount != 0 ==> p.Some? && IsEdfChoice(procs[..], ticks, p)
      ensures edfCount == 0 && rrCount != 0 ==> p.Some? && IsRoundRobinChoice(procs[..], lastRoundRobin, p.value)
      ensures edfCount == 0 && rrCount == 0 ==> IsFcfsChoice(procs[..], ticks, p)
      ensures p.Some? ==> p.value < procs.Length && procs[p.value].state == Runnable
    {
      p := None;
      if edfCount != 0 {
        p := SelectEarliestDeadline(ticks);
        RunnableOfWitness(procs[..], Edf);
      } else if rrCount != 0 || fcfsCount != 0 {
        p := SelectMultilevelFeedback(lastRoundRobin, ticks);
      } else {
        RunnableOfZero(procs[..], MlfqLevel2);
      }
    }

    /** What scheduler does to the slot it dispatches: RUNNING, out of its counter, the
        round-robin cursor and the round-robin and continuous times updated. */
    method Dispatch(k: nat)
      requires Valid() && k < procs.Length && procs[k].state == Runnable
      modifies procs, this`edfCount, this`rrCount, this`fcfsCount, this`lastRoundRobin,
               this`lastDispatched, this`timeForRoundRobin, this`cpuProc
      ensures Valid() && DriftKept() && cpuProc == Some(k)
      ensures var restart := old(lastDispatched) == None || old(procs[k].pid) != old(procs[lastDispatched.value].pid);
        && procs[..] == old(procs[..])[k := DispatchedSlot(old(procs[k]), restart)]
        && timeForRoundRobin == (if restart then 0 else old(timeForRoundRobin))
      ensures lastRoundRobin == if old(procs[k].cal) == MlfqLevel1 then k else old(lastRoundRobin)
      ensures lastDispatched == if old(lastDispatched) == None then Some(k) else old(lastDispatched)
    {
      cpuProc := Some(k);
      MarkRunning(k);
      RestartTimes(k);
    }

    /** The dispatched slot becomes RUNNING and leaves its counter; level 1 moves the
        round-robin cursor to it and level 2 restarts its waiting time. */
    method MarkRunning(k: nat)
      requires k < procs.Length && procs[k].state == Runnable
      modifies procs, this`edfCount, this`rrCount, this`fcfsCount, this`lastRoundRobin
      ensures procs[..] == old(procs[..])[k := RunningSlot(old(procs[k]))]
      ensures DriftKept()
      ensures lastRoundRobin == if old(procs[k].cal) == MlfqLevel1 then k else old(lastRoundRobin)
    {
      ghost var before := procs[..];
      var q := procs[k].(state := Running);
      if q.cal == Edf {
        edfCount := edfCount - 1;
      } else if q.cal == MlfqLevel1 {
        lastRoundRobin := k;
        rrCount := rrCount - 1;
      } else if q.cal == MlfqLevel2 {
        q := q.(waitingTime := 0);
        fcfsCount := fcfsCount - 1;
      }
      RunnableOfUpdateAll(before, k, q);
      procs[k] := q;
      assert procs[..] == before[k := q];
    }

    /** A dispatch that follows none, or follows another pid, restarts the round-robin
        time and the slot's continuous time; the first dispatch is remembered. */
    method RestartTimes(k: nat)
      requires Valid() && k < procs.Length
      modifies procs, this`lastDispatched, this`timeForRoundRobin
      ensures Valid() && DriftKept()
      ensures var restart := old(lastDispatched) == None || old(procs[k].pid) != old(procs[lastDispatched.value].pid);
        && procs[..] == old(procs[..])[k := old(procs[k]).(continuousTime := if restart then 0 else old(procs[k].continuousTime))]
        && timeForRoundRobin == (if restart then 0 else old(timeForRoundRobin))
      ensures lastDispatched == if old(lastDispatched) == None then Some(k) else old(lastDispatched)
    {
      ghost var before := procs[..];
      var q := procs[k];
      if lastDispatched == None {
        timeForRoundRobin := 0;
        lastDispatched := Some(k);
        q := q.(continuousTime := 0);
      } else if q.pid != procs[lastDispatched.value].pid {
        timeForRoundRobin := 0;
        q := q.(continuousTime := 0);
      }
      RunnableOfUpdateAll(before, k, q);
      procs[k] := q;
      assert procs[..] == before[k := q];
    }

    /** One pass of scheduler's loop up to the context switch. */
    method SchedulerStep(ticks: nat) returns (dispatched: Option<nat>)
      requires Valid() && CountersAgree()
      modifies procs, this`edfCount, this`rrCount, this`fcfsCount, this`lastRoundRobin,
               this`lastDispatched, this`timeForRoundRobin, this`cpuProc
      ensures Valid() && CountersAgree()
      ensures cpuProc == dispatched
      ensures old(edfCount) != 0 ==> dispatched.Some? && IsEdfChoice(old(procs[..]), ticks, dispatched)
      ensures old(edfCount) == 0 && old(rrCount) != 0 ==>
        dispatched.Some? && IsRoundRobinChoice(old(procs[..]), old(lastRoundRobin), dispatched.value)
      ensures old(edfCount) == 0 && old(rrCount) == 0 ==> IsFcfsChoice(old(procs[..]), ticks, dispatched)
      ensures dispatched == None ==> procs[..] == old(procs[..])
      ensures dispatched.Some? ==>
        var k := dispatched.value;
        var restart := old(lastDispatched) == None || old(procs[k].pid) != old(procs[lastDispatched.value].pid);
        && old(procs[k].state) == Runnable
        && procs[..] == old(procs[..])[k := DispatchedSlot(old(procs[k]), restart)]
    {
      var p := ChooseNext(ticks);
      if p == None || procs[p.value].state != Runnable {
        cpuProc := None;
        return None;
      }
      Dispatch(p.value);
      dispatched := p;
    }

    /** What scheduler does when the dispatched process switches back to it. */
    method SchedulerReturn(p: nat)
      requires Valid() && p < procs.Length
      modifies this`lastDispatched, this`cpuProc, this`timeForRoundRobin
      ensures Valid()
      ensures lastDispatched == Some(p) && cpuProc == None
      ensures timeForRoundRobin == if procs[p].cal == MlfqLevel1 then 0 else old(timeForRoundRobin)
    {
      lastDispatched := Some(p);
      cpuProc := None;
      if procs[p].cal == MlfqLevel1 {
        timeForRoundRobin := 0;
      }
    }

    /** One turn of aging_mechanism's loop. */
    method AgeOne(i: nat, ticks: nat)
      requires i < procs.Length
      modifies procs, this`rrCount, this`fcfsCount
      ensures procs[..] == old(procs[..])[i := AgeSlot(old(procs[i]), ticks)]
      ensures DriftKept()
      ensures rrCount + fcfsCount == old(rrCount + fcfsCount) && fcfsCount <= old(fcfsCount)
    {
      ghost var before := procs[..];
      var p := procs[i];
      if p.state == Runnable && p.cal == MlfqLevel2 {
        var q := p.(waitingTime := p.waitingTime + 1);
        if q.waitingTime == AgingThreshold {
          q := q.(cal := MlfqLevel1);
          fcfsCount := fcfsCount - 1;
          rrCount := rrCount + 1;
          q := q.(waitingTime := 0, arrivalTime := ToInt32(ticks));
        }
        RunnableOfUpdateAll(before, i, q);
        procs[i] := q;
        assert procs[..] == before[i := q];
      } else {
        assert before == before[i := AgeSlot(before[i], ticks)];
      }
    }

    /** aging_mechanism: every RUNNABLE level-2 slot waits one more tick; at the threshold it
        moves to level 1, and one unit moves between the two counters. */
    method AgingMechanism(ticks: nat)
      modifies procs, this`rrCount, this`fcfsCount
      ensures procs[..] == AgeTable(old(procs[..]), ticks)
      ensures DriftKept()
      ensures rrCount + fcfsCount == old(rrCount + fcfsCount)
      ensures fcfsCount <= old(fcfsCount)
    {
      var i := 0;
      while i < procs.Length
        invariant 0 <= i <= procs.Length
        invariant forall k :: 0 <= k < i ==> procs[k] == AgeSlot(old(procs[k]), ticks)
        invariant forall k :: i <= k < procs.Length ==> procs[k] == old(procs[k])
        invariant DriftKept()
        invariant rrCount + fcfsCount == old(rrCount + fcfsCount)
        invariant fcfsCount <= old(fcfsCount)
      {
        AgeOne(i, ticks);
        i := i + 1;
      }
      assert procs[..] == AgeTable(old(procs[..]), ticks);
    }

    /** create_realtime_process: the caller joins the EDF class with deadline ticks +
        decidedDeadline. Counters stay right unless the caller was a RUNNABLE EDF process. */
    method CreateRealtimeProcess(cur: nat, decidedDeadline: int, ticks: nat) returns (r: int)
      requires cur < procs.Length
      modifies procs, this`edfCount, this`rrCount, this`fcfsCount
      ensures r == 0
      ensures procs[..] == old(procs[..])[cur := RealtimeSlot(old(procs[cur]), decidedDeadline, ticks)]
      ensures !(old(procs[cur].state) == Runnable && old(procs[cur].cal) == Edf) ==> DriftKept()
      ensures old(procs[cur].state) == Runnable && old(procs[cur].cal) == Edf ==>
        Drift(Edf) == old(Drift(Edf)) + 1 &&
        Drift(MlfqLevel1) == old(Drift(MlfqLevel1)) && Drift(MlfqLevel2) == old(Drift(MlfqLevel2))
    {
      ghost var before := procs[..];
      UncountFromMlfq(cur);
      var q := procs[cur];
      var savedTick := ToInt32(ticks);
      q := q.(deadline := ToInt32(savedTick + decidedDeadline));
      q := q.(arrivalTime := savedTick);
      q := q.(cal := Edf);
      if q.state == Runnable {
        edfCount := edfCount + 1;
      }
      RunnableOfUpdateAll(before, cur, q);
      procs[cur] := q;
      assert procs[..] == before[cur := q];
      return 0;
    }

    /** A RUNNABLE slot of either MLFQ level leaves its level's counter. */
    method UncountFromMlfq(k: nat)
      requires k < procs.Length
      modifies this`rrCount, this`fcfsCount
      ensures rrCount == old(rrCount) - Ind(procs[k], MlfqLevel1)
      ensures fcfsCount == old(fcfsCount) - Ind(procs[k], MlfqLevel2)
    {
      if procs[k].state == Runnable {
        if procs[k].cal == MlfqLevel1 {
          rrCount := rrCount - 1;
        } else if procs[k].cal == MlfqLevel2 {
          fcfsCount := fcfsCount - 1;
        }
      }
    }

    /** get_proc_by_pid: the first used slot carrying pid. */
    method GetProcByPid(pid: int) returns (r: Option<nat>)
      ensures r == First(procs[..], IsLive(pid))
      ensures r.None? <==> forall k :: 0 <= k < procs.Length ==> !(procs[k].pid == pid && procs[k].state != Unused)
      ensures r.Some? ==> r.value < procs.Length && procs[r.value].pid == pid && procs[r.value].state != Unused
    {
      var i := 0;
      while i < procs.Length
        invariant 0 <= i <= procs.Length
        invariant forall j :: 0 <= j < i ==> !Matches(procs[j], IsLive(pid))
      {
        if procs[i].pid == pid && procs[i].state != Unused {
          FirstIs(procs[..], IsLive(pid), i);
          return Some(i);
        }
        i := i + 1;
      }
      return None;
    }

    /** change_process_queue: move the process with pid to MLFQ level newQueueType (2 or 3).
        caller is the slot of the calling process. -1, with nothing changed, for another
        queue type, an unknown pid, a target already in that level, or a RUNNING target
        other than the caller. */
    method ChangeProcessQueue(pid: int, newQueueType: int, caller: Option<nat>, ticks: nat) returns (r: int)
      modifies procs, this`rrCount, this`fcfsCount
      ensures r == 0 || r == -1
      ensures r == -1 ==> procs[..] == old(procs[..]) && rrCount == old(rrCount) && fcfsCount == old(fcfsCount)
      ensures var f := First(old(procs[..]), IsLive(pid));
        var level := QueueOfCode(newQueueType);
        && (level == None || f == None ==> r == -1)
        && (level.Some? && f.Some? ==>
              var k := f.value;
              && (r == -1 <==> (ClassCode(old(procs[k].cal)) == newQueueType
                                || (old(procs[k].state) == Running && caller != Some(k))))
              && (r == 0 ==> procs[..] == old(procs[..])[k := RequeuedSlot(old(procs[k]), level.value, ticks)])
              && (r == 0 && !(old(procs[k].state) == Runnable && old(procs[k].cal) == Edf) ==> DriftKept())
              && (r == 0 && old(procs[k].state) == Runnable && old(procs[k].cal) == Edf ==>
                    Drift(Edf) == old(Drift(Edf)) + 1 &&
                    Drift(MlfqLevel1) == old(Drift(MlfqLevel1)) && Drift(MlfqLevel2) == old(Drift(MlfqLevel2))))
    {
      if newQueueType != ClassCode(MlfqLevel1) && newQueueType != ClassCode(MlfqLevel2) {
        return -1;
      }
      var found := GetProcByPid(pid);
      if found == None {
        return -1;
      }
      var k := found.value;
      if ClassCode(procs[k].cal) == newQueueType {
        return -1;
      }
      if procs[k].state == Running && caller != Some(k) {
        return -1;
      }
      Requeue(k, if newQueueType == ClassCode(MlfqLevel1) then MlfqLevel1 else MlfqLevel2, ticks);
      return 0;
    }

    /** change_process_queue's update of slot k once the request is accepted. */
    method Requeue(k: nat, level: SchedClass, ticks: nat)
      requires k < procs.Length && (level == MlfqLevel1 || level == MlfqLevel2)
      modifies procs, this`rrCount, this`fcfsCount
      ensures procs[..] == old(procs[..])[k := RequeuedSlot(old(procs[k]), level, ticks)]
      ensures !(old(procs[k].state) == Runnable && old(procs[k].cal) == Edf) ==> DriftKept()
      ensures old(procs[k].state) == Runnable && old(procs[k].cal) == Edf ==>
        Drift(Edf) == old(Drift(Edf)) + 1 &&
        Drift(MlfqLevel1) == old(Drift(MlfqLevel1)) && Drift(MlfqLevel2) == old(Drift(MlfqLevel2))
    {
      ghost var before := procs[..];
      UncountFromMlfq(k);
      var q := procs[k].(cal := level);
      if q.state == Runnable {
        if level == MlfqLevel1 {
          rrCount := rrCount + 1;
        } else {
          fcfsCount := fcfsCount + 1;
        }
      }
      var savedTicks := ToInt32(ticks);
      if level == MlfqLevel2 {
        q := q.(enteringTime := savedTicks);
      }
      q := q.(arrivalTime := savedTicks);
      q := q.(waitingTime := 0);
      RunnableOfUpdateAll(before, k, q);
      procs[k] := q;
      assert procs[..] == before[k := q];
    }

    /** collect_process_snapshots: the snapshots of the first maxCount used slots. */
    method CollectProcessSnapshots(maxCount: int) returns (count: int, list: seq<Snapshot>)
      ensures list == Take(Snapshots(procs[..]), maxCount)
      ensures count == |list|
      ensures count == if maxCount <= 0 then 0 else if LiveCount(procs[..]) <= maxCount then LiveCount(procs[..]) else maxCount
    {
      count := 0;
      list := [];
      var i := 0;
      while i < procs.Length
        invariant 0 <= i <= procs.Length
        invariant list == Take(Snapshots(procs[..i]), maxCount)
        invariant count == |list|
      {
        assert procs[..i + 1][..i] == procs[..i];
        if procs[i].state != Unused && count < maxCount {
          list := list + [SnapshotOf(procs[i])];
          count := count + 1;
        }
        i := i + 1;
      }
      assert procs[..i] == procs[..];
      SnapshotsOfUsedSlots(procs[..]);
    }
  }
}
