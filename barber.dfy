/** The sleeping-barber case study of the kernel: a five-seat circular waiting queue of
    customer pids, a cap of ten admissions over the life of the shop, and the flag by which
    customers know that the barber sleeps. Blocking and waking are state changes: the
    methods report the process they would wake instead of calling the scheduler. */
module Barber {
  import opened CLang
  import Ring

  const QueueCapacity: nat := 5
  const CustomerLimit: nat := 10

  /** What customer_arrive does: the shop no longer admits anyone, every seat is taken, or
      the customer takes a seat and sleeps until served. A sleeping barber is woken in the
      first and last case. */
  datatype Arrival = ShopClosed(wakes: Option<nat>) | QueueFull | Seated(wakes: Option<nat>)

  /** The value customer_arrive returns once the customer is done. */
  function ArrivalCode(a: Arrival): (r: int)
    ensures r == 0 <==> a.Seated?
    ensures r == 0 || r == 1
  {
    if a.Seated? then 0 else 1
  }

  /** What the barber does in barber_sleep, or on its return from sleeping. */
  datatype BarberStep = Exits | FallsAsleep | Works

  /** What cut_hair does: exit before doing anything, find nobody to serve, or serve the
      customer at the head of the queue (waking it) and possibly exit afterwards. */
  datatype Haircut = ExitsIdle | NoCustomer | Served(customer: int, exitsAfter: bool)

  class Shop {
    const queue: array<int>
    var head: nat
    var tail: nat
    var count: nat
    var total: nat
    var barberSleeping: bool
    var barberProc: Option<nat>

    ghost predicate Valid()
      reads this
    {
      queue.Length == QueueCapacity && head < QueueCapacity && tail < QueueCapacity &&
      count <= QueueCapacity && tail == (head + count) % QueueCapacity &&
      total <= CustomerLimit && count <= total &&
      (barberSleeping ==> barberProc.Some?)
    }

    /** The waiting customers' pids, in order of arrival. */
    ghost function Waiting(): seq<int>
      reads this, queue
      requires Valid()
    {
      Ring.Window(queue[..], head, count)
    }

    /** The shop as the kernel starts it: every counter zero and the barber awake. */
    constructor ()
      ensures Valid() && Waiting() == [] && total == 0 && !barberSleeping
    {
      queue := new int[QueueCapacity](_ => 0);
      head, tail, count, total := 0, 0, 0, 0;
      barberSleeping, barberProc := false, None;
    }

    /** Whether the shop has admitted all the customers it ever will and served them. */
    predicate Finished()
      reads this
    {
      total >= CustomerLimit && count == 0
    }

    /** barber_sleep: the barber leaves once the shop is finished, and records itself and
        falls asleep when nobody waits. */
    method BarberSleep(cur: nat) returns (step: BarberStep)
      requires Valid()
      modifies this
      ensures Valid() && unchanged(queue) && Waiting() == old(Waiting())
      ensures head == old(head) && tail == old(tail) && count == old(count) && total == old(total)
      ensures step == Exits <==> old(Finished())
      ensures step == FallsAsleep <==> !old(Finished()) && old(count) == 0
      ensures step == FallsAsleep ==> barberSleeping && barberProc == Some(cur)
      ensures step != FallsAsleep ==> barberSleeping == old(barberSleeping) && barberProc == old(barberProc)
    {
      if total >= CustomerLimit && count == 0 {
        return Exits;
      }
      if count == 0 {
        barberProc := Some(cur);
        barberSleeping := true;
        return FallsAsleep;
      }
      return Works;
    }

    /** The rest of barber_sleep once the barber is woken: it clears its flag and leaves if
        the shop is finished. */
    method BarberWakes() returns (step: BarberStep)
      requires Valid()
      modifies this`barberSleeping
      ensures Valid() && !barberSleeping
      ensures step == Exits <==> Finished()
      ensures step != FallsAsleep
    {
      barberSleeping := false;
      if total >= CustomerLimit && count == 0 {
        return Exits;
      }
      return Works;
    }

    /** The barber to wake, if it sleeps. */
    function SleepingBarber(): (r: Option<nat>)
      reads this
      ensures r.Some? <==> barberSleeping && barberProc.Some?
    {
      if barberSleeping then barberProc else None
    }

    /** customer_arrive: after ten admissions nobody else is admitted; otherwise the
        customer is counted, and it takes a seat at the tail of the queue unless all five
        are taken. */
    method CustomerArrive(pid: int) returns (a: Arrival)
      requires Valid()
      modifies this`total, this`tail, this`count, queue
      ensures Valid()
      ensures barberSleeping == old(barberSleeping) && barberProc == old(barberProc)
      ensures old(total) >= CustomerLimit ==>
        a == ShopClosed(old(SleepingBarber())) && total == old(total) && Waiting() == old(Waiting())
      ensures old(total) < CustomerLimit && old(count) >= QueueCapacity ==>
        a == QueueFull && total == old(total) + 1 && Waiting() == old(Waiting())
      ensures old(total) < CustomerLimit && old(count) < QueueCapacity ==>
        a == Seated(old(SleepingBarber())) && total == old(total) + 1 &&
        Waiting() == old(Waiting()) + [pid]
    {
      if total >= CustomerLimit {
        return ShopClosed(SleepingBarber());
      }
      total := total + 1;
      if count >= QueueCapacity {
        return QueueFull;
      }
      TakeSeat(pid);
      return Seated(SleepingBarber());
    }

    /** The seating part of customer_arrive: the pid goes into queue[tail] and tail moves
        on, modulo five. */
    method TakeSeat(pid: int)
      requires Valid() && count < QueueCapacity && count < total
      modifies this`tail, this`count, queue
      ensures Valid() && Waiting() == old(Waiting()) + [pid]
    {
      ghost var before := queue[..];
      Ring.WindowPush(before, head, count, pid);
      queue[tail] := pid;
      assert queue[..] == before[(head + count) % QueueCapacity := pid];
      Ring.ModBelowTwice(head + count, QueueCapacity);
      Ring.ModBelowTwice(head + count + 1, QueueCapacity);
      Ring.ModBelowTwice(tail + 1, QueueCapacity);
      tail := (tail + 1) % QueueCapacity;
      count := count + 1;
    }

    /** cut_hair: with customers waiting, the barber takes the one at the head of the queue,
        serves it, wakes it, and leaves if the shop is then finished. */
    method CutHair() returns (h: Haircut)
      requires Valid()
      modifies this`head, this`count
      ensures Valid() && unchanged(queue) && tail == old(tail) && total == old(total)
      ensures barberSleeping == old(barberSleeping) && barberProc == old(barberProc)
      ensures old(Finished()) ==> h == ExitsIdle && Waiting() == old(Waiting())
      ensures !old(Finished()) && old(count) == 0 ==> h == NoCustomer && Waiting() == old(Waiting())
      ensures old(count) > 0 ==>
        h == Served(old(Waiting())[0], Finished()) && Waiting() == old(Waiting())[1..]
    {
      if total >= CustomerLimit && count == 0 {
        return ExitsIdle;
      }
      if count == 0 {
        return NoCustomer;
      }
      var customer := ServeHead();
      return Served(customer, total >= CustomerLimit && count == 0);
    }

    /** The customer at the head of the queue leaves it to be served. */
    method ServeHead() returns (customer: int)
      requires Valid() && count > 0
      modifies this`head, this`count
      ensures Valid() && count == old(count) - 1
      ensures customer == old(Waiting())[0] && Waiting() == old(Waiting())[1..]
    {
      Ring.WindowPop(queue[..], head, count);
      PopKeepsTail(head, count);
      customer := queue[head];
      head := (head + 1) % QueueCapacity;
      count := count - 1;
    }
  }

  /** Taking the head customer keeps the tail where head plus count says it is. */
  lemma PopKeepsTail(head: nat, count: nat)
    requires head < QueueCapacity && 0 < count <= QueueCapacity
    ensures ((head + 1) % QueueCapacity + (count - 1)) % QueueCapacity == (head + count) % QueueCapacity
  {
  }
}
