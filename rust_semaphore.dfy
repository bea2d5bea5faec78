/**
 * The counting semaphore sample device: writes of `n` bytes add `n` to the
 * count (saturating at `usize::MAX`), reads take one unit, waiting while the
 * count is zero, and two ioctls get and set a per-file read counter.
 *
 * The condition variable's wait is modelled by its outcome: a `WaitEvent`
 * says whether the waiter was interrupted by a signal, or woken after
 * another file's `write` added bytes. The mutex and the atomic's memory
 * ordering are not modelled: the writes other files make while a reader
 * waits are applied at the point the wait returns, and every other
 * operation runs alone.
 */
module RustSemaphore {
  import opened Wrappers
  import opened Errno
  import opened IovIterModel

  /** `IOCTL_GET_READ_COUNT` */
  const IOCTL_GET_READ_COUNT: nat := 0x80086301
  /** `IOCTL_SET_READ_COUNT` */
  const IOCTL_SET_READ_COUNT: nat := 0x40086301

  /** `usize::saturating_add` */
  function SaturatingAdd(a: nat, b: nat): (r: nat)
    requires a <= USIZE_MAX
    ensures a <= r <= USIZE_MAX
    ensures r == a + b <==> a + b <= USIZE_MAX
    ensures r != a + b ==> r == USIZE_MAX
  {
    if a + b <= USIZE_MAX then a + b else USIZE_MAX
  }

  /** `AtomicU64::fetch_add(1)`'s effect: wraps to 0 past `u64::MAX`. */
  function WrappingIncrement(v: nat): (r: nat)
    requires v <= U64_MAX
    ensures r <= U64_MAX
    ensures v < U64_MAX ==> r == v + 1
    ensures v == U64_MAX ==> r == 0
  {
    (v + 1) % (U64_MAX + 1)
  }

  /** `SemaphoreInner` as a value. */
  datatype Inner = Inner(count: nat, maxSeen: nat)

  /** What `SemaphoreInner` keeps: both fields are `usize`s and the high-water mark is never below the count. */
  predicate InnerValid(s: Inner) {
    s.count <= s.maxSeen <= USIZE_MAX
  }

  /** The locked block of `write`: add `n` saturating, then raise the high-water mark. */
  function Produce(s: Inner, n: nat): (t: Inner)
    requires InnerValid(s)
    ensures InnerValid(t)
  {
    var count := SaturatingAdd(s.count, n);
    Inner(count, if count > s.maxSeen then count else s.maxSeen)
  }

  /** A `write` of `n` bytes raises the count by `n`, or to `usize::MAX`, and the mark to at least the count. */
  lemma ProduceEffect(s: Inner, n: nat)
    requires InnerValid(s)
    ensures Produce(s, n).count == if s.count + n <= USIZE_MAX then s.count + n else USIZE_MAX
    ensures Produce(s, n).maxSeen >= s.maxSeen && Produce(s, n).maxSeen >= Produce(s, n).count
    ensures Produce(s, n).maxSeen == s.maxSeen || Produce(s, n).maxSeen == Produce(s, n).count
  {
  }

  /**
   * The outcome of one wait on the `changed` condition variable. Other
   * files may write while the reader sleeps; `produced` is what they added
   * before the wait returned (0 for a wake-up with nothing written).
   */
  datatype WaitEvent =
      /** The wait returned with a signal pending, after writes of `produced` bytes. */
    | Interrupted(produced: nat)
      /** Woken by `notify_all` after other files' writes of `produced` bytes. */
    | Woken(produced: nat)

  /** The events a `consume` sees: enough of them for it to return. */
  ghost predicate ConsumeEnds(s: Inner, events: seq<WaitEvent>)
    requires InnerValid(s)
    decreases |events|
  {
    s.count > 0
    || (events != [] && (events[0].Interrupted? || ConsumeEnds(Produce(s, events[0].produced), events[1..])))
  }

  /**
   * `consume`: the result and the new `SemaphoreInner`. A pending signal
   * ends the wait with `EINTR` even when the writes made during it left
   * units to take: the loop does not look at the count again.
   */
  function ConsumeSpec(s: Inner, events: seq<WaitEvent>): (KResult<()>, Inner)
    requires InnerValid(s) && ConsumeEnds(s, events)
    decreases |events|
  {
    if s.count > 0 then (Ok(()), s.(count := s.count - 1))
    else if events[0].Interrupted? then (Err(EINTR), Produce(s, events[0].produced))
    else ConsumeSpec(Produce(s, events[0].produced), events[1..])
  }

  /** The bytes other files wrote while a `consume` waited. */
  ghost function WrittenDuring(s: Inner, events: seq<WaitEvent>): nat
    requires InnerValid(s) && ConsumeEnds(s, events)
    decreases |events|
  {
    if s.count > 0 then 0
    else if events[0].Interrupted? then events[0].produced
    else events[0].produced + WrittenDuring(Produce(s, events[0].produced), events[1..])
  }

  /** Two writes in a row have the effect of one write of both lengths. */
  lemma ProduceTwice(s: Inner, a: nat, b: nat)
    requires InnerValid(s)
    ensures Produce(Produce(s, a), b) == Produce(s, a + b)
  {
  }

  /**
   * `consume` is the writes made while it waited followed by one step of
   * its own: it takes one unit when that leaves one to take, and otherwise
   * fails with `EINTR`, having taken nothing. A unit it takes was there (the
   * count it leaves is below the high-water mark).
   */
  lemma {:induction false} ConsumeOutcome(s: Inner, events: seq<WaitEvent>)
    requires InnerValid(s) && ConsumeEnds(s, events)
    ensures InnerValid(ConsumeSpec(s, events).1)
    ensures ConsumeSpec(s, events).0.Ok? ==>
      Produce(s, WrittenDuring(s, events)).count > 0
      && ConsumeSpec(s, events).1 == Produce(s, WrittenDuring(s, events)).(count := Produce(s, WrittenDuring(s, events)).count - 1)
      && ConsumeSpec(s, events).1.count < ConsumeSpec(s, events).1.maxSeen
    ensures ConsumeSpec(s, events).0.Err? ==>
      ConsumeSpec(s, events) == (Err(EINTR), Produce(s, WrittenDuring(s, events)))
    ensures ConsumeSpec(s, events).1.maxSeen >= s.maxSeen
    decreases |events|
  {
    if s.count == 0 && events[0].Woken? {
      var n := events[0].produced;
      ConsumeOutcome(Produce(s, n), events[1..]);
      ProduceTwice(s, n, WrittenDuring(Produce(s, n), events[1..]));
    }
  }

  /** With a unit available, `consume` takes exactly one and never waits. */
  lemma ConsumeAvailable(s: Inner, events: seq<WaitEvent>)
    requires InnerValid(s) && s.count > 0
    ensures ConsumeEnds(s, events)
    ensures ConsumeSpec(s, events) == (Ok(()), Inner(s.count - 1, s.maxSeen))
  {
  }

  /**
   * An interrupted wait on an empty semaphore returns `EINTR` with only the
   * writes made meanwhile applied; when those left units, none is taken.
   */
  lemma ConsumeInterrupted(s: Inner, n: nat, more: seq<WaitEvent>)
    requires InnerValid(s) && s.count == 0
    ensures ConsumeEnds(s, [Interrupted(n)] + more)
    ensures ConsumeSpec(s, [Interrupted(n)] + more) == (Err(EINTR), Produce(s, n))
    ensures n == 0 ==> Produce(s, n) == s
    ensures n > 0 ==> Produce(s, n).count > 0
  {
  }

  /** A write that lands while a reader waits on an empty semaphore lets it take one of the written units. */
  lemma {:induction false} ConsumeAfterWrite(s: Inner, n: nat, more: seq<WaitEvent>)
    requires InnerValid(s) && s.count == 0 && 0 < n <= USIZE_MAX
    ensures ConsumeEnds(s, [Woken(n)] + more)
    ensures ConsumeSpec(s, [Woken(n)] + more).0 == Ok(())
    ensures ConsumeSpec(s, [Woken(n)] + more).1.count == n - 1
  {
    var events := [Woken(n)] + more;
    assert events[0] == Woken(n) && events[1..] == more;
    var t := Produce(s, n);
    assert t.count == n;
    ConsumeAvailable(t, more);
  }

  /** `Semaphore`: the `SemaphoreInner` its mutex guards. */
  class Semaphore {
    var count: nat
    var maxSeen: nat

    ghost predicate Valid()
      reads this
    {
      InnerValid(State())
    }

    function State(): Inner
      reads this
    {
      Inner(count, maxSeen)
    }

    /** The semaphore `init` creates: count and high-water mark both 0. */
    constructor ()
      ensures Valid() && count == 0 && maxSeen == 0
    {
      count := 0;
      maxSeen := 0;
    }

    /** The locked block of `write`. */
    method Add(n: nat)
      requires Valid()
      modifies this
      ensures Valid() && State() == Produce(old(State()), n)
    {
      count := SaturatingAdd(count, n);
      if count > maxSeen {
        maxSeen := count;
      }
    }
  }

  /** `FileState`: the per-open-file read counter and the shared semaphore. */
  class FileState {
    /** `read_count`, an `AtomicU64`. */
    var readCount: nat
    const shared: Semaphore

    ghost predicate Valid()
      reads this, shared
    {
      readCount <= U64_MAX && shared.Valid()
    }

    /** `open`: a fresh counter on the shared semaphore. */
    constructor Open(shared: Semaphore)
      requires shared.Valid()
      ensures Valid() && this.shared == shared && readCount == 0
    {
      this.shared := shared;
      readCount := 0;
    }

    /** `consume`: wait while the count is zero, then take one unit. */
    method Consume(events: seq<WaitEvent>) returns (r: KResult<()>)
      requires Valid() && ConsumeEnds(shared.State(), events)
      modifies shared
      ensures Valid()
      ensures (r, shared.State()) == ConsumeSpec(old(shared.State()), events)
    {
      var i := 0;
      while shared.count == 0
        invariant 0 <= i <= |events| && shared.Valid()
        invariant ConsumeEnds(shared.State(), events[i..])
        invariant ConsumeSpec(old(shared.State()), events) == ConsumeSpec(shared.State(), events[i..])
        decreases |events| - i
      {
        if events[i].Interrupted? {
          shared.Add(events[i].produced);
          return Err(EINTR);
        }
        assert events[i..][1..] == events[i + 1..];
        shared.Add(events[i].produced);
        i := i + 1;
      }
      shared.count := shared.count - 1;
      r := Ok(());
    }

    /**
     * `read`: an empty buffer or a non-zero offset reads nothing; otherwise
     * take one unit, write one zero byte (`copied` is what the copy helper
     * reports for it) and count the read.
     */
    method Read(data: IovIter, offset: nat, events: seq<WaitEvent>, copied: nat) returns (r: KResult<nat>)
      requires Valid() && copied <= 1 && copied <= data.count
      requires data.count == 0 || offset > 0 || ConsumeEnds(shared.State(), events)
      modifies this, shared, data
      ensures Valid()
      ensures old(data.count) == 0 || offset > 0 ==>
        r == Ok(0) && readCount == old(readCount) && shared.State() == old(shared.State())
        && data.count == old(data.count)
      ensures old(data.count) > 0 && offset == 0 ==>
        var (c, s) := ConsumeSpec(old(shared.State()), events);
        shared.State() == s
        && (c.Err? ==> r == Err(c.error) && readCount == old(readCount) && data.count == old(data.count))
        && (c.Ok? && copied == 1 ==> r == Ok(1) && readCount == WrappingIncrement(old(readCount)) && data.count == old(data.count) - 1)
        && (c.Ok? && copied == 0 ==> r == Err(EFAULT) && readCount == old(readCount) && data.count == old(data.count))
    {
      if data.Len() == 0 || offset > 0 {
        return Ok(0);
      }
      var c := Consume(events);
      if c.Err? {
        return Err(c.error);
      }
      var w := data.WriteRaw(1, copied);
      if w.Err? {
        return Err(w.error);
      }
      readCount := WrappingIncrement(readCount);
      r := Ok(1);
    }

    /**
     * `write`: adds the buffer's length to the count (saturating) and raises
     * the high-water mark; the bytes themselves are never read.
     */
    method Write(data: IovIter, offset: nat) returns (r: KResult<nat>)
      requires Valid()
      modifies shared
      ensures Valid() && readCount == old(readCount)
      ensures shared.State() == Produce(old(shared.State()), data.count)
      ensures r == Ok(data.count)
    {
      shared.Add(data.Len());
      r := Ok(data.Len());
    }

    /**
     * `IoctlHandler::read`: `IOCTL_GET_READ_COUNT` reports the read counter
     * to user space; `copyFailed` says the user buffer could not take it.
     * Any other command is `EINVAL`.
     */
    method IoctlRead(cmd: nat, copyFailed: bool) returns (r: KResult<int>, reported: Option<nat>)
      requires Valid()
      ensures r.Ok? <==> cmd == IOCTL_GET_READ_COUNT && !copyFailed
      ensures r.Ok? ==> r.value == 0 && reported == Some(readCount)
      ensures r.Err? ==> reported == None
      ensures cmd != IOCTL_GET_READ_COUNT ==> r == Err(EINVAL)
      ensures cmd == IOCTL_GET_READ_COUNT && copyFailed ==> r == Err(EFAULT)
    {
      if cmd == IOCTL_GET_READ_COUNT {
        if copyFailed {
          return Err(EFAULT), None;
        }
        return Ok(0), Some(readCount);
      }
      return Err(EINVAL), None;
    }

    /**
     * `IoctlHandler::write`: `IOCTL_SET_READ_COUNT` stores the `u64` read
     * from user space (`supplied`, or the error reading it gave). Any other
     * command is `EINVAL` and reads nothing.
     */
    method IoctlWrite(cmd: nat, supplied: KResult<nat>) returns (r: KResult<int>)
      requires Valid() && (supplied.Ok? ==> supplied.value <= U64_MAX)
      modifies this
      ensures Valid()
      ensures cmd != IOCTL_SET_READ_COUNT ==> r == Err(EINVAL) && readCount == old(readCount)
      ensures cmd == IOCTL_SET_READ_COUNT && supplied.Err? ==> r == Err(supplied.error) && readCount == old(readCount)
      ensures cmd == IOCTL_SET_READ_COUNT && supplied.Ok? ==> r == Ok(0) && readCount == supplied.value
    {
      if cmd != IOCTL_SET_READ_COUNT {
        return Err(EINVAL);
      }
      var v :- supplied;
      readCount := v;
      r := Ok(0);
    }

    /** A `SET` followed by a `GET` reports the value set. */
    method SetThenGet(v: nat) returns (reported: Option<nat>)
      requires Valid() && v <= U64_MAX
      modifies this
      ensures Valid() && readCount == v && reported == Some(v)
    {
      var stored := IoctlWrite(IOCTL_SET_READ_COUNT, Ok(v));
      var get;
      get, reported := IoctlRead(IOCTL_GET_READ_COUNT, false);
    }
  }
}
