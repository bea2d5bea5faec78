/**
 * `IovIter`, the kernel crate's wrapper around a C `struct iov_iter`, seen
 * through its writer (`IoBufferWriter`) and reader (`IoBufferReader`) views.
 *
 * Only the iterator's `count` (the bytes it still spans) is modelled. The C
 * helpers `iov_iter_zero`, `copy_to_iter` and `copy_from_iter` are not part
 * of this model: each call is answered by an oracle value, the number of
 * bytes the helper reports, which is never more than it was asked for nor
 * more than the iterator still spans; the helper advances the iterator by
 * that many bytes.
 */
module IovIterModel {
  import opened Wrappers
  import opened Errno

  /**
   * The answers `iov_iter_zero` gives to the calls of a `clear` that starts
   * with `len` bytes to zero on an iterator spanning `count` bytes: there is
   * an answer for every call the loop makes, each at most the bytes still to
   * zero and at most the bytes still spanned.
   */
  ghost predicate ZeroRepliesFit(len: nat, count: nat, replies: seq<nat>)
    decreases |replies|
  {
    len == 0
    || (replies != [] && replies[0] <= len && replies[0] <= count
        && (replies[0] == 0 || ZeroRepliesFit(len - replies[0], count - replies[0], replies[1..])))
  }

  /** The outcome of `clear(len)` given the helper's answers. */
  function ClearResult(len: nat, count: nat, replies: seq<nat>): KResult<()>
    requires ZeroRepliesFit(len, count, replies)
    decreases |replies|
  {
    if len == 0 then Ok(())
    else if replies[0] == 0 then Err(EFAULT)
    else ClearResult(len - replies[0], count - replies[0], replies[1..])
  }

  /** The bytes `clear(len)` zeroes (and advances the iterator by) given the helper's answers. */
  function ZeroedBytes(len: nat, count: nat, replies: seq<nat>): nat
    requires ZeroRepliesFit(len, count, replies)
    decreases |replies|
  {
    if len == 0 || replies[0] == 0 then 0
    else replies[0] + ZeroedBytes(len - replies[0], count - replies[0], replies[1..])
  }

  /** The number of calls `clear(len)` makes to `iov_iter_zero`. */
  function ZeroCalls(len: nat, count: nat, replies: seq<nat>): nat
    requires ZeroRepliesFit(len, count, replies)
    decreases |replies|
  {
    if len == 0 then 0
    else if replies[0] == 0 then 1
    else 1 + ZeroCalls(len - replies[0], count - replies[0], replies[1..])
  }

  /**
   * `clear` succeeds exactly when the zeroed bytes add up to the requested
   * length; otherwise it fails with `EFAULT` having zeroed fewer. It never
   * zeroes more than requested nor more than the iterator spans, and it uses
   * no more answers than it was given.
   */
  lemma {:induction false} ClearOutcome(len: nat, count: nat, replies: seq<nat>)
    requires ZeroRepliesFit(len, count, replies)
    ensures ZeroedBytes(len, count, replies) <= len && ZeroedBytes(len, count, replies) <= count
    ensures ClearResult(len, count, replies).Ok? <==> ZeroedBytes(len, count, replies) == len
    ensures ClearResult(len, count, replies).Err? ==> ClearResult(len, count, replies) == Err(EFAULT)
    ensures ZeroCalls(len, count, replies) <= |replies|
    decreases |replies|
  {
    if len != 0 && replies[0] != 0 {
      ClearOutcome(len - replies[0], count - replies[0], replies[1..]);
    }
  }

  /** Zeroing more bytes than the iterator spans always ends in `EFAULT`. */
  lemma ClearBeyondCount(len: nat, count: nat, replies: seq<nat>)
    requires ZeroRepliesFit(len, count, replies) && len > count
    ensures ClearResult(len, count, replies) == Err(EFAULT)
  {
    ClearOutcome(len, count, replies);
  }

  /** `clear(0)` succeeds without calling the helper at all. */
  lemma ClearNothing(count: nat, replies: seq<nat>)
    ensures ZeroRepliesFit(0, count, replies)
    ensures ClearResult(0, count, replies) == Ok(()) && ZeroCalls(0, count, replies) == 0
    ensures ZeroedBytes(0, count, replies) == 0
  {
  }

  /**
   * A first answer of 0 to a non-empty `clear` fails it at once with
   * `EFAULT`, after one call and nothing zeroed, whatever answers follow.
   */
  lemma ClearStopsAtZero(len: nat, count: nat, replies: seq<nat>)
    requires len > 0 && replies != [] && replies[0] == 0
    ensures ZeroRepliesFit(len, count, replies)
    ensures ClearResult(len, count, replies) == Err(EFAULT)
    ensures ZeroCalls(len, count, replies) == 1 && ZeroedBytes(len, count, replies) == 0
  {
  }

  /** The answers of a helper that always zeroes the whole remaining request in one call. */
  lemma ClearAtOnce(len: nat, count: nat)
    requires 0 < len <= count
    ensures ZeroRepliesFit(len, count, [len])
    ensures ClearResult(len, count, [len]) == Ok(()) && ZeroCalls(len, count, [len]) == 1
  {
    assert ZeroRepliesFit(0, count - len, [len][1..]);
  }

  class IovIter {
    /** `(*ptr).count`: the bytes the iterator still spans. */
    var count: nat

    constructor FromCount(count: nat)
      ensures this.count == count
    {
      this.count := count;
    }

    /** `common_len`, which both `IoBufferWriter::len` and `IoBufferReader::len` return. */
    function Len(): (n: nat)
      reads this
      ensures n == count
    {
      count
    }

    /**
     * `IoBufferWriter::clear`: zeroes `len` bytes, one `iov_iter_zero` call
     * at a time, and fails with `EFAULT` on a call that zeroes nothing.
     */
    method Clear(len: nat, replies: seq<nat>) returns (r: KResult<()>)
      requires ZeroRepliesFit(len, count, replies)
      modifies this
      ensures r == ClearResult(len, old(count), replies)
      ensures count == old(count) - ZeroedBytes(len, old(count), replies)
      ensures r.Ok? ==> count == old(count) - len
      ensures r.Err? ==> r == Err(EFAULT) && count > old(count) - len
    {
      ClearOutcome(len, count, replies);
      var remaining := len;
      var i := 0;
      while remaining > 0
        invariant 0 <= i <= |replies|
        invariant ZeroRepliesFit(remaining, count, replies[i..])
        invariant ClearResult(len, old(count), replies) == ClearResult(remaining, count, replies[i..])
        invariant old(count) - ZeroedBytes(len, old(count), replies) == count - ZeroedBytes(remaining, count, replies[i..])
        invariant count >= ZeroedBytes(remaining, count, replies[i..])
        decreases remaining
      {
        ClearOutcome(remaining, count, replies[i..]);
        var written := replies[i];
        if written == 0 {
          return Err(EFAULT);
        }
        assert replies[i..][1..] == replies[i + 1..];
        count := count - written;
        remaining := remaining - written;
        i := i + 1;
      }
      r := Ok(());
    }

    /** `IoBufferWriter::write_raw`: `copied` is what `copy_to_iter` reports. */
    method WriteRaw(len: nat, copied: nat) returns (r: KResult<()>)
      requires copied <= len && copied <= count
      modifies this
      ensures r.Ok? <==> copied == len
      ensures r.Err? ==> r == Err(EFAULT)
      ensures count == old(count) - copied
      ensures len > old(count) ==> r.Err?
    {
      count := count - copied;
      if copied != len {
        return Err(EFAULT);
      }
      return Ok(());
    }

    /** `IoBufferReader::read_raw`: `copied` is what `copy_from_iter` reports. */
    method ReadRaw(len: nat, copied: nat) returns (r: KResult<()>)
      requires copied <= len && copied <= count
      modifies this
      ensures r.Ok? <==> copied == len
      ensures r.Err? ==> r == Err(EFAULT)
      ensures count == old(count) - copied
      ensures len > old(count) ==> r.Err?
    {
      count := count - copied;
      if copied != len {
        return Err(EFAULT);
      }
      return Ok(());
    }
  }
}
