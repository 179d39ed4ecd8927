/** The guardian's stderr drain (crates/app/src/lid.rs): reads everything until end of file, or,
    once cancelled, until nothing is immediately available; keeps only a bounded prefix. */
module DiagnosticDrain {
  import opened Wrappers

  const RETAINED_BYTES: nat := 4096
  const BUFFER_BYTES: nat := 4096

  type Bytes = seq<int>

  datatype Poll = PollFails(code: int) | Polled(cancelled: bool)

  /** What the read of one turn returns; data comes at most one buffer at a time. */
  datatype RawRead = Eof | Data(bytes: Bytes) | Interrupted | WouldBlock | Broken(code: int)

  type Read = r: RawRead | r.Data? ==> 1 <= |r.bytes| <= BUFFER_BYTES witness Eof

  /** One turn of the loop; the poll is only made while cancellation has not been seen. */
  datatype Turn = Turn(poll: Poll, read: Read)

  datatype Drained =
    | Done(retained: Bytes)
    | Failed(code: int)
    | Unfinished        // still waiting after all the given turns

  /** `diagnostic_read_result`: a byte count, zero to go round again, none to finish. */
  function DiagnosticReadResult(read: Read, cancelled: bool): Result<Option<nat>, int> {
    match read
    case Eof => Ok(None)
    case Data(bytes) => Ok(Some(|bytes|))
    case Interrupted => Ok(Some(0))
    case WouldBlock => Ok(if cancelled then None else Some(0))
    case Broken(code) => Err(code)
  }

  // ----- The specification -----

  /** Cancellation has been seen by the first n polls. */
  predicate CancelSeen(turns: seq<Turn>, n: nat)
    requires n <= |turns|
  {
    exists j | 0 <= j < n :: turns[j].poll == Polled(true)
  }

  /** Turn k ends the drain: end of file or a broken pipe, nothing to read once cancelled, or a
      failed poll that was still being made. */
  predicate Ends(turns: seq<Turn>, k: nat)
    requires k < |turns|
  {
    || turns[k].read.Eof?
    || turns[k].read.Broken?
    || (turns[k].read.WouldBlock? && CancelSeen(turns, k + 1))
    || (turns[k].poll.PollFails? && !CancelSeen(turns, k))
  }

  /** The first turn that ends the drain, or their number. */
  ghost predicate FirstEnd(turns: seq<Turn>, k: nat) {
    && k <= |turns|
    && (forall j: nat | j < k :: !Ends(turns, j))
    && (k < |turns| ==> Ends(turns, k))
  }

  /** The bytes one turn delivers. */
  function Delivered(turn: Turn): Bytes {
    match turn.read case Data(bytes) => bytes case _ => []
  }

  /** All bytes read in the given turns. */
  function DataOf(turns: seq<Turn>): Bytes {
    if turns == [] then []
    else DataOf(turns[..|turns| - 1]) + Delivered(turns[|turns| - 1])
  }

  function Prefix(bytes: Bytes, n: nat): (r: Bytes)
    ensures r <= bytes && |r| == if |bytes| <= n then |bytes| else n
  {
    if |bytes| <= n then bytes else bytes[..n]
  }

  /** The result when turn k is the first to end the drain: the failure of that turn, or the
      first 4096 of all the bytes read before it. */
  function Outcome(turns: seq<Turn>, k: nat): Drained
    requires k <= |turns|
  {
    if k == |turns| then Unfinished
    else if turns[k].poll.PollFails? && !CancelSeen(turns, k) then Failed(turns[k].poll.code)
    else if turns[k].read.Broken? then Failed(turns[k].read.code)
    else Done(Prefix(DataOf(turns[..k]), RETAINED_BYTES))
  }

  /** At most one turn is the first to end the drain, so the method below has one result. */
  lemma FirstEndUnique(turns: seq<Turn>, k: nat, l: nat)
    requires FirstEnd(turns, k) && FirstEnd(turns, l)
    ensures k == l
  {
  }

  /** One more turn adds what it delivers, at the end. */
  lemma DataOfNext(turns: seq<Turn>, n: nat)
    requires n < |turns|
    ensures DataOf(turns[..n + 1]) == DataOf(turns[..n]) + Delivered(turns[n])
  {
    assert turns[..n + 1][..n] == turns[..n];
  }

  lemma CancelNext(turns: seq<Turn>, n: nat)
    requires n < |turns|
    ensures CancelSeen(turns, n + 1) <==> CancelSeen(turns, n) || turns[n].poll == Polled(true)
  {
  }

  lemma StartsEmpty(turns: seq<Turn>)
    ensures DataOf(turns[..0]) == [] && !CancelSeen(turns, 0)
  {
  }

  /** `drain_diagnostics`; `setup` is the failure to make the pipe nonblocking, if any. */
  method DrainDiagnostics(setup: Option<int>, turns: seq<Turn>) returns (r: Drained, ghost end: nat)
    ensures setup.Some? ==> r == Failed(setup.value)
    ensures setup.None? ==> FirstEnd(turns, end) && r == Outcome(turns, end)
    ensures r.Done? ==>
              && end < |turns| && r.retained <= DataOf(turns[..end])
              && |r.retained| == if |DataOf(turns[..end])| <= 4096 then |DataOf(turns[..end])| else 4096
  {
    hide CancelSeen, DataOf;
    if setup.Some? {
      end := 0;
      return Failed(setup.value), end;
    }
    StartsEmpty(turns);
    var retained: Bytes := [];
    var cancelled := false;
    for i := 0 to |turns|
      invariant forall j: nat | j < i :: !Ends(turns, j)
      invariant cancelled == CancelSeen(turns, i)
      invariant retained == Prefix(DataOf(turns[..i]), RETAINED_BYTES)
    {
      end := i;
      var turn := turns[i];
      if !cancelled {
        if turn.poll.PollFails? {
          return Failed(turn.poll.code), end;
        }
        cancelled := turn.poll.cancelled;
      }
      CancelNext(turns, i);
      DataOfNext(turns, i);
      match DiagnosticReadResult(turn.read, cancelled)
      case Err(code) =>
        return Failed(code), end;
      case Ok(None) =>
        return Done(retained), end;
      case Ok(Some(count)) =>
        if count == 0 {
          continue;
        }
        var room := if |retained| <= RETAINED_BYTES then RETAINED_BYTES - |retained| else 0;
        retained := retained + Prefix(turn.read.bytes, room);
    }
    assert turns[..|turns|] == turns;
    end := |turns|;
    r := Unfinished;
  }

  /** Nothing to read now, or nothing more ever. */
  predicate Dry(turn: Turn) {
    turn.read.WouldBlock? || turn.read.Eof? || turn.read.Broken?
  }

  /** Cancellation ends the drain exactly at the first turn, from the poll that sees it on, that has
      nothing to read, whatever any poll would have said. */
  lemma CancellationEndsDrain(turns: seq<Turn>, seen: nat, end: nat)
    requires FirstEnd(turns, end) && seen <= end && seen < |turns|
    requires turns[seen].poll == Polled(true)
    ensures forall k | seen <= k < end :: !Dry(turns[k])
    ensures end < |turns| ==> Dry(turns[end])
  {
    forall k | seen <= k < |turns| ensures Ends(turns, k) <==> Dry(turns[k]) {
      assert CancelSeen(turns, k + 1);
      if turns[k].poll.PollFails? {
        assert k > seen && CancelSeen(turns, k);
      }
    }
  }

  /** The position of the first byte that turn i delivers. */
  function Position(turns: seq<Turn>, i: nat): nat
    requires i <= |turns|
  {
    if i == 0 then 0
    else Position(turns, i - 1) + match turns[i - 1].read case Data(bytes) => |bytes| case _ => 0
  }

  lemma {:induction false} DataLength(turns: seq<Turn>, n: nat)
    requires n <= |turns|
    ensures |DataOf(turns[..n])| == Position(turns, n)
  {
    if n > 0 {
      DataLength(turns, n - 1);
      DataOfNext(turns, n - 1);
    }
  }

  /** What was read, byte by byte: as many bytes as all turns deliver, and each turn's in their order
      after those of the turns before it. */
  lemma {:induction false} ReadBytes(turns: seq<Turn>, n: nat, i: nat)
    requires i < n <= |turns| && turns[i].read.Data?
    ensures |DataOf(turns[..n])| == Position(turns, n) >= Position(turns, i) + |turns[i].read.bytes|
    ensures DataOf(turns[..n])[Position(turns, i)..][..|turns[i].read.bytes|] == turns[i].read.bytes
    decreases n
  {
    hide DataOf;
    DataLength(turns, n);
    DataLength(turns, n - 1);
    DataOfNext(turns, n - 1);
    if i < n - 1 {
      ReadBytes(turns, n - 1, i);
    }
  }

  /** What turn i delivers is part of what was read in any later turns together. */
  lemma {:induction false} DeliveredIsRead(turns: seq<Turn>, i: nat, end: nat)
    requires i < end <= |turns|
    ensures exists after :: DataOf(turns[..end]) == DataOf(turns[..i]) + Delivered(turns[i]) + after
    decreases end
  {
    hide DataOf;
    DataOfNext(turns, end - 1);
    if i == end - 1 {
      assert DataOf(turns[..end]) == DataOf(turns[..i]) + Delivered(turns[i]) + [];
    } else {
      DeliveredIsRead(turns, i, end - 1);
      var start := DataOf(turns[..i]) + Delivered(turns[i]);
      var after :| DataOf(turns[..end - 1]) == start + after;
      assert DataOf(turns[..end]) == start + (after + Delivered(turns[end - 1]));
    }
  }

  /** Cancellation loses nothing that was available: every turn from the poll that saw it to the first
      one with nothing to read is read, and unless the pipe broke the result is the prefix of all
      that, in order. */
  lemma AvailableDataIsRead(turns: seq<Turn>, seen: nat, end: nat, i: nat)
    requires FirstEnd(turns, end) && seen <= end && seen < |turns|
    requires turns[seen].poll == Polled(true)
    requires seen <= i < |turns| && forall k | seen <= k <= i :: !Dry(turns[k])
    ensures i < end
    ensures exists after :: DataOf(turns[..end]) == DataOf(turns[..i]) + Delivered(turns[i]) + after
    ensures end < |turns| && !turns[end].read.Broken? ==>
              Outcome(turns, end) == Done(Prefix(DataOf(turns[..end]), RETAINED_BYTES))
  {
    CancellationEndsDrain(turns, seen, end);
    DeliveredIsRead(turns, i, end);
    if end < |turns| && turns[end].poll.PollFails? {
      assert CancelSeen(turns, end);
    }
  }

  /** Without cancellation only the pipe itself ends the drain. */
  lemma NeverEndsEarly(turns: seq<Turn>, end: nat)
    requires FirstEnd(turns, end) && end < |turns| && !CancelSeen(turns, |turns|)
    ensures turns[end].read.Eof? || turns[end].read.Broken? || turns[end].poll.PollFails?
  {
  }
}
