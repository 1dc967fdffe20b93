/**
  The life cycle of a PacketSource (tinyos3/packet/PacketSource.py): retry
  open until it succeeds, release the readiness semaphore, read and dispatch
  packets until the source is done or the input ends, then close and finish.

  What open, isDone and readPacket do is given by scripts, one entry per
  call; a run whose script runs out stops there (OutOfScript). The calls the
  run makes are recorded as a log of events.
*/
module PacketSource {

  newtype Byte = x: int | 0 <= x < 256

  /** What a call of open does: succeed, raise OSError, or raise something else. */
  datatype OpenResult = Opened | OsError | OtherError

  /**
    What a call of readPacket does: return a packet (possibly empty), return
    None, raise IODone, or raise any other exception.
  */
  datatype ReadResult = Got(packet: seq<Byte>) | NoPacket | IoDone | ReadRaises

  /** The calls a run makes on the source, its semaphore and its dispatcher. */
  datatype Event = OpenAttempt | Sleep | Release | ReadAttempt | Dispatch(packet: seq<Byte>) | Close | Finish

  /** How a run ends: normally, cancelled while opening, by an exception from open or readPacket, or with a script used up. */
  datatype Status = Finished | Cancelled | Raised | OutOfScript

  /** Only packets that are truthy (present and non-empty) are dispatched. */
  predicate Truthy(r: ReadResult) {
    r.Got? && r.packet != []
  }

  // ---------------------------------------------------------------------------
  // The two loops as functions of the scripts

  /** Where the open loop stops, and the parts of the scripts it did not use. */
  datatype OpenRun = OpenRun(events: seq<Event>, end: Status, opensLeft: seq<OpenResult>, donesLeft: seq<bool>)

  /**
    The open loop (lines 65-74): each attempt is logged; OSError is followed
    by isDone, which either finishes the source (the run is cancelled) or
    leads to a sleep and another attempt. `end` is Finished when open
    succeeded.
  */
  function OpenLoop(opens: seq<OpenResult>, dones: seq<bool>): (o: OpenRun)
    ensures |o.opensLeft| <= |opens| && |o.donesLeft| <= |dones|
    decreases |opens|
  {
    if opens == [] then OpenRun([], OutOfScript, opens, dones)
    else match opens[0] {
      case Opened => OpenRun([OpenAttempt], Finished, opens[1..], dones)
      case OtherError => OpenRun([OpenAttempt], Raised, opens[1..], dones)
      case OsError =>
        if dones == [] then OpenRun([OpenAttempt], OutOfScript, opens[1..], dones)
        else if dones[0] then OpenRun([OpenAttempt, Finish], Cancelled, opens[1..], dones[1..])
        else
          var o := OpenLoop(opens[1..], dones[1..]);
          o.(events := [OpenAttempt, Sleep] + o.events)
    }
  }

  /**
    Where the read loop stops: isDone held (Finished), IODone was raised
    (Finished), another exception escaped readPacket (Raised), or a script
    ran out.
  */
  datatype ReadRun = ReadRun(events: seq<Event>, end: Status)

  /**
    The read loop (lines 78-92): while isDone is false, read; IODone ends
    the loop, any other exception leaves __call__ (only IODone is caught), a
    truthy packet is dispatched, anything else is skipped.
  */
  function ReadLoop(dones: seq<bool>, results: seq<ReadResult>): (r: ReadRun)
    ensures r.end == Finished || r.end == Raised || r.end == OutOfScript
    decreases |dones|
  {
    if dones == [] then ReadRun([], OutOfScript)
    else if dones[0] then ReadRun([], Finished)
    else if results == [] then ReadRun([ReadAttempt], OutOfScript)
    else if results[0] == IoDone then ReadRun([ReadAttempt], Finished)
    else if results[0] == ReadRaises then ReadRun([ReadAttempt], Raised)
    else
      var step := if Truthy(results[0]) then [ReadAttempt, Dispatch(results[0].packet)] else [ReadAttempt];
      var r := ReadLoop(dones[1..], results[1..]);
      r.(events := step + r.events)
  }

  datatype Run = Run(events: seq<Event>, status: Status)

  /**
    __call__: the open loop, the release in its finally clause (also when
    open raised or the run was cancelled), then, once open succeeded, the
    read loop followed by close and finish.
  */
  function CallRun(opens: seq<OpenResult>, dones: seq<bool>, results: seq<ReadResult>): (run: Run) {
    var o := OpenLoop(opens, dones);
    if o.end == OutOfScript then Run(o.events, OutOfScript)
    else if o.end != Finished then Run(o.events + [Release], o.end)
    else
      var served := ServeRun(o.donesLeft, results);
      Run(o.events + [Release] + served.events, served.status)
  }

  /**
    What follows a successful open (lines 78-96): the read loop, then close
    and finish, which an exception from readPacket skips.
  */
  function ServeRun(dones: seq<bool>, results: seq<ReadResult>): (served: Run) {
    var r := ReadLoop(dones, results);
    if r.end != Finished then Run(r.events, r.end)
    else Run(r.events + [Close, Finish], Finished)
  }

  // ---------------------------------------------------------------------------
  // The source object

  /**
    A packet source: its readiness semaphore and the calls it has made. The
    outcomes of open, isDone and readPacket are the scripts passed to Call.
  */
  class Source {
    /** The count of the readiness semaphore. */
    var semaphore: int
    /** The calls made so far. */
    var events: seq<Event>

    /** __init__ (lines 56-61): a semaphore of 1 that is acquired at once. */
    constructor ()
      ensures semaphore == 0 && events == []
    {
      semaphore := 1;
      events := [];
      new;
      semaphore := semaphore - 1;
    }

    /** The open loop of __call__ (lines 65-74), logging each call it makes. */
    method OpenWithRetry(opens: seq<OpenResult>, dones: seq<bool>)
        returns (end: Status, opensLeft: seq<OpenResult>, donesLeft: seq<bool>)
      modifies this`events
      ensures var o := OpenLoop(opens, dones);
        end == o.end && events == old(events) + o.events &&
        opensLeft == o.opensLeft && donesLeft == o.donesLeft
    {
      opensLeft, donesLeft := opens, dones;
      ghost var log: seq<Event> := [];
      assert log + OpenLoop(opens, dones).events == OpenLoop(opens, dones).events;
      while opensLeft != [] && opensLeft[0] == OsError && donesLeft != [] && !donesLeft[0]
        invariant events == old(events) + log
        invariant Continues(OpenLoop(opens, dones), log, OpenLoop(opensLeft, donesLeft))
        decreases |opensLeft|
      {
        RetryStep(opens, dones, log, opensLeft, donesLeft);
        events := events + [OpenAttempt, Sleep];
        log := log + [OpenAttempt, Sleep];
        opensLeft, donesLeft := opensLeft[1..], donesLeft[1..];
      }
      ghost var rest := OpenLoop(opensLeft, donesLeft);
      end, opensLeft, donesLeft := LastAttempt(opensLeft, donesLeft);
      Assoc(old(events), log, rest.events);
    }

    /** The attempt that ends the open loop: success, another exception, or OSError while done. */
    method LastAttempt(opens: seq<OpenResult>, dones: seq<bool>)
        returns (end: Status, opensLeft: seq<OpenResult>, donesLeft: seq<bool>)
      requires !(opens != [] && opens[0] == OsError && dones != [] && !dones[0])
      modifies this`events
      ensures var o := OpenLoop(opens, dones);
        end == o.end && events == old(events) + o.events &&
        opensLeft == o.opensLeft && donesLeft == o.donesLeft
    {
      if opens == [] {
        return OutOfScript, opens, dones;
      }
      opensLeft, donesLeft := opens[1..], dones;
      events := events + [OpenAttempt];
      if opens[0] == Opened {
        end := Finished;
      } else if opens[0] == OtherError {
        end := Raised;
      } else if dones == [] {
        end := OutOfScript;
      } else {
        donesLeft := dones[1..];
        events := events + [Finish];
        end := Cancelled;
      }
    }

    /** The read loop of __call__ (lines 78-92), logging each call it makes. */
    method ReadUntilDone(dones: seq<bool>, results: seq<ReadResult>) returns (end: Status)
      modifies this`events
      ensures var r := ReadLoop(dones, results);
        end == r.end && events == old(events) + r.events
    {
      var donesLeft, resultsLeft := dones, results;
      ghost var log: seq<Event> := [];
      while donesLeft != [] && !donesLeft[0] && resultsLeft != [] && resultsLeft[0] != IoDone && resultsLeft[0] != ReadRaises
        invariant events == old(events) + log
        invariant ReadLoop(dones, results) == ReadRun(log + ReadLoop(donesLeft, resultsLeft).events, ReadLoop(donesLeft, resultsLeft).end)
        decreases |donesLeft|
      {
        var result := resultsLeft[0];
        var step := if Truthy(result) then [ReadAttempt, Dispatch(result.packet)] else [ReadAttempt];
        ReadStep(dones, results, log, donesLeft, resultsLeft, step);
        events := events + step;
        log := log + step;
        donesLeft, resultsLeft := donesLeft[1..], resultsLeft[1..];
      }
      if donesLeft == [] {
        end := OutOfScript;
      } else if donesLeft[0] {
        end := Finished;
      } else {
        events := events + [ReadAttempt];
        end := if resultsLeft == [] then OutOfScript else if resultsLeft[0] == ReadRaises then Raised else Finished;
      }
    }

    /**
      __call__ (lines 63-96) against the given scripts; the semaphore count
      goes up by the number of releases the run makes.
    */
    method Call(opens: seq<OpenResult>, dones: seq<bool>, results: seq<ReadResult>) returns (status: Status)
      modifies this
      ensures var run := CallRun(opens, dones, results);
        status == run.status && events == old(events) + run.events &&
        semaphore == old(semaphore) + Count(run.events, Release)
    {
      ReleaseCount(opens, dones, results);
      var end, _, donesLeft := OpenWithRetry(opens, dones);
      if end == OutOfScript {
        return end;
      }
      semaphore := semaphore + 1;
      events := events + [Release];
      if end == Finished {
        end := Serve(donesLeft, results);
      }
      return end;
    }

    /** Reading and dispatching until done, then close and finish (lines 78-96). */
    method Serve(dones: seq<bool>, results: seq<ReadResult>) returns (status: Status)
      modifies this`events
      ensures var served := ServeRun(dones, results);
        status == served.status && events == old(events) + served.events
    {
      status := ReadUntilDone(dones, results);
      if status == Finished {
        events := events + [Close, Finish];
      }
    }
  }

  lemma Assoc(a: seq<Event>, b: seq<Event>, c: seq<Event>)
    ensures a + b + c == a + (b + c)
  {
  }

  /** The open loop run `o` is the calls in `log` followed by the run `rest`. */
  predicate Continues(o: OpenRun, log: seq<Event>, rest: OpenRun) {
    o == OpenRun(log + rest.events, rest.end, rest.opensLeft, rest.donesLeft)
  }

  lemma RetryStep(opens: seq<OpenResult>, dones: seq<bool>, log: seq<Event>, opensLeft: seq<OpenResult>, donesLeft: seq<bool>)
    requires opensLeft != [] && opensLeft[0] == OsError && donesLeft != [] && !donesLeft[0]
    requires Continues(OpenLoop(opens, dones), log, OpenLoop(opensLeft, donesLeft))
    ensures Continues(OpenLoop(opens, dones), log + [OpenAttempt, Sleep], OpenLoop(opensLeft[1..], donesLeft[1..]))
  {
    var rest := OpenLoop(opensLeft[1..], donesLeft[1..]);
    assert OpenLoop(opensLeft, donesLeft).events == [OpenAttempt, Sleep] + rest.events;
    assert log + ([OpenAttempt, Sleep] + rest.events) == log + [OpenAttempt, Sleep] + rest.events;
  }

  lemma ReadStep(dones: seq<bool>, results: seq<ReadResult>, log: seq<Event>, donesLeft: seq<bool>, resultsLeft: seq<ReadResult>, step: seq<Event>)
    requires donesLeft != [] && !donesLeft[0] && resultsLeft != [] && resultsLeft[0] != IoDone && resultsLeft[0] != ReadRaises
    requires step == if Truthy(resultsLeft[0]) then [ReadAttempt, Dispatch(resultsLeft[0].packet)] else [ReadAttempt]
    requires ReadLoop(dones, results) == ReadRun(log + ReadLoop(donesLeft, resultsLeft).events, ReadLoop(donesLeft, resultsLeft).end)
    ensures ReadLoop(dones, results) == ReadRun(log + step + ReadLoop(donesLeft[1..], resultsLeft[1..]).events, ReadLoop(donesLeft[1..], resultsLeft[1..]).end)
  {
    var rest := ReadLoop(donesLeft[1..], resultsLeft[1..]);
    assert ReadLoop(donesLeft, resultsLeft).events == step + rest.events;
    assert log + (step + rest.events) == log + step + rest.events;
  }

  // ---------------------------------------------------------------------------
  // Properties of a run

  function Count(events: seq<Event>, e: Event): nat {
    if events == [] then 0 else (if events[0] == e then 1 else 0) + Count(events[1..], e)
  }

  lemma {:induction false} CountAppend(a: seq<Event>, b: seq<Event>, e: Event)
    ensures Count(a + b, e) == Count(a, e) + Count(b, e)
    decreases |a|
  {
    if a == [] {
      assert a + b == b;
    } else {
      assert (a + b)[1..] == a[1..] + b;
      CountAppend(a[1..], b, e);
    }
  }

  function Repeat<T>(x: T, n: nat): (s: seq<T>)
    ensures |s| == n && forall i :: 0 <= i < n ==> s[i] == x
  {
    seq(n, _ => x)
  }

  /** k refused opens, with isDone false each time, then a successful one. */
  lemma {:induction false} OpenRetries(k: nat, opens: seq<OpenResult>, dones: seq<bool>)
    requires |opens| > k && |dones| >= k
    requires forall i :: 0 <= i < k ==> opens[i] == OsError && !dones[i]
    requires opens[k] == Opened
    ensures var o := OpenLoop(opens, dones);
      o.end == Finished && o.donesLeft == dones[k..] &&
      Count(o.events, OpenAttempt) == k + 1 && Count(o.events, Sleep) == k &&
      Count(o.events, Release) == 0 && Count(o.events, Finish) == 0
    decreases k
  {
    var o := OpenLoop(opens, dones);
    if k == 0 {
      assert o.events == [OpenAttempt];
      assert [OpenAttempt][1..] == [];
    } else {
      OpenRetries(k - 1, opens[1..], dones[1..]);
      var o' := OpenLoop(opens[1..], dones[1..]);
      assert o.events == [OpenAttempt, Sleep] + o'.events;
      CountAppend([OpenAttempt, Sleep], o'.events, OpenAttempt);
      CountAppend([OpenAttempt, Sleep], o'.events, Sleep);
      CountAppend([OpenAttempt, Sleep], o'.events, Release);
      CountAppend([OpenAttempt, Sleep], o'.events, Finish);
      assert dones[1..][k - 1..] == dones[k..];
    }
  }

  /**
    If open fails k times and then succeeds with no cancellation, open is
    attempted k + 1 times and there are k sleeps, whatever the read loop does.
  */
  lemma RetryCount(k: nat, opens: seq<OpenResult>, dones: seq<bool>, results: seq<ReadResult>)
    requires |opens| > k && |dones| >= k
    requires forall i :: 0 <= i < k ==> opens[i] == OsError && !dones[i]
    requires opens[k] == Opened
    ensures var run := CallRun(opens, dones, results);
      Count(run.events, OpenAttempt) == k + 1 && Count(run.events, Sleep) == k
  {
    OpenRetries(k, opens, dones);
    var o := OpenLoop(opens, dones);
    var served := ServeRun(o.donesLeft, results);
    ServeCount(o.donesLeft, results);
    CountAppend(o.events, [Release], OpenAttempt);
    CountAppend(o.events, [Release], Sleep);
    CountAppend(o.events + [Release], served.events, OpenAttempt);
    CountAppend(o.events + [Release], served.events, Sleep);
  }

  /** After open, only reads, dispatches and (if the loop ended) one close and one finish take place. */
  lemma ServeCount(dones: seq<bool>, results: seq<ReadResult>)
    ensures var served := ServeRun(dones, results);
      Count(served.events, OpenAttempt) == 0 && Count(served.events, Sleep) == 0 &&
      Count(served.events, Release) == 0 &&
      Count(served.events, Close) == (if served.status == Finished then 1 else 0) &&
      Count(served.events, Finish) == (if served.status == Finished then 1 else 0)
  {
    var r := ReadLoop(dones, results);
    NoOpenInReadLoop(dones, results);
    if r.end == Finished {
      CountAppend(r.events, [Close, Finish], OpenAttempt);
      CountAppend(r.events, [Close, Finish], Sleep);
      CountAppend(r.events, [Close, Finish], Release);
      CountAppend(r.events, [Close, Finish], Close);
      CountAppend(r.events, [Close, Finish], Finish);
      assert [Close, Finish][1..] == [Finish] && [Finish][1..] == [];
    }
  }

  /** The read loop calls neither open nor sleep, nor releases, closes or finishes. */
  lemma {:induction false} NoOpenInReadLoop(dones: seq<bool>, results: seq<ReadResult>)
    ensures var r := ReadLoop(dones, results);
      Count(r.events, OpenAttempt) == 0 && Count(r.events, Sleep) == 0 && Count(r.events, Release) == 0 &&
      Count(r.events, Close) == 0 && Count(r.events, Finish) == 0
    decreases |dones|
  {
    if dones != [] && !dones[0] && results != [] && results[0] != IoDone && results[0] != ReadRaises {
      NoOpenInReadLoop(dones[1..], results[1..]);
      var step := if Truthy(results[0]) then [ReadAttempt, Dispatch(results[0].packet)] else [ReadAttempt];
      var r := ReadLoop(dones[1..], results[1..]);
      CountAppend(step, r.events, OpenAttempt);
      CountAppend(step, r.events, Sleep);
      CountAppend(step, r.events, Release);
      CountAppend(step, r.events, Close);
      CountAppend(step, r.events, Finish);
    }
  }

  /** The scenario of tests/test_packetsource.py: two refused opens, then success, then IODone. */
  lemma FlakySourceRun()
    ensures var run := CallRun([OsError, OsError, Opened], [false, false, false], [IoDone]);
      run.status == Finished &&
      run.events == [OpenAttempt, Sleep, OpenAttempt, Sleep, OpenAttempt, Release, ReadAttempt, Close, Finish]
  {
    var opens: seq<OpenResult> := [OsError, OsError, Opened];
    var dones := [false, false, false];
    assert opens[1..] == [OsError, Opened] && opens[1..][1..] == [Opened];
    assert dones[1..] == [false, false] && dones[1..][1..] == [false];
    assert OpenLoop(opens, dones).donesLeft == [false];
  }

  /** A failed open while isDone holds finishes and releases, and nothing is read, dispatched or closed. */
  lemma {:induction false} CancelledRun(opens: seq<OpenResult>, dones: seq<bool>, results: seq<ReadResult>)
    requires CallRun(opens, dones, results).status == Cancelled
    ensures var run := CallRun(opens, dones, results);
      run.events[|run.events| - 2..] == [Finish, Release] &&
      Count(run.events, ReadAttempt) == 0 && Count(run.events, Close) == 0 &&
      (forall i :: 0 <= i < |run.events| ==> !run.events[i].Dispatch?)
    decreases |opens|
  {
    CancelledFromOpen(opens, dones, results);
    CancelledOpen(opens, dones);
    var o := OpenLoop(opens, dones);
    CountAppend(o.events, [Release], ReadAttempt);
    CountAppend(o.events, [Release], Close);
  }

  /** Only the open loop cancels a run, and a cancelled run is that loop followed by the release. */
  lemma CancelledFromOpen(opens: seq<OpenResult>, dones: seq<bool>, results: seq<ReadResult>)
    ensures CallRun(opens, dones, results).status == Cancelled <==> OpenLoop(opens, dones).end == Cancelled
    ensures OpenLoop(opens, dones).end == Cancelled ==>
      CallRun(opens, dones, results).events == OpenLoop(opens, dones).events + [Release]
  {
  }

  lemma {:induction false} CancelledOpen(opens: seq<OpenResult>, dones: seq<bool>)
    requires OpenLoop(opens, dones).end == Cancelled
    ensures var o := OpenLoop(opens, dones);
      |o.events| >= 2 && o.events[|o.events| - 1] == Finish &&
      Count(o.events, ReadAttempt) == 0 && Count(o.events, Close) == 0 &&
      (forall i :: 0 <= i < |o.events| ==> !o.events[i].Dispatch?)
    decreases |opens|
  {
    var o := OpenLoop(opens, dones);
    if opens[0] == OsError && dones != [] && !dones[0] {
      CancelledOpen(opens[1..], dones[1..]);
      var o' := OpenLoop(opens[1..], dones[1..]);
      CountAppend([OpenAttempt, Sleep], o'.events, ReadAttempt);
      CountAppend([OpenAttempt, Sleep], o'.events, Close);
      assert o.events == [OpenAttempt, Sleep] + o'.events;
    } else {
      assert o.events == [OpenAttempt, Finish];
      assert [OpenAttempt, Finish][1..] == [Finish] && [Finish][1..] == [];
    }
  }

  /** A run releases the semaphore once, unless its open loop ran out of script. */
  lemma ReleaseCount(opens: seq<OpenResult>, dones: seq<bool>, results: seq<ReadResult>)
    ensures Count(CallRun(opens, dones, results).events, Release) ==
      if OpenLoop(opens, dones).end == OutOfScript then 0 else 1
  {
    var o := OpenLoop(opens, dones);
    NoReleaseInOpenLoop(opens, dones);
    if o.end != OutOfScript {
      CountAppend(o.events, [Release], Release);
      assert [Release][1..] == [];
      if o.end == Finished {
        ServeCount(o.donesLeft, results);
        CountAppend(o.events + [Release], ServeRun(o.donesLeft, results).events, Release);
      }
    }
  }

  lemma {:induction false} NoReleaseInOpenLoop(opens: seq<OpenResult>, dones: seq<bool>)
    ensures Count(OpenLoop(opens, dones).events, Release) == 0
    decreases |opens|
  {
    if opens != [] && opens[0] == OsError && dones != [] && !dones[0] {
      NoReleaseInOpenLoop(opens[1..], dones[1..]);
      CountAppend([OpenAttempt, Sleep], OpenLoop(opens[1..], dones[1..]).events, Release);
    }
  }

  /** The packets the read loop dispatches: the truthy ones it read, in the order read. */
  function Dispatched(events: seq<Event>): seq<seq<Byte>> {
    if events == [] then []
    else (if events[0].Dispatch? then [events[0].packet] else []) + Dispatched(events[1..])
  }

  lemma {:induction false} DispatchedAppend(a: seq<Event>, b: seq<Event>)
    ensures Dispatched(a + b) == Dispatched(a) + Dispatched(b)
    decreases |a|
  {
    if a == [] {
      assert a + b == b;
    } else {
      assert (a + b)[1..] == a[1..] + b;
      DispatchedAppend(a[1..], b);
    }
  }

  /** The packets among the given read results that are truthy, in order. */
  function TruthyPackets(results: seq<ReadResult>): seq<seq<Byte>> {
    if results == [] then []
    else (if Truthy(results[0]) then [results[0].packet] else []) + TruthyPackets(results[1..])
  }

  /**
    The read loop dispatches exactly the truthy packets among the results it
    read, each once and in order; it reads until isDone holds or IODone is raised.
  */
  lemma {:induction false} DispatchesTruthyInOrder(dones: seq<bool>, results: seq<ReadResult>, n: nat)
    requires n <= |results| && n < |dones|
    requires forall i :: 0 <= i < n ==> !dones[i] && results[i] != IoDone && results[i] != ReadRaises
    requires dones[n] || (n < |results| && results[n] == IoDone)
    ensures var r := ReadLoop(dones, results);
      r.end == Finished && Dispatched(r.events) == TruthyPackets(results[..n]) &&
      Count(r.events, ReadAttempt) == if dones[n] then n else n + 1
    decreases n
  {
    var r := ReadLoop(dones, results);
    if n == 0 {
      if !dones[0] {
        assert r.events == [ReadAttempt];
        assert [ReadAttempt][1..] == [];
      }
    } else {
      DispatchesTruthyInOrder(dones[1..], results[1..], n - 1);
      var step := if Truthy(results[0]) then [ReadAttempt, Dispatch(results[0].packet)] else [ReadAttempt];
      var r' := ReadLoop(dones[1..], results[1..]);
      assert r.events == step + r'.events;
      DispatchedAppend(step, r'.events);
      CountAppend(step, r'.events, ReadAttempt);
      assert results[1..][..n - 1] == results[..n][1..];
      ReadStepEvents(results[0]);
    }
  }

  /** The calls one read makes: one read attempt, and a dispatch exactly when the result is truthy. */
  lemma ReadStepEvents(result: ReadResult)
    ensures var step := if Truthy(result) then [ReadAttempt, Dispatch(result.packet)] else [ReadAttempt];
      Dispatched(step) == (if Truthy(result) then [result.packet] else []) &&
      Count(step, ReadAttempt) == 1
  {
    if Truthy(result) {
      var last := [Dispatch(result.packet)];
      assert last[1..] == [];
      assert Dispatched(last) == [result.packet] && Count(last, ReadAttempt) == 0;
      var step := [ReadAttempt, Dispatch(result.packet)];
      assert step[1..] == last;
      assert Dispatched(step) == Dispatched(last);
      assert Count(step, ReadAttempt) == 1 + Count(last, ReadAttempt);
    } else {
      assert [ReadAttempt][1..] == [];
      assert Dispatched([ReadAttempt]) == [] + Dispatched([]);
    }
  }

  /** After a read loop that ended, close and finish each run exactly once, as the last two calls. */
  lemma CloseAndFinishOnce(opens: seq<OpenResult>, dones: seq<bool>, results: seq<ReadResult>)
    requires CallRun(opens, dones, results).status == Finished
    ensures var run := CallRun(opens, dones, results);
      run.events[|run.events| - 2..] == [Close, Finish] &&
      Count(run.events, Close) == 1 && Count(run.events, Finish) == 1
  {
    var o := OpenLoop(opens, dones);
    NoFinishInSuccessfulOpen(opens, dones);
    var served := ServeRun(o.donesLeft, results);
    ServeCount(o.donesLeft, results);
    CountAppend(o.events, [Release], Close);
    CountAppend(o.events, [Release], Finish);
    CountAppend(o.events + [Release], served.events, Close);
    CountAppend(o.events + [Release], served.events, Finish);
    var r := ReadLoop(o.donesLeft, results);
    assert o.events + [Release] + served.events == (o.events + [Release] + r.events) + [Close, Finish];
  }

  /**
    An exception from readPacket other than IODone leaves __call__ after the
    release: the run ends Raised, having released once and called neither
    close nor finish.
  */
  lemma ReadRaiseSkipsClose(opens: seq<OpenResult>, dones: seq<bool>, results: seq<ReadResult>)
    requires OpenLoop(opens, dones).end == Finished
    requires ReadLoop(OpenLoop(opens, dones).donesLeft, results).end == Raised
    ensures var run := CallRun(opens, dones, results);
      run.status == Raised && run.events[|run.events| - 1] == ReadAttempt &&
      Count(run.events, Release) == 1 && Count(run.events, Close) == 0 && Count(run.events, Finish) == 0
  {
    var o := OpenLoop(opens, dones);
    var r := ReadLoop(o.donesLeft, results);
    ReadRaiseEndsWithRead(o.donesLeft, results);
    NoFinishInSuccessfulOpen(opens, dones);
    NoOpenInReadLoop(o.donesLeft, results);
    ReleaseCount(opens, dones, results);
    CountAppend(o.events, [Release], Close);
    CountAppend(o.events, [Release], Finish);
    CountAppend(o.events + [Release], r.events, Close);
    CountAppend(o.events + [Release], r.events, Finish);
  }

  /** A read loop that raised stopped at the read attempt that raised. */
  lemma {:induction false} ReadRaiseEndsWithRead(dones: seq<bool>, results: seq<ReadResult>)
    requires ReadLoop(dones, results).end == Raised
    ensures var r := ReadLoop(dones, results); |r.events| > 0 && r.events[|r.events| - 1] == ReadAttempt
    decreases |dones|
  {
    if results[0] != ReadRaises {
      ReadRaiseEndsWithRead(dones[1..], results[1..]);
    }
  }

  lemma {:induction false} NoFinishInSuccessfulOpen(opens: seq<OpenResult>, dones: seq<bool>)
    requires OpenLoop(opens, dones).end == Finished
    ensures Count(OpenLoop(opens, dones).events, Close) == 0 && Count(OpenLoop(opens, dones).events, Finish) == 0
    decreases |opens|
  {
    if opens[0] == Opened {
      assert OpenLoop(opens, dones).events == [OpenAttempt];
      assert [OpenAttempt][1..] == [];
    } else {
      NoFinishInSuccessfulOpen(opens[1..], dones[1..]);
      CountAppend([OpenAttempt, Sleep], OpenLoop(opens[1..], dones[1..]).events, Close);
      CountAppend([OpenAttempt, Sleep], OpenLoop(opens[1..], dones[1..]).events, Finish);
    }
  }

  /**
    The base class: open does nothing (succeeds), readPacket returns None.
    Its run opens once, reads while isDone is false without dispatching
    anything, then closes and finishes.
  */
  lemma {:induction false} BaseSourceRun(n: nat)
    ensures var run := CallRun([Opened], Repeat(false, n) + [true], Repeat(NoPacket, n));
      run.status == Finished &&
      run.events == [OpenAttempt, Release] + Repeat(ReadAttempt, n) + [Close, Finish]
  {
    var dones := Repeat(false, n) + [true];
    assert OpenLoop([Opened], dones) == OpenRun([OpenAttempt], Finished, [], dones);
    BaseReadLoop(n);
  }

  lemma {:induction false} BaseReadLoop(n: nat)
    ensures ReadLoop(Repeat(false, n) + [true], Repeat(NoPacket, n)) == ReadRun(Repeat(ReadAttempt, n), Finished)
    decreases n
  {
    if n == 0 {
      assert Repeat(false, 0) + [true] == [true];
    } else {
      var dones := Repeat(false, n) + [true];
      assert dones[1..] == Repeat(false, n - 1) + [true];
      assert Repeat(NoPacket, n)[1..] == Repeat(NoPacket, n - 1);
      BaseReadLoop(n - 1);
      assert Repeat(ReadAttempt, n) == [ReadAttempt] + Repeat(ReadAttempt, n - 1);
    }
  }
}
