/** The command-line front end: open the driver, read one buffer of process data through
    WIC_ReadIOData on the default board, close the driver in a `finally`, and return a code. */
module FlsCli {

  import opened Wrappers
  import opened Bytes
  import opened Driver
  import opened Cifx
  import opened Console

  /** How `main` ends. `OpenFailed`: `xDriverOpen` failed and `sys.exit(1)` left before the
      `try`. `Returned(code)`: `main` returned `return_code`. `StillRunning`: the read loop is
      still polling when the key script runs out. */
  datatype CliOutcome = OpenFailed | Returned(code: int) | StillRunning

  /** The exit status of `sys.exit(1)`. */
  const EXIT_OPEN_FAILED: int := 1
  /** `exit_code` of the disabled `__main__` block when its bare `except:` catches an exception,
      the `SystemExit` of `sys.exit(1)` included. */
  const EXIT_CAUGHT: int := 4
  /** `return_code` after an exception in the read. */
  const RETURN_READ_FAILED: int := 2

  /** `main()`: `keys` are the key polls of the read loop. */
  function CliMainSpec(keys: seq<KeyPoll>, o: Oracle): Run<CliOutcome>
  {
    var h := o.Handle();
    var e := Event(Call.DriverOpen(h), o.Answer());
    var o1 := o.NextOpen();
    if o.Answer() != CIFX_NO_ERROR then Run(OpenFailed, [e], o1)
    else
      var read := ReadIODataSpec(h, DEFAULT_BOARD, DEFAULT_IO_TIMEOUT, keys, o1);
      if read.result.Polling? then Run(StillRunning, [e] + read.events, read.after)
      else
        var code := if read.result.Raised? then RETURN_READ_FAILED else 0;
        if h != 0 then
          Run(Returned(code), [e] + read.events + [Event(DriverClose(h), read.after.Answer())], read.after.Next())
        else Run(Returned(code), [e] + read.events, read.after)
  }

  method CliMain(dll: CifXDll, keys: seq<KeyPoll>) returns (outcome: CliOutcome)
    modifies dll
    ensures var r := CliMainSpec(keys, old(dll.oracle));
      outcome == r.result && dll.oracle == r.after && dll.trace == old(dll.trace) + r.events
  {
    ghost var t0 := dll.trace;
    var returnCode := 0;
    var code, hDriver := dll.DriverOpen();
    ghost var e := Event(Call.DriverOpen(hDriver), code);
    if code != CIFX_NO_ERROR {
      return OpenFailed;
    }
    ghost var o1 := dll.oracle;
    var read, _ := ReadIOData(dll, hDriver, DEFAULT_BOARD, DEFAULT_IO_TIMEOUT, keys);
    ghost var r := ReadIODataSpec(hDriver, DEFAULT_BOARD, DEFAULT_IO_TIMEOUT, keys, o1);
    AppendAssoc(t0, [e], r.events);
    if read.Polling? {
      return StillRunning;
    }
    if read.Raised? {
      returnCode := RETURN_READ_FAILED;
    }
    if hDriver != 0 {
      ghost var close := Event(DriverClose(hDriver), dll.oracle.Answer());
      var _ := dll.Invoke(DriverClose(hDriver));
      AppendAssoc(t0, [e] + r.events, [close]);
    }
    return Returned(returnCode);
  }

  /** The driver lifecycle of `main`: a failed open exits with status 1 before any read; after
      a good open the read is attempted on the board `cifX0` (its first call opens channel 0
      through the driver handle); the code is 2 exactly when the read raised and 0 otherwise;
      and the driver is closed, once and as the last call, exactly when `main` gets to its
      `finally` with a non-NULL handle. */
  lemma CliLifecycle(keys: seq<KeyPoll>, o: Oracle)
    ensures var r := CliMainSpec(keys, o);
      var h := o.Handle();
      var read := ReadIODataSpec(h, DEFAULT_BOARD, DEFAULT_IO_TIMEOUT, keys, o.NextOpen());
      && (r.result == OpenFailed <==> o.Answer() != CIFX_NO_ERROR)
      && (r.result == OpenFailed ==> |r.events| == 1 && !OpensChannel(r.events))
      && (o.Answer() == CIFX_NO_ERROR ==>
            |r.events| >= 2 && r.events[1].call == Call.ChannelOpen(ByRef(h), DEFAULT_BOARD, 0, o.NextOpen().Handle()))
      && (r.result == Returned(RETURN_READ_FAILED) <==> o.Answer() == CIFX_NO_ERROR && read.result.Raised?)
      && (r.result == Returned(0) <==> o.Answer() == CIFX_NO_ERROR && !read.result.Raised? && !read.result.Polling?)
      && (ClosesDriver(r.events) <==> r.result.Returned? && h != 0)
      && (ClosesDriver(r.events) ==> r.events[|r.events| - 1].call == DriverClose(h))
  {
    var r := CliMainSpec(keys, o);
    var h := o.Handle();
    var e := Event(Call.DriverOpen(h), o.Answer());
    var o1 := o.NextOpen();
    if o.Answer() != CIFX_NO_ERROR {
      assert r.events == [e];
      assert !ClosesDriver(r.events) && !OpensChannel(r.events) by {
        assert forall i :: 0 <= i < |r.events| ==> r.events[i] == e;
      }
    } else {
      var read := ReadIODataSpec(h, DEFAULT_BOARD, DEFAULT_IO_TIMEOUT, keys, o1);
      ReadIODataChannelCalls(h, DEFAULT_BOARD, DEFAULT_IO_TIMEOUT, keys, o1);
      ChannelCalls(read.events);
      assert !ClosesDriver([e]) by {
        assert forall i :: 0 <= i < |[e]| ==> [e][i] == e;
      }
      CallsAppend([e], read.events);
      assert ([e] + read.events)[1] == read.events[0];
      if r.result.Returned? && h != 0 {
        var close := Event(DriverClose(h), read.after.Answer());
        assert ClosesDriver([close]) by {
          assert [close][0] == close;
        }
        CallsAppend([e] + read.events, [close]);
      }
    }
  }

  // ---------------------------------------------------------------------------
  // The process exit status.

  /** The exit status of the process as the script is written: a failed open leaves through
      `sys.exit(1)`; `__main__` calls `main()` and drops what it returns, so every return exits
      with status 0. `None`: still running. */
  function ExitStatusAsWritten(outcome: CliOutcome): (s: Option<int>)
    ensures s.Some? <==> !outcome.StillRunning?
    ensures outcome.OpenFailed? ==> s == Some(EXIT_OPEN_FAILED)
    ensures outcome.Returned? ==> s == Some(0)
  {
    match outcome
    case OpenFailed => Some(EXIT_OPEN_FAILED)
    case Returned(_) => Some(0)
    case StillRunning => None
  }

  /** The exit status of the disabled `__main__` block, which exits with `main()`'s result.
      Its bare `except:` also catches the `SystemExit` that `sys.exit(1)` raises on a failed
      open, so that ending exits with status 4. */
  function ExitStatus(outcome: CliOutcome): (s: Option<int>)
    ensures s.Some? <==> !outcome.StillRunning?
    ensures outcome.OpenFailed? ==> s == Some(EXIT_CAUGHT)
    ensures outcome.Returned? ==> s == Some(outcome.code)
  {
    match outcome
    case OpenFailed => Some(EXIT_CAUGHT)
    case Returned(code) => Some(code)
    case StillRunning => None
  }

  /** As written, a read that raised ends the process with status 0, as a good read does. */
  lemma ReadFailureExitsZeroAsWritten(keys: seq<KeyPoll>, o: Oracle)
    requires o.Answer() == CIFX_NO_ERROR
    requires ReadIODataSpec(o.Handle(), DEFAULT_BOARD, DEFAULT_IO_TIMEOUT, keys, o.NextOpen()).result.Raised?
    ensures var r := CliMainSpec(keys, o);
      r.result == Returned(RETURN_READ_FAILED) && ExitStatusAsWritten(r.result) == Some(0)
  {
  }

  /** A run in which that happens: the driver opens, the read fails and the key `w` raises. */
  lemma ReadFailureExitsZeroWitness()
    ensures var o := Oracle([0, 0, 0, 0, -1], [1, 2], [], [], []);
      var r := CliMainSpec([Pressed('w' as Byte)], o);
      r.result == Returned(RETURN_READ_FAILED) && ExitStatusAsWritten(r.result) == Some(0)
  {
    var o := Oracle([0, 0, 0, 0, -1], [1, 2], [], [], []);
    var o1 := o.NextOpen();
    assert OpenChannelSpec(1, DEFAULT_BOARD, o1).result == Some(2);
    assert KeyActionOf('w' as Byte) == Raise(WriteBranchError);
  }

  /** With the exit status of the disabled block, the status tells the three endings apart:
      4 when the driver did not open, 2 when the read raised, 0 otherwise. */
  lemma ExitStatusReportsFailure(keys: seq<KeyPoll>, o: Oracle)
    ensures var r := CliMainSpec(keys, o);
      var read := ReadIODataSpec(o.Handle(), DEFAULT_BOARD, DEFAULT_IO_TIMEOUT, keys, o.NextOpen());
      && (ExitStatus(r.result) == Some(EXIT_CAUGHT) <==> o.Answer() != CIFX_NO_ERROR)
      && (ExitStatus(r.result) == Some(RETURN_READ_FAILED) <==> o.Answer() == CIFX_NO_ERROR && read.result.Raised?)
      && (ExitStatus(r.result) == Some(0) <==>
            o.Answer() == CIFX_NO_ERROR && !read.result.Raised? && !read.result.Polling?)
  {
    CliLifecycle(keys, o);
  }
}
