/** The foreign libraries the Profibus code calls through ctypes (cifX32dll.dll and
    winmm.dll), modelled as a scripted oracle: every call takes the next return code
    from a script and is appended, with that code, to a trace of calls. Also a
    reference state machine for one channel session, against which traces are judged. */
module Driver {
  import opened Bytes

  /** `CIFX_NO_ERROR`. */
  const CIFX_NO_ERROR: Int32 := 0
  /** `CIFX_NO_MORE_ENTRIES`: 0x800A0014 reinterpreted as a signed 32-bit value. */
  const CIFX_NO_MORE_ENTRIES: Int32 := ToInt32(0x800A0014)
  const CIFX_HOST_STATE_READY: nat := 1
  const CIFX_BUS_STATE_ON: nat := 1
  /** `TIMERR_NOERROR` of winmm. */
  const TIMERR_NOERROR: Int32 := 0

  /** The driver argument of `xChannelOpen`: the handle itself, or the address of the
      variable holding it (`ctypes.byref(hDriver)`), which is what the program passes. */
  datatype DriverArg = ByValue(h: nat) | ByRef(h: nat)

  /** A foreign call with its arguments. Handles are numbers, 0 standing for NULL; for the
      two open calls, `handle` is what the library wrote to the out-parameter. */
  datatype Call =
    | DriverOpen(handle: nat)
    | DriverGetInformation(driver: nat)
    | DriverEnumBoards(driver: nat, board: nat)
    | DriverEnumChannels(driver: nat, board: nat, channel: nat)
    | DriverClose(driver: nat)
    | ChannelOpen(driverArg: DriverArg, boardName: string, channel: nat, handle: nat)
    | ChannelHostState(device: nat, state: nat, timeout: nat)
    | ChannelBusState(device: nat, state: nat, timeout: nat)
    | ChannelIORead(device: nat, area: nat, offset: nat, length: nat, timeout: nat)
    | ChannelIOWrite(device: nat, area: nat, offset: nat, data: seq<Byte>, timeout: nat)
    | ChannelClose(device: nat)
    | TimeGetDevCaps
    | TimeBeginPeriod(period: nat)
    | TimeEndPeriod(period: nat)

  /** The calls on a channel handle (the `xChannel*` functions). */
  predicate IsChannelCall(c: Call)
  {
    c.ChannelOpen? || c.ChannelHostState? || c.ChannelBusState? || c.ChannelIORead? || c.ChannelIOWrite? || c.ChannelClose?
  }

  /** A call together with the code it returned. */
  datatype Event = Event(call: Call, code: Int32)

  /** What the libraries will answer. `codes` holds one return code per call, in call
      order; once it is used up every call answers CIFX_NO_MORE_ENTRIES. `handles` holds
      the handle each open call writes, in order; once used up they write NULL.
      `boardNames` is the name each board index reports. `inputArea` is what the device
      shows in its input process-data area; `outputArea` what was last written to it. */
  datatype Oracle = Oracle(
    codes: seq<Int32>, handles: seq<nat>, boardNames: seq<string>,
    inputArea: seq<Byte>, outputArea: seq<Byte>)
  {
    function Answer(): (c: Int32)
      ensures codes == [] ==> c == CIFX_NO_MORE_ENTRIES
      ensures codes != [] ==> c == codes[0]
    {
      if codes == [] then CIFX_NO_MORE_ENTRIES else codes[0]
    }

    /** The oracle once the current answer is used up; only the code script moves. */
    function Next(): (o: Oracle)
      ensures o.codes == if codes == [] then [] else codes[1..]
      ensures o.handles == handles && o.boardNames == boardNames
      ensures o.inputArea == inputArea && o.outputArea == outputArea
    {
      this.(codes := if codes == [] then [] else codes[1..])
    }

    function Handle(): nat
    {
      if handles == [] then 0 else handles[0]
    }

    /** The oracle after an open call: one code and one handle used up. */
    function NextOpen(): (o: Oracle)
      ensures o.codes == Next().codes && o.handles == (if handles == [] then [] else handles[1..])
      ensures o.boardNames == boardNames && o.inputArea == inputArea && o.outputArea == outputArea
    {
      Next().(handles := if handles == [] then [] else handles[1..])
    }

    function BoardName(board: nat): string
    {
      if board < |boardNames| then boardNames[board] else ""
    }
  }

  /** A behaviour of some part of the program: what it returned, the calls it issued, and
      what the libraries will answer afterwards. */
  datatype Run<+T> = Run(result: T, events: seq<Event>, after: Oracle)

  /** `r` preceded by the calls `pre`. */
  function After<T>(pre: seq<Event>, r: Run<T>): (r': Run<T>)
    ensures r'.result == r.result && r'.after == r.after && r'.events == pre + r.events
  {
    Run(r.result, pre + r.events, r.after)
  }

  predicate ChannelCallsOnly(es: seq<Event>)
  {
    forall i :: 0 <= i < |es| ==> IsChannelCall(es[i].call)
  }

  lemma ChannelCallsOnlyAppend(a: seq<Event>, b: seq<Event>)
    requires ChannelCallsOnly(a) && ChannelCallsOnly(b)
    ensures ChannelCallsOnly(a + b)
  {
    forall i | 0 <= i < |a + b| ensures IsChannelCall((a + b)[i].call) {
      if i < |a| {
        assert (a + b)[i] == a[i];
      } else {
        assert (a + b)[i] == b[i - |a|];
      }
    }
  }

  // ---------------------------------------------------------------------------
  // The channel session state machine: Closed -> Opened -> HostReady -> BusOn -> Closed.

  datatype Phase = Closed | Opened(h: nat) | HostReady(h: nat) | BusOn(h: nat) | Misuse

  predicate IsOpen(p: Phase)
  {
    p.Opened? || p.HostReady? || p.BusOn?
  }

  /** The session phase after one event; Misuse for a channel call the phase does not allow. */
  function Step(p: Phase, e: Event): Phase
  {
    match e.call
    case ChannelOpen(_, _, _, h) =>
      if !p.Closed? then Misuse
      else if e.code == CIFX_NO_ERROR && h != 0 then Opened(h) else Closed
    case ChannelHostState(h, state, _) =>
      if p != Opened(h) || state != CIFX_HOST_STATE_READY then Misuse
      else if e.code == CIFX_NO_ERROR then HostReady(h) else p
    case ChannelBusState(h, state, _) =>
      if p != HostReady(h) || state != CIFX_BUS_STATE_ON then Misuse
      else if e.code == CIFX_NO_ERROR then BusOn(h) else p
    case ChannelIORead(h, _, _, _, _) => if p == BusOn(h) then p else Misuse
    case ChannelIOWrite(h, _, _, _, _) => if p == BusOn(h) then p else Misuse
    case ChannelClose(h) => if IsOpen(p) && p.h == h then Closed else Misuse
    case _ => p
  }

  function Walk(p: Phase, es: seq<Event>): Phase
    decreases es
  {
    if es == [] then p else Walk(Step(p, es[0]), es[1..])
  }

  lemma {:induction false} WalkAppend(p: Phase, a: seq<Event>, b: seq<Event>)
    ensures Walk(p, a + b) == Walk(Walk(p, a), b)
    decreases a
  {
    if a == [] {
      assert a + b == b;
    } else {
      assert (a + b)[0] == a[0] && (a + b)[1..] == a[1..] + b;
      WalkAppend(Step(p, a[0]), a[1..], b);
    }
  }

  /** Once a call is out of order, the session stays broken. */
  lemma {:induction false} MisuseIsFinal(es: seq<Event>)
    ensures Walk(Misuse, es) == Misuse
  {
    if es != [] {
      MisuseIsFinal(es[1..]);
    }
  }

  predicate OpenedAs(e: Event, h: nat)
  {
    e.call.ChannelOpen? && e.call.handle == h && h != 0 && e.code == CIFX_NO_ERROR
  }

  predicate HostReadyAs(e: Event, h: nat)
  {
    e.call.ChannelHostState? && e.call.device == h && e.code == CIFX_NO_ERROR
  }

  predicate BusOnAs(e: Event, h: nat)
  {
    e.call.ChannelBusState? && e.call.device == h && e.code == CIFX_NO_ERROR
  }

  /** Every open phase was reached by the successful calls that lead to it. */
  lemma {:induction false} PhaseOrigin(es: seq<Event>, i: nat)
    requires i <= |es|
    ensures var p := Walk(Closed, es[..i]);
      && (IsOpen(p) ==> p.h != 0 && exists j :: 0 <= j < i && OpenedAs(es[j], p.h))
      && (p.HostReady? || p.BusOn? ==> exists j :: 0 <= j < i && HostReadyAs(es[j], p.h))
      && (p.BusOn? ==> exists j :: 0 <= j < i && BusOnAs(es[j], p.h))
  {
    if i > 0 {
      PhaseOrigin(es, i - 1);
      assert es[..i] == es[..i - 1] + [es[i - 1]];
      WalkAppend(Closed, es[..i - 1], [es[i - 1]]);
    }
  }

  /** In a trace that respects the session protocol, a host-state request is preceded
      by an open that succeeded and returned the non-NULL handle it is issued on. */
  lemma HostStateFollowsOpen(es: seq<Event>, i: nat)
    requires Walk(Closed, es) != Misuse
    requires i < |es| && es[i].call.ChannelHostState?
    ensures es[i].call.device != 0
    ensures exists j :: 0 <= j < i && OpenedAs(es[j], es[i].call.device)
  {
    var p := Walk(Closed, es[..i]);
    PhaseOrigin(es, i);
    assert es == es[..i] + [es[i]] + es[i + 1..];
    WalkAppend(Closed, es[..i] + [es[i]], es[i + 1..]);
    WalkAppend(Closed, es[..i], [es[i]]);
    if Step(p, es[i]) == Misuse {
      MisuseIsFinal(es[i + 1..]);
    }
  }

  /** In a trace that respects the session protocol, a bus-state request is preceded by a
      successful host-state request on the same handle. */
  lemma BusStateFollowsHostState(es: seq<Event>, i: nat)
    requires Walk(Closed, es) != Misuse
    requires i < |es| && es[i].call.ChannelBusState?
    ensures exists j :: 0 <= j < i && HostReadyAs(es[j], es[i].call.device)
  {
    var p := Walk(Closed, es[..i]);
    PhaseOrigin(es, i);
    assert es == es[..i] + [es[i]] + es[i + 1..];
    WalkAppend(Closed, es[..i] + [es[i]], es[i + 1..]);
    WalkAppend(Closed, es[..i], [es[i]]);
    if Step(p, es[i]) == Misuse {
      MisuseIsFinal(es[i + 1..]);
    }
  }

  /** In a trace that respects the session protocol, cyclic I/O happens only on a handle
      whose host state and bus state were both set successfully. */
  lemma IOFollowsNegotiation(es: seq<Event>, i: nat)
    requires Walk(Closed, es) != Misuse
    requires i < |es| && (es[i].call.ChannelIORead? || es[i].call.ChannelIOWrite?)
    ensures exists j :: 0 <= j < i && HostReadyAs(es[j], es[i].call.device)
    ensures exists j :: 0 <= j < i && BusOnAs(es[j], es[i].call.device)
  {
    var p := Walk(Closed, es[..i]);
    PhaseOrigin(es, i);
    assert es == es[..i] + [es[i]] + es[i + 1..];
    WalkAppend(Closed, es[..i] + [es[i]], es[i + 1..]);
    WalkAppend(Closed, es[..i], [es[i]]);
    if Step(p, es[i]) == Misuse {
      MisuseIsFinal(es[i + 1..]);
    }
  }

  // ---------------------------------------------------------------------------
  // The libraries as an object the program calls.

  lemma AppendAssoc(a: seq<Event>, b: seq<Event>, c: seq<Event>)
    ensures a + (b + c) == a + b + c
  {
  }

  /** `ctypes.memmove(buffer, data, len(data))`. */
  method CopyInto(buffer: array<Byte>, data: seq<Byte>)
    requires |data| <= buffer.Length
    modifies buffer
    ensures buffer[..] == data + old(buffer[|data|..])
  {
    var i := 0;
    while i < |data|
      invariant 0 <= i <= |data|
      invariant forall k :: 0 <= k < i ==> buffer[k] == data[k]
      invariant forall k :: i <= k < buffer.Length ==> buffer[k] == old(buffer[k])
    {
      buffer[i] := data[i];
      i := i + 1;
    }
    assert buffer[..] == data + old(buffer[|data|..]);
  }

  class CifXDll {
    var oracle: Oracle
    ghost var trace: seq<Event>

    constructor (o: Oracle)
      ensures oracle == o && trace == []
    {
      oracle := o;
      trace := [];
    }

    /** A call whose only effect is its return code. */
    method Invoke(c: Call) returns (code: Int32)
      requires !c.DriverOpen? && !c.ChannelOpen? && !c.ChannelIORead? && !c.ChannelIOWrite?
      modifies this
      ensures code == old(oracle).Answer() && oracle == old(oracle).Next()
      ensures trace == old(trace) + [Event(c, code)]
    {
      code := oracle.Answer();
      oracle := oracle.Next();
      trace := trace + [Event(c, code)];
    }

    /** `xDriverOpen(&hDriver)`. */
    method DriverOpen() returns (code: Int32, handle: nat)
      modifies this
      ensures code == old(oracle).Answer() && handle == old(oracle).Handle()
      ensures oracle == old(oracle).NextOpen()
      ensures trace == old(trace) + [Event(Call.DriverOpen(handle), code)]
    {
      code := oracle.Answer();
      handle := oracle.Handle();
      oracle := oracle.NextOpen();
      trace := trace + [Event(Call.DriverOpen(handle), code)];
    }

    /** `xChannelOpen(driver, board, channel, &hDevice)`. */
    method ChannelOpen(driver: DriverArg, board: string, channel: nat) returns (code: Int32, handle: nat)
      modifies this
      ensures code == old(oracle).Answer() && handle == old(oracle).Handle()
      ensures oracle == old(oracle).NextOpen()
      ensures trace == old(trace) + [Event(Call.ChannelOpen(driver, board, channel, handle), code)]
    {
      code := oracle.Answer();
      handle := oracle.Handle();
      oracle := oracle.NextOpen();
      trace := trace + [Event(Call.ChannelOpen(driver, board, channel, handle), code)];
    }

    /** `xDriverEnumBoards(driver, board, size, &info)`; the name is that of the returned info. */
    method EnumBoards(driver: nat, board: nat) returns (code: Int32, name: string)
      modifies this
      ensures code == old(oracle).Answer() && name == old(oracle).BoardName(board)
      ensures oracle == old(oracle).Next()
      ensures trace == old(trace) + [Event(DriverEnumBoards(driver, board), code)]
    {
      code := oracle.Answer();
      name := oracle.BoardName(board);
      oracle := oracle.Next();
      trace := trace + [Event(DriverEnumBoards(driver, board), code)];
    }

    /** `xChannelIORead(device, area, offset, length, buffer, timeout)`: on success the first
        `length` bytes of `buffer` receive the device's input area; on failure nothing is copied. */
    method IORead(device: nat, area: nat, offset: nat, length: nat, buffer: array<Byte>, timeout: nat)
      returns (code: Int32)
      requires length <= buffer.Length
      modifies this, buffer
      ensures code == old(oracle).Answer() && oracle == old(oracle).Next()
      ensures trace == old(trace) + [Event(ChannelIORead(device, area, offset, length, timeout), code)]
      ensures code == CIFX_NO_ERROR ==>
        buffer[..] == Window(old(oracle).inputArea, offset, length) + old(buffer[length..])
      ensures code != CIFX_NO_ERROR ==> buffer[..] == old(buffer[..])
    {
      code := oracle.Answer();
      var data := Window(oracle.inputArea, offset, length);
      oracle := oracle.Next();
      trace := trace + [Event(ChannelIORead(device, area, offset, length, timeout), code)];
      if code == CIFX_NO_ERROR {
        CopyInto(buffer, data);
      }
    }

    /** `xChannelIOWrite(device, area, offset, length, buffer, timeout)`: on success the device's
        output area holds the first `length` bytes of `buffer`. */
    method IOWrite(device: nat, area: nat, offset: nat, length: nat, buffer: array<Byte>, timeout: nat)
      returns (code: Int32)
      requires length <= buffer.Length
      modifies this
      ensures code == old(oracle).Answer()
      ensures oracle == old(oracle).Next().(outputArea := if code == CIFX_NO_ERROR then buffer[..length] else old(oracle).outputArea)
      ensures trace == old(trace) + [Event(ChannelIOWrite(device, area, offset, buffer[..length], timeout), code)]
    {
      code := oracle.Answer();
      var o := oracle.Next();
      if code == CIFX_NO_ERROR {
        o := o.(outputArea := buffer[..length]);
      }
      oracle := o;
      trace := trace + [Event(ChannelIOWrite(device, area, offset, buffer[..length], timeout), code)];
    }
  }
}
