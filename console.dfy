/** CIFX70E_DP.py, the console test around the channel session: the board and channel
    enumeration of WIC_RunCifXConsoleTest, the choice of the board to test, the read it
    then runs, and the system-timer pairing in `main`. */
module Console {
  import opened Bytes
  import opened Driver
  import opened Cifx

  lemma NoMoreEntriesIsNegative()
    ensures CIFX_NO_MORE_ENTRIES == 0x800A0014 - 0x1_0000_0000
    ensures CIFX_NO_MORE_ENTRIES < 0 && CIFX_NO_MORE_ENTRIES != CIFX_NO_ERROR
  {
  }

  /** Once the code script is used up every call fails, so a call that succeeded used up
      one code. */
  lemma SuccessUsesCode(o: Oracle)
    requires o.Answer() == CIFX_NO_ERROR
    ensures |o.Next().codes| < |o.codes|
  {
    NoMoreEntriesIsNegative();
  }

  // ---------------------------------------------------------------------------
  // Channel enumeration: `while lChannelRet == CIFX_NO_ERROR`.

  /** The channel loop of board `board`, from channel index `channel` on; the result is the
      number of channels counted. */
  function ChannelLoopSpec(driver: nat, board: nat, channel: nat, o: Oracle): (r: Run<nat>)
    ensures |r.after.codes| <= |o.codes|
    decreases |o.codes|
  {
    var c := o.Answer();
    var e := Event(DriverEnumChannels(driver, board, channel), c);
    if c != CIFX_NO_ERROR then Run(0, [e], o.Next())
    else
      SuccessUsesCode(o);
      var rest := ChannelLoopSpec(driver, board, channel + 1, o.Next());
      Run(rest.result + 1, [e] + rest.events, rest.after)
  }

  /** The channel loop asks for consecutive channel indices, one per call, whether or not
      the previous call succeeded; it counts exactly the calls that succeeded, which are
      all but the last, and stops after the first that failed. */
  lemma {:induction false} ChannelLoopCounts(driver: nat, board: nat, channel: nat, o: Oracle)
    ensures var r := ChannelLoopSpec(driver, board, channel, o);
      && |r.events| == r.result + 1
      && (forall i :: 0 <= i < |r.events| ==> r.events[i].call == DriverEnumChannels(driver, board, channel + i))
      && (forall i :: 0 <= i < r.result ==> r.events[i].code == CIFX_NO_ERROR)
      && r.events[r.result].code != CIFX_NO_ERROR
    decreases |o.codes|
  {
    if o.Answer() == CIFX_NO_ERROR {
      SuccessUsesCode(o);
      ChannelLoopCounts(driver, board, channel + 1, o.Next());
    }
  }

  /** One round of the channel loop, seen from the whole loop: the loop's run is what is
      done, then this call, then the rest of the loop when the call succeeded. */
  lemma ChannelLoopRound(driver: nat, board: nat, index: nat, o: Oracle,
                         goal: Run<nat>, count: nat, done: seq<Event>)
    requires var rest := ChannelLoopSpec(driver, board, index, o);
      goal == Run(count + rest.result, done + rest.events, rest.after)
    ensures var e := Event(DriverEnumChannels(driver, board, index), o.Answer());
      && (o.Answer() == CIFX_NO_ERROR ==>
            var rest := ChannelLoopSpec(driver, board, index + 1, o.Next());
            goal == Run(count + 1 + rest.result, done + [e] + rest.events, rest.after))
      && (o.Answer() != CIFX_NO_ERROR ==> goal == Run(count, done + [e], o.Next()))
  {
    var e := Event(DriverEnumChannels(driver, board, index), o.Answer());
    if o.Answer() == CIFX_NO_ERROR {
      SuccessUsesCode(o);
      var rest := ChannelLoopSpec(driver, board, index + 1, o.Next());
      AppendAssoc(done, [e], rest.events);
    }
  }

  /** What is left of the channel loop: nothing once a call has failed. */
  ghost function ChannelsLeft(driver: nat, board: nat, index: nat, ret: Int32, o: Oracle): Run<nat>
  {
    if ret == CIFX_NO_ERROR then ChannelLoopSpec(driver, board, index, o) else Run(0, [], o)
  }

  /** The channel loop of one board. `count` is `ulChannelCount`, and `index` is
      `ulChannelIdx` after the loop, which is one past the last channel counted. */
  method EnumerateChannels(dll: CifXDll, driver: nat, board: nat) returns (count: nat, index: nat)
    modifies dll
    ensures var r := ChannelLoopSpec(driver, board, 0, old(dll.oracle));
      count == r.result && dll.oracle == r.after && dll.trace == old(dll.trace) + r.events
    ensures index == count + 1
  {
    ghost var goal := ChannelLoopSpec(driver, board, 0, dll.oracle);
    ghost var t0 := dll.trace;
    ghost var done: seq<Event> := [];
    count, index := 0, 0;
    var ret := CIFX_NO_ERROR;
    assert goal == Run(count + goal.result, done + goal.events, goal.after);
    while ret == CIFX_NO_ERROR
      invariant dll.trace == t0 + done
      invariant index == count + if ret == CIFX_NO_ERROR then 0 else 1
      invariant var rest := ChannelsLeft(driver, board, index, ret, dll.oracle);
        goal == Run(count + rest.result, done + rest.events, rest.after)
      decreases |dll.oracle.codes|, if ret == CIFX_NO_ERROR then 1 else 0
    {
      ChannelLoopRound(driver, board, index, dll.oracle, goal, count, done);
      ghost var o := dll.oracle;
      ret := dll.Invoke(DriverEnumChannels(driver, board, index));
      if ret == CIFX_NO_ERROR {
        SuccessUsesCode(o);
        count := count + 1;
      }
      done := done + [Event(DriverEnumChannels(driver, board, index), ret)];
      index := index + 1;
    }
    assert done + [] == done;
  }

  // ---------------------------------------------------------------------------
  // Board enumeration: `while lBoardRet == CIFX_NO_ERROR`.

  /** Python's `str.isspace` on one character: the characters `str.strip()` removes. */
  predicate IsSpace(c: char)
  {
    || c in {' ', '\t', '\n', '\r', '\U{000B}', '\U{000C}', '\U{001C}', '\U{001D}', '\U{001E}', '\U{001F}'}
    || c in {'\U{0085}', '\U{00A0}', '\U{1680}', '\U{2028}', '\U{2029}', '\U{202F}', '\U{205F}', '\U{3000}'}
    || '\U{2000}' <= c <= '\U{200A}'
  }

  /** `not szBoard or len(szBoard.strip()) == 0`. */
  predicate IsBlank(s: string)
  {
    forall i :: 0 <= i < |s| ==> IsSpace(s[i])
  }

  /** What the board loop leaves: `ulBoardCount` and the board name to test. */
  datatype Boards = Boards(count: nat, name: string)

  /** The board loop from board index `board` on, with board name `name`: each board found
      is counted, has its channels enumerated, and gives its name to a blank board name. */
  function BoardLoopSpec(driver: nat, board: nat, name: string, o: Oracle): (r: Run<Boards>)
    decreases |o.codes|
  {
    var c := o.Answer();
    var e := Event(DriverEnumBoards(driver, board), c);
    if c != CIFX_NO_ERROR then Run(Boards(0, name), [e], o.Next())
    else
      SuccessUsesCode(o);
      var name' := if IsBlank(name) then o.BoardName(board) else name;
      var channels := ChannelLoopSpec(driver, board, 0, o.Next());
      var rest := BoardLoopSpec(driver, board + 1, name', channels.after);
      Run(Boards(rest.result.count + 1, rest.result.name), [e] + channels.events + rest.events, rest.after)
  }

  /** The board enumeration calls among `es`. */
  function BoardCalls(es: seq<Event>): (bs: seq<Event>)
    ensures |bs| <= |es|
    ensures forall i :: 0 <= i < |bs| ==> bs[i].call.DriverEnumBoards?
  {
    if es == [] then []
    else (if es[0].call.DriverEnumBoards? then [es[0]] else []) + BoardCalls(es[1..])
  }

  lemma {:induction false} BoardCallsAppend(a: seq<Event>, b: seq<Event>)
    ensures BoardCalls(a + b) == BoardCalls(a) + BoardCalls(b)
  {
    if a == [] {
      assert a + b == b;
    } else {
      assert (a + b)[0] == a[0] && (a + b)[1..] == a[1..] + b;
      BoardCallsAppend(a[1..], b);
    }
  }

  /** The channel loop asks for no board. */
  lemma {:induction false} ChannelLoopHasNoBoardCalls(driver: nat, board: nat, channel: nat, o: Oracle)
    ensures BoardCalls(ChannelLoopSpec(driver, board, channel, o).events) == []
    decreases |o.codes|
  {
    var e := Event(DriverEnumChannels(driver, board, channel), o.Answer());
    assert BoardCalls([e]) == [] by {
      assert [e][1..] == [];
    }
    if o.Answer() == CIFX_NO_ERROR {
      SuccessUsesCode(o);
      var rest := ChannelLoopSpec(driver, board, channel + 1, o.Next());
      ChannelLoopHasNoBoardCalls(driver, board, channel + 1, o.Next());
      BoardCallsAppend([e], rest.events);
    }
  }

  /** The board loop asks for consecutive board indices from `board` on; it counts exactly the
      boards the driver reported, which are the calls before the first that failed. */
  lemma {:induction false} BoardLoopCounts(driver: nat, board: nat, name: string, o: Oracle)
    ensures var r := BoardLoopSpec(driver, board, name, o);
      var bs := BoardCalls(r.events);
      && |bs| == r.result.count + 1
      && (forall i :: 0 <= i < |bs| ==> bs[i].call == DriverEnumBoards(driver, board + i))
      && (forall i :: 0 <= i < r.result.count ==> bs[i].code == CIFX_NO_ERROR)
      && bs[r.result.count].code != CIFX_NO_ERROR
    decreases |o.codes|
  {
    var c := o.Answer();
    var e := Event(DriverEnumBoards(driver, board), c);
    assert BoardCalls([e]) == [e] by {
      assert [e][1..] == [];
    }
    if c == CIFX_NO_ERROR {
      SuccessUsesCode(o);
      var name' := if IsBlank(name) then o.BoardName(board) else name;
      var channels := ChannelLoopSpec(driver, board, 0, o.Next());
      var rest := BoardLoopSpec(driver, board + 1, name', channels.after);
      BoardLoopCounts(driver, board + 1, name', channels.after);
      ChannelLoopHasNoBoardCalls(driver, board, 0, o.Next());
      BoardCallsAppend([e] + channels.events, rest.events);
      BoardCallsAppend([e], channels.events);
      assert BoardCalls(BoardLoopSpec(driver, board, name, o).events) == [e] + BoardCalls(rest.events);
      BoardCountsStep(driver, board, e, BoardCalls(rest.events), rest.result.count);
    }
  }

  /** The shape `BoardLoopCounts` states, carried from board `board + 1` back to `board`
      through a successful call `e`. */
  lemma BoardCountsStep(driver: nat, board: nat, e: Event, bs: seq<Event>, count: nat)
    requires e == Event(DriverEnumBoards(driver, board), CIFX_NO_ERROR)
    requires |bs| == count + 1
    requires forall i :: 0 <= i < |bs| ==> bs[i].call == DriverEnumBoards(driver, board + 1 + i)
    requires forall i :: 0 <= i < count ==> bs[i].code == CIFX_NO_ERROR
    requires bs[count].code != CIFX_NO_ERROR
    ensures var bs' := [e] + bs;
      && |bs'| == count + 2
      && (forall i :: 0 <= i < |bs'| ==> bs'[i].call == DriverEnumBoards(driver, board + i))
      && (forall i :: 0 <= i < count + 1 ==> bs'[i].code == CIFX_NO_ERROR)
      && bs'[count + 1].code != CIFX_NO_ERROR
  {
    var bs' := [e] + bs;
    assert forall i :: 1 <= i < |bs'| ==> bs'[i] == bs[i - 1];
  }

  /** A board name given by the caller is kept; a blank one is replaced by the name of the
      first board found, and stays blank only while the boards found have blank names. */
  lemma {:induction false} BoardLoopName(driver: nat, board: nat, name: string, o: Oracle)
    ensures var r := BoardLoopSpec(driver, board, name, o);
      && (!IsBlank(name) ==> r.result.name == name)
      && (IsBlank(name) && r.result.count > 0 && !IsBlank(o.BoardName(board)) ==>
            r.result.name == o.BoardName(board))
      && (r.result.count == 0 ==> r.result.name == name)
    decreases |o.codes|
  {
    var c := o.Answer();
    if c == CIFX_NO_ERROR {
      SuccessUsesCode(o);
      var name' := if IsBlank(name) then o.BoardName(board) else name;
      var channels := ChannelLoopSpec(driver, board, 0, o.Next());
      BoardLoopName(driver, board + 1, name', channels.after);
    }
  }

  /** The board loop seen from round `index`: `goal` is what is done (`count` boards and the
      calls `done`) followed by what is left. */
  ghost predicate BoardGoal(goal: Run<Boards>, driver: nat, index: nat, name: string, ret: Int32, o: Oracle,
                            count: nat, done: seq<Event>)
  {
    var left := BoardsLeft(driver, index, name, ret, o);
    goal == Run(Boards(count + left.result.count, left.result.name), done + left.events, left.after)
  }

  /** A round of the board loop that found board `index`, seen from the whole loop: what is
      done, then this call and the board's channel loop, then the rest of the loop. */
  lemma BoardLoopFound(driver: nat, index: nat, name: string, name': string, o: Oracle,
                       channels: Run<nat>, goal: Run<Boards>, count: nat, done: seq<Event>)
    requires BoardGoal(goal, driver, index, name, CIFX_NO_ERROR, o, count, done)
    requires o.Answer() == CIFX_NO_ERROR
    requires name' == if IsBlank(name) then o.BoardName(index) else name
    requires channels == ChannelLoopSpec(driver, index, 0, o.Next())
    ensures BoardGoal(goal, driver, index + 1, name', CIFX_NO_ERROR, channels.after, count + 1,
                      done + ([Event(DriverEnumBoards(driver, index), CIFX_NO_ERROR)] + channels.events))
  {
    var e := Event(DriverEnumBoards(driver, index), CIFX_NO_ERROR);
    SuccessUsesCode(o);
    var rest := BoardLoopSpec(driver, index + 1, name', channels.after);
    var left := BoardLoopSpec(driver, index, name, o);
    assert left == Run(Boards(rest.result.count + 1, rest.result.name), [e] + channels.events + rest.events, rest.after);
    AppendAssoc(done, [e] + channels.events, rest.events);
  }

  /** The round of the board loop whose call failed is its last. */
  lemma BoardLoopEnd(driver: nat, index: nat, name: string, ret: Int32, o: Oracle,
                     goal: Run<Boards>, count: nat, done: seq<Event>)
    requires BoardGoal(goal, driver, index, name, CIFX_NO_ERROR, o, count, done)
    requires o.Answer() != CIFX_NO_ERROR && ret == o.Answer()
    ensures BoardGoal(goal, driver, index, name, ret, o.Next(), count,
                      done + [Event(DriverEnumBoards(driver, index), o.Answer())])
  {
    var e := Event(DriverEnumBoards(driver, index), o.Answer());
    assert done + [e] + [] == done + [e];
  }

  /** What is left of the board loop: nothing once a call has failed. */
  ghost function BoardsLeft(driver: nat, index: nat, name: string, ret: Int32, o: Oracle): Run<Boards>
  {
    if ret == CIFX_NO_ERROR then BoardLoopSpec(driver, index, name, o) else Run(Boards(0, name), [], o)
  }

  /** One round of the board loop as far as the driver sees it: `xDriverEnumBoards` for
      board `index`, and when it succeeds the channel loop of that board. */
  method VisitBoard(dll: CifXDll, driver: nat, index: nat) returns (ret: Int32, boardName: string)
    modifies dll
    ensures var o := old(dll.oracle);
      var e := Event(DriverEnumBoards(driver, index), o.Answer());
      && ret == o.Answer() && boardName == o.BoardName(index)
      && (ret != CIFX_NO_ERROR ==> dll.oracle == o.Next() && dll.trace == old(dll.trace) + [e])
      && (ret == CIFX_NO_ERROR ==>
            var ch := ChannelLoopSpec(driver, index, 0, o.Next());
            dll.oracle == ch.after && dll.trace == old(dll.trace) + ([e] + ch.events))
  {
    ret, boardName := dll.EnumBoards(driver, index);
    if ret == CIFX_NO_ERROR {
      ghost var t1 := dll.trace;
      ghost var ch := ChannelLoopSpec(driver, index, 0, dll.oracle);
      var channels, channelIndex := EnumerateChannels(dll, driver, index);
      AppendAssoc(old(dll.trace), [Event(DriverEnumBoards(driver, index), ret)], ch.events);
    }
  }

  /** The board loop with its channel loops. `count` is `ulBoardCount`, `found` is
      `fBoardFound` and `name` is `szBoard` after the loop. */
  method EnumerateBoards(dll: CifXDll, driver: nat, board0: string) returns (count: nat, found: bool, name: string)
    modifies dll
    ensures var r := BoardLoopSpec(driver, 0, board0, old(dll.oracle));
      && Boards(count, name) == r.result && dll.oracle == r.after && dll.trace == old(dll.trace) + r.events
    ensures found <==> count > 0
  {
    ghost var goal := BoardLoopSpec(driver, 0, board0, dll.oracle);
    ghost var t0 := dll.trace;
    ghost var done: seq<Event> := [];
    found, count, name := false, 0, board0;
    var index := 0;
    var ret := CIFX_NO_ERROR;
    assert done + goal.events == goal.events;
    assert BoardGoal(goal, driver, index, name, ret, dll.oracle, count, done);
    while ret == CIFX_NO_ERROR
      invariant dll.trace == t0 + done
      invariant found <==> count > 0
      invariant BoardGoal(goal, driver, index, name, ret, dll.oracle, count, done)
      decreases |dll.oracle.codes|, if ret == CIFX_NO_ERROR then 1 else 0
    {
      ghost var o := dll.oracle;
      ghost var name0 := name;
      ghost var done0 := done;
      var boardName;
      ret, boardName := VisitBoard(dll, driver, index);
      ghost var e := Event(DriverEnumBoards(driver, index), ret);
      if ret != CIFX_NO_ERROR {
        BoardLoopEnd(driver, index, name, ret, o, goal, count, done);
        AppendAssoc(t0, done, [e]);
        done := done + [e];
      } else {
        SuccessUsesCode(o);
        ghost var ch := ChannelLoopSpec(driver, index, 0, o.Next());
        if IsBlank(name) {
          name := boardName;
        }
        BoardLoopFound(driver, index, name0, name, o, ch, goal, count, done0);
        AppendAssoc(t0, done0, [e] + ch.events);
        count := count + 1;
        found := true;
        done := done + ([e] + ch.events);
        index := index + 1;
      }
    }
    assert done + [] == done;
  }

  /** The enumeration loops issue enumeration calls only. */
  predicate EnumerationOnly(es: seq<Event>)
  {
    forall i :: 0 <= i < |es| ==> es[i].call.DriverEnumBoards? || es[i].call.DriverEnumChannels?
  }

  lemma EnumerationOnlyAppend(a: seq<Event>, b: seq<Event>)
    requires EnumerationOnly(a) && EnumerationOnly(b)
    ensures EnumerationOnly(a + b)
  {
    forall i | 0 <= i < |a + b|
      ensures (a + b)[i].call.DriverEnumBoards? || (a + b)[i].call.DriverEnumChannels?
    {
      if i < |a| {
        assert (a + b)[i] == a[i];
      } else {
        assert (a + b)[i] == b[i - |a|];
      }
    }
  }

  lemma {:induction false} ChannelLoopEnumerates(driver: nat, board: nat, channel: nat, o: Oracle)
    ensures EnumerationOnly(ChannelLoopSpec(driver, board, channel, o).events)
    decreases |o.codes|
  {
    if o.Answer() == CIFX_NO_ERROR {
      SuccessUsesCode(o);
      var e := Event(DriverEnumChannels(driver, board, channel), o.Answer());
      ChannelLoopEnumerates(driver, board, channel + 1, o.Next());
      EnumerationOnlyAppend([e], ChannelLoopSpec(driver, board, channel + 1, o.Next()).events);
    }
  }

  lemma {:induction false} BoardLoopEnumerates(driver: nat, board: nat, name: string, o: Oracle)
    ensures EnumerationOnly(BoardLoopSpec(driver, board, name, o).events)
    decreases |o.codes|
  {
    if o.Answer() == CIFX_NO_ERROR {
      SuccessUsesCode(o);
      var e := Event(DriverEnumBoards(driver, board), o.Answer());
      var name' := if IsBlank(name) then o.BoardName(board) else name;
      var channels := ChannelLoopSpec(driver, board, 0, o.Next());
      var rest := BoardLoopSpec(driver, board + 1, name', channels.after);
      ChannelLoopEnumerates(driver, board, 0, o.Next());
      BoardLoopEnumerates(driver, board + 1, name', channels.after);
      EnumerationOnlyAppend([e], channels.events);
      EnumerationOnlyAppend([e] + channels.events, rest.events);
    }
  }

  // ---------------------------------------------------------------------------
  // WIC_RunCifXConsoleTest after the loops, and `main`.

  /** `input().lower() == 'r'`: "r" and "R" are the strings whose lower case is "r". */
  predicate IsReadCommand(command: string)
  {
    command == "r" || command == "R"
  }

  /** How WIC_RunCifXConsoleTest ends. `DriverNotOpened`: `xDriverOpen` failed; `NoBoard`:
      no board answered; `NotRequested`: the answer to the prompt was not `r`; `ReadDone`:
      WIC_ReadIOData ran and ended with `read`. The function itself returns None. */
  datatype TestOutcome = DriverNotOpened | NoBoard | NotRequested | ReadDone(read: ReadOutcome)

  /** Whether control comes back from WIC_ReadIOData: not when it raised, and not while its
      loop is still polling. */
  predicate ReadReturns(r: ReadOutcome)
  {
    !r.Raised? && !r.Polling?
  }

  predicate TestReturns(t: TestOutcome)
  {
    t.ReadDone? ==> ReadReturns(t.read)
  }

  /** What the test does after the board loop: with a board found, the read when the answer
      to the prompt is `r`, and nothing else; the channel WIC_ReadIOData leaves open is not
      closed here. */
  function TestAfterBoards(driver: nat, boards: Boards, timeout: nat, command: string, keys: seq<KeyPoll>, o: Oracle)
    : Run<TestOutcome>
  {
    if boards.count == 0 then Run(NoBoard, [], o)
    else if !IsReadCommand(command) then Run(NotRequested, [], o)
    else
      var r := ReadIODataSpec(driver, boards.name, timeout, keys, o);
      Run(ReadDone(r.result), r.events, r.after)
  }

  /** WIC_RunCifXConsoleTest(szBoard, ..., ulIOTimeout), with `command` the line typed at the
      prompt and `keys` the key polls of the read loop. */
  function ConsoleTestSpec(board: string, timeout: nat, command: string, keys: seq<KeyPoll>, o: Oracle)
    : Run<TestOutcome>
  {
    var h := o.Handle();
    var e := Event(Call.DriverOpen(h), o.Answer());
    var o1 := o.NextOpen();
    if o.Answer() != CIFX_NO_ERROR then Run(DriverNotOpened, [e], o1)
    else
      var info := Event(DriverGetInformation(h), o1.Answer());
      var boards := BoardLoopSpec(h, 0, board, o1.Next());
      After([e, info] + boards.events, TestAfterBoards(h, boards.result, timeout, command, keys, boards.after))
  }

  method RunAfterBoards(dll: CifXDll, driver: nat, count: nat, name: string, timeout: nat, command: string,
                        keys: seq<KeyPoll>)
    returns (outcome: TestOutcome)
    modifies dll
    ensures var r := TestAfterBoards(driver, Boards(count, name), timeout, command, keys, old(dll.oracle));
      outcome == r.result && dll.oracle == r.after && dll.trace == old(dll.trace) + r.events
  {
    if count == 0 {
      return NoBoard;
    }
    if IsReadCommand(command) {
      var read, _ := ReadIOData(dll, driver, name, timeout, keys);
      outcome := ReadDone(read);
    } else {
      outcome := NotRequested;
      assert dll.trace == old(dll.trace) + [];
    }
  }

  /** WIC_RunCifXConsoleTest: open the driver, ask for its information (the answer is only
      printed), enumerate boards and channels, then run the part after the loops. */
  method ConsoleTest(dll: CifXDll, board: string, timeout: nat, command: string, keys: seq<KeyPoll>)
    returns (outcome: TestOutcome)
    modifies dll
    ensures var r := ConsoleTestSpec(board, timeout, command, keys, old(dll.oracle));
      outcome == r.result && dll.oracle == r.after && dll.trace == old(dll.trace) + r.events
  {
    ghost var t0 := dll.trace;
    var code, h := dll.DriverOpen();
    ghost var e := Event(Call.DriverOpen(h), code);
    if code != CIFX_NO_ERROR {
      return DriverNotOpened;
    }
    ghost var info := Event(DriverGetInformation(h), dll.oracle.Answer());
    var _ := dll.Invoke(DriverGetInformation(h));
    ghost var o2 := dll.oracle;
    var count, found, name := EnumerateBoards(dll, h, board);
    ghost var boards := BoardLoopSpec(h, 0, board, o2);
    ghost var t3 := dll.trace;
    outcome := RunAfterBoards(dll, h, count, name, timeout, command, keys);
    ghost var rest := TestAfterBoards(h, boards.result, timeout, command, keys, boards.after);
    assert [e] + [info] == [e, info];
    AppendAssoc(t0, [e] + [info], boards.events);
    AppendAssoc(t0, [e], [info]);
    AppendAssoc(t0, [e, info] + boards.events, rest.events);
  }

  predicate ClosesDriver(es: seq<Event>)
  {
    exists i :: 0 <= i < |es| && es[i].call.DriverClose?
  }

  predicate OpensChannel(es: seq<Event>)
  {
    exists i :: 0 <= i < |es| && es[i].call.ChannelOpen?
  }

  lemma CallsAppend(a: seq<Event>, b: seq<Event>)
    ensures ClosesDriver(a + b) <==> ClosesDriver(a) || ClosesDriver(b)
    ensures OpensChannel(a + b) <==> OpensChannel(a) || OpensChannel(b)
  {
    forall i | 0 <= i < |a + b| ensures (a + b)[i] == if i < |a| then a[i] else b[i - |a|] {
    }
    if ClosesDriver(b) {
      var i :| 0 <= i < |b| && b[i].call.DriverClose?;
      assert (a + b)[|a| + i] == b[i];
    }
    if OpensChannel(b) {
      var i :| 0 <= i < |b| && b[i].call.ChannelOpen?;
      assert (a + b)[|a| + i] == b[i];
    }
  }

  lemma EnumerationCalls(es: seq<Event>)
    requires EnumerationOnly(es)
    ensures !ClosesDriver(es) && !OpensChannel(es)
  {
  }

  lemma ChannelCalls(es: seq<Event>)
    requires ChannelCallsOnly(es)
    ensures !ClosesDriver(es)
  {
  }

  /** After the loops the test issues channel calls only; it opens a channel exactly when a
      board was found and the answer was `r`, and then WIC_ReadIOData ran on the board chosen,
      starting with the open of its channel 0. */
  lemma TestAfterBoardsCalls(driver: nat, boards: Boards, timeout: nat, command: string, keys: seq<KeyPoll>, o: Oracle)
    ensures var r := TestAfterBoards(driver, boards, timeout, command, keys, o);
      && ChannelCallsOnly(r.events)
      && (OpensChannel(r.events) <==> boards.count > 0 && IsReadCommand(command))
      && (r.result.ReadDone? <==> boards.count > 0 && IsReadCommand(command))
      && (r.result.ReadDone? ==> r.events != [] && r.events[0].call == Call.ChannelOpen(ByRef(driver), boards.name, 0, o.Handle()))
  {
    var r := TestAfterBoards(driver, boards, timeout, command, keys, o);
    if boards.count > 0 && IsReadCommand(command) {
      var read := ReadIODataSpec(driver, boards.name, timeout, keys, o);
      ReadIODataChannelCalls(driver, boards.name, timeout, keys, o);
      assert r.events[0].call.ChannelOpen?;
    } else {
      assert r.events == [];
    }
  }

  /** WIC_RunCifXConsoleTest never closes the driver it opened: after the open and the
      information request it issues enumeration calls, then channel calls only. */
  lemma ConsoleTestKeepsDriverOpen(board: string, timeout: nat, command: string, keys: seq<KeyPoll>, o: Oracle)
    ensures !ClosesDriver(ConsoleTestSpec(board, timeout, command, keys, o).events)
  {
    if o.Answer() == CIFX_NO_ERROR {
      var h := o.Handle();
      var o1 := o.NextOpen();
      var boards := BoardLoopSpec(h, 0, board, o1.Next());
      var rest := TestAfterBoards(h, boards.result, timeout, command, keys, boards.after);
      var head := [Event(Call.DriverOpen(h), o.Answer()), Event(DriverGetInformation(h), o1.Answer())];
      BoardLoopEnumerates(h, 0, board, o1.Next());
      EnumerationCalls(boards.events);
      TestAfterBoardsCalls(h, boards.result, timeout, command, keys, boards.after);
      ChannelCalls(rest.events);
      CallsAppend(head, boards.events);
      CallsAppend(head + boards.events, rest.events);
    }
  }

  /** Behind calls that open no channel, the channel opens are those of `es`, and the first
      call of `es` stands right after `pre`. */
  lemma OpensChannelAfter(pre: seq<Event>, es: seq<Event>)
    requires !OpensChannel(pre)
    ensures OpensChannel(pre + es) <==> OpensChannel(es)
    ensures es != [] ==> (pre + es)[|pre|] == es[0]
  {
    CallsAppend(pre, es);
  }

  /** I/O is attempted, that is a channel is opened, exactly when the driver opened, a board
      was found and the answer to the prompt was `r`; the channel opened is the one of the
      board the loops chose, through the driver handle. */
  lemma ConsoleTestReadsIff(board: string, timeout: nat, command: string, keys: seq<KeyPoll>, o: Oracle)
    ensures var r := ConsoleTestSpec(board, timeout, command, keys, o);
      var h := o.Handle();
      var boards := BoardLoopSpec(h, 0, board, o.NextOpen().Next());
      && (OpensChannel(r.events) <==> o.Answer() == CIFX_NO_ERROR && boards.result.count > 0 && IsReadCommand(command))
      && (r.result.ReadDone? <==> o.Answer() == CIFX_NO_ERROR && boards.result.count > 0 && IsReadCommand(command))
      && (r.result.ReadDone? ==>
            r.events[2 + |boards.events|].call == Call.ChannelOpen(ByRef(h), boards.result.name, 0, boards.after.Handle()))
  {
    var r := ConsoleTestSpec(board, timeout, command, keys, o);
    var h := o.Handle();
    var o1 := o.NextOpen();
    var boards := BoardLoopSpec(h, 0, board, o1.Next());
    if o.Answer() == CIFX_NO_ERROR {
      var rest := TestAfterBoards(h, boards.result, timeout, command, keys, boards.after);
      var head := [Event(Call.DriverOpen(h), o.Answer()), Event(DriverGetInformation(h), o1.Answer())];
      assert r == After(head + boards.events, rest);
      BoardLoopEnumerates(h, 0, board, o1.Next());
      EnumerationCalls(boards.events);
      TestAfterBoardsCalls(h, boards.result, timeout, command, keys, boards.after);
      assert !OpensChannel(head) by {
        assert forall i :: 0 <= i < |head| ==> !head[i].call.ChannelOpen?;
      }
      CallsAppend(head, boards.events);
      OpensChannelAfter(head + boards.events, rest.events);
    }
  }

  /** `main`: read the timer capabilities (the answer is only printed), ask for a 1 ms system
      timer, run the console test on the module defaults, and give the timer back only when
      the request was granted and the test returned. */
  function ConsoleMainSpec(command: string, keys: seq<KeyPoll>, o: Oracle): Run<TestOutcome>
  {
    var caps := Event(TimeGetDevCaps, o.Answer());
    var o1 := o.Next();
    var begin := Event(TimeBeginPeriod(DEFAULT_TIMER_RESOLUTION), o1.Answer());
    var t := ConsoleTestSpec(DEFAULT_BOARD, DEFAULT_IO_TIMEOUT, command, keys, o1.Next());
    if begin.code == TIMERR_NOERROR && TestReturns(t.result) then
      Run(t.result, [caps, begin] + t.events + [Event(TimeEndPeriod(DEFAULT_TIMER_RESOLUTION), t.after.Answer())],
          t.after.Next())
    else Run(t.result, [caps, begin] + t.events, t.after)
  }

  method ConsoleMain(dll: CifXDll, command: string, keys: seq<KeyPoll>) returns (outcome: TestOutcome)
    modifies dll
    ensures var r := ConsoleMainSpec(command, keys, old(dll.oracle));
      outcome == r.result && dll.oracle == r.after && dll.trace == old(dll.trace) + r.events
  {
    ghost var t0 := dll.trace;
    ghost var caps := Event(TimeGetDevCaps, dll.oracle.Answer());
    var _ := dll.Invoke(TimeGetDevCaps);
    ghost var begin := Event(TimeBeginPeriod(DEFAULT_TIMER_RESOLUTION), dll.oracle.Answer());
    var mmResult := dll.Invoke(TimeBeginPeriod(DEFAULT_TIMER_RESOLUTION));
    ghost var o2 := dll.oracle;
    outcome := ConsoleTest(dll, DEFAULT_BOARD, DEFAULT_IO_TIMEOUT, command, keys);
    ghost var t := ConsoleTestSpec(DEFAULT_BOARD, DEFAULT_IO_TIMEOUT, command, keys, o2);
    assert [caps] + [begin] == [caps, begin];
    AppendAssoc(t0, [caps], [begin]);
    AppendAssoc(t0, [caps, begin], t.events);
    if !TestReturns(outcome) {
      // The exception of WIC_ReadIOData leaves `main`; the polling loop never ends.
      return;
    }
    if mmResult == TIMERR_NOERROR {
      ghost var end := Event(TimeEndPeriod(DEFAULT_TIMER_RESOLUTION), dll.oracle.Answer());
      var _ := dll.Invoke(TimeEndPeriod(DEFAULT_TIMER_RESOLUTION));
      AppendAssoc(t0, [caps, begin] + t.events, [end]);
    }
  }

  predicate IsTimerCall(c: Call)
  {
    c.TimeGetDevCaps? || c.TimeBeginPeriod? || c.TimeEndPeriod?
  }

  predicate NoTimerCalls(es: seq<Event>)
  {
    forall i :: 0 <= i < |es| ==> !IsTimerCall(es[i].call)
  }

  lemma NoTimerCallsAppend(a: seq<Event>, b: seq<Event>)
    requires NoTimerCalls(a) && NoTimerCalls(b)
    ensures NoTimerCalls(a + b)
  {
    forall i | 0 <= i < |a + b| ensures !IsTimerCall((a + b)[i].call) {
      if i < |a| {
        assert (a + b)[i] == a[i];
      } else {
        assert (a + b)[i] == b[i - |a|];
      }
    }
  }

  lemma EnumerationNoTimer(es: seq<Event>)
    requires EnumerationOnly(es)
    ensures NoTimerCalls(es)
  {
  }

  lemma ChannelNoTimer(es: seq<Event>)
    requires ChannelCallsOnly(es)
    ensures NoTimerCalls(es)
  {
  }

  /** The console test makes no timer call. */
  lemma ConsoleTestNoTimerCalls(board: string, timeout: nat, command: string, keys: seq<KeyPoll>, o: Oracle)
    ensures NoTimerCalls(ConsoleTestSpec(board, timeout, command, keys, o).events)
  {
    var h := o.Handle();
    var o1 := o.NextOpen();
    var e := Event(Call.DriverOpen(h), o.Answer());
    if o.Answer() == CIFX_NO_ERROR {
      var boards := BoardLoopSpec(h, 0, board, o1.Next());
      var rest := TestAfterBoards(h, boards.result, timeout, command, keys, boards.after);
      var head := [e, Event(DriverGetInformation(h), o1.Answer())];
      BoardLoopEnumerates(h, 0, board, o1.Next());
      EnumerationNoTimer(boards.events);
      TestAfterBoardsCalls(h, boards.result, timeout, command, keys, boards.after);
      ChannelNoTimer(rest.events);
      assert NoTimerCalls(head) by {
        assert forall i :: 0 <= i < |head| ==> !IsTimerCall(head[i].call);
      }
      NoTimerCallsAppend(head, boards.events);
      NoTimerCallsAppend(head + boards.events, rest.events);
    } else {
      assert ConsoleTestSpec(board, timeout, command, keys, o).events == [e];
    }
  }

  /** The shape of `main`'s trace: the capability query, the period request, timer-free calls,
      and at most one give-back of the same period. */
  lemma TimerShape(caps: Event, begin: Event, mid: seq<Event>, tail: seq<Event>)
    requires caps.call == TimeGetDevCaps && begin.call == TimeBeginPeriod(DEFAULT_TIMER_RESOLUTION)
    requires NoTimerCalls(mid)
    requires tail == [] || (|tail| == 1 && tail[0].call == TimeEndPeriod(DEFAULT_TIMER_RESOLUTION))
    ensures var es := [caps, begin] + mid + tail;
      && (forall i :: 2 <= i < |es| ==> !es[i].call.TimeBeginPeriod? && !es[i].call.TimeGetDevCaps?)
      && (forall i :: 0 <= i < |es| && es[i].call.TimeEndPeriod? ==>
            i == |es| - 1 && es[i].call.period == es[1].call.period)
      && ((exists i :: 0 <= i < |es| && es[i].call.TimeEndPeriod?) <==> tail != [])
  {
    var es := [caps, begin] + mid + tail;
    forall i | 2 <= i < 2 + |mid| ensures es[i] == mid[i - 2] {
    }
    if tail != [] {
      assert es[|es| - 1] == tail[0];
    }
  }

  /** Timer pairing in `main`: the 1 ms period is requested once, as the second call, and
      given back at most once, as the very last call and with the same period; it is given
      back exactly when the request was granted and the test came back. */
  lemma TimerPairing(command: string, keys: seq<KeyPoll>, o: Oracle)
    ensures var r := ConsoleMainSpec(command, keys, o);
      var es := r.events;
      && |es| >= 2 && es[0].call == TimeGetDevCaps && es[1].call == TimeBeginPeriod(DEFAULT_TIMER_RESOLUTION)
      && (forall i :: 2 <= i < |es| ==> !es[i].call.TimeBeginPeriod? && !es[i].call.TimeGetDevCaps?)
      && (forall i :: 0 <= i < |es| && es[i].call.TimeEndPeriod? ==>
            i == |es| - 1 && es[i].call.period == es[1].call.period)
      && ((exists i :: 0 <= i < |es| && es[i].call.TimeEndPeriod?) <==>
            es[1].code == TIMERR_NOERROR && TestReturns(r.result))
  {
    var o1 := o.Next();
    var caps := Event(TimeGetDevCaps, o.Answer());
    var begin := Event(TimeBeginPeriod(DEFAULT_TIMER_RESOLUTION), o1.Answer());
    var t := ConsoleTestSpec(DEFAULT_BOARD, DEFAULT_IO_TIMEOUT, command, keys, o1.Next());
    ConsoleTestNoTimerCalls(DEFAULT_BOARD, DEFAULT_IO_TIMEOUT, command, keys, o1.Next());
    if begin.code == TIMERR_NOERROR && TestReturns(t.result) {
      TimerShape(caps, begin, t.events, [Event(TimeEndPeriod(DEFAULT_TIMER_RESOLUTION), t.after.Answer())]);
    } else {
      TimerShape(caps, begin, t.events, []);
      assert [caps, begin] + t.events + [] == [caps, begin] + t.events;
    }
  }

  /** `main` passes the board name `cifX0`, which is not blank, so the board loop keeps it:
      the console test started from `main` always reads from `cifX0`. */
  lemma DefaultBoardKept(driver: nat, o: Oracle)
    ensures BoardLoopSpec(driver, 0, DEFAULT_BOARD, o).result.name == DEFAULT_BOARD
  {
    assert !IsSpace(DEFAULT_BOARD[0]);
    BoardLoopName(driver, 0, DEFAULT_BOARD, o);
  }
}
