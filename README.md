# A Dafny model of the fls Profibus slave over a Hilscher cifX board

The fls repository exchanges cyclic Profibus process data with a Hilscher cifX board from
Python, through ctypes calls into `cifX32dll.dll`. This project models the core of that code
and proves properties about the model:

- **Record layouts** (`definitions.dfy`, with `bytes.dfy`).
  - The device-to-host record `PbBufInWic` is 16 scalar uint16 fields and four arrays
    `sp1..sp4` of 8 uint16. Its image is 96 bytes.
  - The host-to-device record `PbBufOutWic` (`_pack_ = 2`) is the same 16 scalars, then eight
    arrays `pv1, pvq1, .., pv4, pvq4`. Its image is 160 bytes.
  - `DriverInformation` is 36 bytes and `SystemChannelSystemInfoBlock` is 48, both packed.
  - Each record has a little-endian encoder and decoder, matching the Windows/x86 host. The
    round trips are proved.
- **The foreign libraries** (`driver.dfy`). Every modelled call into `cifX32dll.dll` or
  `winmm.dll` takes its return code from a scripted oracle and is added to a trace of calls.
  `xDriverGetErrorDescription`, issued only to print an error, is not a modelled call, so every
  statement about the trace is about the calls that decide the program's course. Open calls
  also take the handle they write from the script.
  - Once the code script is used up, every call answers `CIFX_NO_MORE_ENTRIES`. This is what
    ends the enumeration loops.
  - A reference state machine for one channel session (closed, opened, host ready, bus on)
    judges the traces.
- **`CIFX70E_DP.py`** (`cifx.dfy`, `console.dfy`).
  - `fill_pb_buf_in_wic_data` and `copy_struct` on records seen as Python objects.
  - The channel session: open, host state READY, bus state ON, close after a failed state
    request.
  - The read loop of `WIC_ReadIOData`, with the keyboard as a finite script of polls.
  - The write path of `WIC_SendToMaster`.
  - The board and channel enumeration of `WIC_RunCifXConsoleTest` and what it runs afterwards.
  - The system-timer pairing in `main`.
- **`text_logger.py`** (`text_logger.dfy`).
  - `RotatingTextFileHandler` as a class. Its file is a sequence of records; how each reset
    ends is a parameter.
  - The `get_logger` registry as a class over a set of names and a map of loggers.
- **`fls_cli.py`** (`fls_cli.dfy`). `main`: open the driver, run the read, close the driver in
  `finally`, return a code.

Each imperative function of the source is a method. Its `ensures` ties its result, the oracle
afterwards and the calls it added to the trace to a specification function of the inputs. The
properties are lemmas about those functions.

The model keeps the source's behaviour, including its quirks:

- A good read returns the record with the channel still open.
- 244 bytes are read into a 488-byte buffer, and only the first 96 are decoded.
- `xChannelOpen` receives `ctypes.byref(hDriver)`, the address of the driver handle, and not
  the handle. The call records this as `ByRef`.
- `WIC_RunCifXConsoleTest` never closes the driver it opened. The channel opened by its read
  is closed only inside `WIC_ReadIOData`: after a failed state request or when the loop is left
  by key, not after a good read.
- The `w` key of the read loop calls the 4-argument `WIC_SendToMaster` with 3 arguments, so it
  raises.
- Copying a `PbBufInWic` onto a `PbBufOutWic` sets the 16 header fields only. `sp1..sp4`
  become plain Python attributes, and every pv/pvq word stays zero.

## Model

| member | source | states |
|---|---|---|
| Bytes.ToU16 | profibus/hilscher/src/hilscher/CIFX70E_DP.py:443 | a c_uint16 field assigned an int keeps a value congruent to it modulo 2^16, and keeps an in-range value unchanged |
| Bytes.ToInt32 | profibus/hilscher/src/hilscher/CIFX70E_DP.py:67-68 | `c_int32(x).value` is congruent to x modulo 2^32 and equals x when it fits |
| Bytes.PackWordsAt | profibus/hilscher/src/hilscher/Definitions.py:91-144 | in an array of uint16 with no padding, element i sits at bytes 2i..2i+2 and reads back as itself |
| Definitions.EncodeIn | profibus/hilscher/src/hilscher/Definitions.py:91-114 | the image of a PbBufInWic is exactly 96 bytes |
| Definitions.EncodeInAt | profibus/hilscher/src/hilscher/Definitions.py:91-114 | the i-th uint16 of the input record (declaration order) is at byte offset 2i |
| Definitions.EncodeOut | profibus/hilscher/src/hilscher/Definitions.py:117-144 | the image of a PbBufOutWic is exactly 160 bytes, within the 244-byte buffer |
| Definitions.EncodeOutAt | profibus/hilscher/src/hilscher/Definitions.py:117-144 | the i-th uint16 of the output record is at byte offset 2i: 2-byte packing adds no padding |
| Definitions.DecodeEncodeIn | profibus/hilscher/src/hilscher/Definitions.py:91-114 | decoding the image of an input record gives the record back |
| Definitions.DecodeEncodeOut | profibus/hilscher/src/hilscher/Definitions.py:117-144 | decoding the image of an output record gives the record back |
| Definitions.EncodeDecodeIn | profibus/hilscher/src/hilscher/Definitions.py:91-114 | every 96-byte buffer is the image of the record it decodes to |
| Definitions.DecodeInPrefix | profibus/hilscher/src/hilscher/CIFX70E_DP.py:322 | decoding an input record reads the first 96 bytes of the buffer and nothing after them |
| Definitions.DecodeInOfWords | profibus/hilscher/src/hilscher/Definitions.py:91-114 | a buffer starting with 48 packed words decodes to the record whose fields are those words in order, whatever follows |
| Definitions.HeaderPrefixShared | profibus/hilscher/src/hilscher/Definitions.py:91-135 | records with equal headers have the same first 32 bytes (state1 .. value_16) |
| Definitions.DecodeOutImageAsIn | profibus/hilscher/src/hilscher/Definitions.py:91-144 | an output image read as an input record gives the same 16 scalars, with sp1..sp4 on the bytes of pv1, pvq1, pv2, pvq2 |
| Definitions.OutFieldList | profibus/hilscher/src/hilscher/Definitions.py:117-144 | `_fields_` of an output record: each declared name in order, paired with its getattr value |
| Definitions.InFieldList | profibus/hilscher/src/hilscher/Definitions.py:91-114 | `_fields_` of an input record: each declared name in order, paired with its getattr value |
| Definitions.SetOutField | profibus/hilscher/src/hilscher/CIFX70E_DP.py:443 | setattr on a declared field raises TypeError exactly when the value has the wrong kind; otherwise that field holds the stored value and every other field is unchanged |
| Definitions.OutFieldsDetermine | profibus/hilscher/src/hilscher/Definitions.py:117-144 | two output records that agree on every declared field are equal |
| Definitions.OutFieldNamesDistinct | profibus/hilscher/src/hilscher/Definitions.py:119-144 | no two fields of PbBufOutWic share a name |
| Definitions.InFieldNames | profibus/hilscher/src/hilscher/Definitions.py:91-144 | input field names are distinct; the 16 header names are those of the output record; sp1..sp4 are not output fields |
| Definitions.EncodeDriverInformation | profibus/hilscher/src/hilscher/Definitions.py:12-17 | the packed DRIVER_INFORMATION image is 36 bytes |
| Definitions.DecodeEncodeDriverInformation | profibus/hilscher/src/hilscher/Definitions.py:12-17 | decoding the 36-byte image gives the record back: version string at offset 0, board count at offset 32 |
| Definitions.EncodeSystemInfo | profibus/hilscher/src/hilscher/Definitions.py:20-40 | the packed system info block is 48 bytes |
| Definitions.SystemInfoHeadAt | profibus/hilscher/src/hilscher/Definitions.py:22-27 | cookie at 0x00, DPM size at 0x04, device number at 0x08, serial at 0x0C, hardware options at 0x10 |
| Definitions.SystemInfoTailAt | profibus/hilscher/src/hilscher/Definitions.py:28-31 | manufacturer at 0x18, production date at 0x1A, licence flags at 0x1C and 0x20 |
| Definitions.SystemInfoClassAt | profibus/hilscher/src/hilscher/Definitions.py:32-39 | licence id 0x24, licence flags 0x26, device class 0x28, the four bytes 0x2A..0x2D, reserved word 0x2E |
| Definitions.DecodeEncodeSystemInfo | profibus/hilscher/src/hilscher/Definitions.py:20-40 | reading every field at its documented offset gives the block back |
| Driver.PhaseOrigin | profibus/hilscher/src/hilscher/CIFX70E_DP.py:280-309 | every open session phase was reached through the successful calls that lead to it |
| Driver.HostStateFollowsOpen | profibus/hilscher/src/hilscher/CIFX70E_DP.py:280-301 | in a protocol-respecting trace, a host-state request follows a successful open that returned its non-NULL handle |
| Driver.BusStateFollowsHostState | profibus/hilscher/src/hilscher/CIFX70E_DP.py:296-309 | in a protocol-respecting trace, a bus-state request follows a successful host-state request on the same handle |
| Driver.IOFollowsNegotiation | profibus/hilscher/src/hilscher/CIFX70E_DP.py:296-316 | in a protocol-respecting trace, I/O follows successful host-state and bus-state requests on its handle |
| Driver.CopyInto | profibus/hilscher/src/hilscher/CIFX70E_DP.py:535 | `memmove` into a buffer: its first bytes are the data and the rest is untouched |
| Cifx.FillPbBufInWicData | profibus/hilscher/src/hilscher/CIFX70E_DP.py:72-116 | the time stamp holds year, month, day, hours, minutes and seconds, and the intervals interval1..interval4, of the record, each under its own name; the four setpoint lists have 8 entries each |
| Cifx.ImageContextKeepsAllButUnused | profibus/hilscher/src/hilscher/CIFX70E_DP.py:72-116 | two records give the same image context exactly when they differ only in state1, state2 and value_13..value_16 |
| Cifx.ImageContextSetpoints | profibus/hilscher/src/hilscher/CIFX70E_DP.py:101-107 | each setpoint list is the record's array, element by element |
| Cifx.FieldIndex | profibus/hilscher/src/hilscher/CIFX70E_DP.py:443 | a name resolves to the declared output field of that name, or to none when it is not declared |
| Cifx.OutStruct.constructor | profibus/hilscher/src/hilscher/CIFX70E_DP.py:479 | `PbBufOutWic()` is all zeros and has no extra attributes |
| Cifx.SetAttr | profibus/hilscher/src/hilscher/CIFX70E_DP.py:443 | setattr with an undeclared name adds a plain attribute; with a declared one it sets the field, or raises when the value is rejected |
| Cifx.CopyRaisesIff | profibus/hilscher/src/hilscher/CIFX70E_DP.py:442-443 | the copy raises exactly when some source entry is rejected by the destination |
| Cifx.CopyLeavesOthers | profibus/hilscher/src/hilscher/CIFX70E_DP.py:442-443 | fields not named by the source keep their values; unnamed names and declared fields keep their plain attributes |
| Cifx.CopySetsNamed | profibus/hilscher/src/hilscher/CIFX70E_DP.py:442-443 | with distinct names and no TypeError, every named field or attribute ends up holding the source's value |
| Cifx.CopyDeclaredKeepsAttributes | profibus/hilscher/src/hilscher/CIFX70E_DP.py:442-443 | when every source name is declared, no plain attribute changes |
| Cifx.CopyOwnFields | profibus/hilscher/src/hilscher/CIFX70E_DP.py:434-443 | copying an output record onto any output struct reproduces it exactly and adds no attribute |
| Cifx.CopyInRecord | profibus/hilscher/src/hilscher/CIFX70E_DP.py:434-443 | copying an input record does not raise and replaces only the 16 header fields |
| Cifx.CopyInAttributes | profibus/hilscher/src/hilscher/CIFX70E_DP.py:434-443 | copying an input record adds sp1..sp4 as plain attributes and changes no other attribute |
| Cifx.CopyInOntoOut | profibus/hilscher/src/hilscher/CIFX70E_DP.py:434-443 | the whole result of copying an input record onto an output struct |
| Cifx.CopyStruct | profibus/hilscher/src/hilscher/CIFX70E_DP.py:434-443 | the setattr loop leaves the struct as the field-by-field copy says, and reports a TypeError that stops it |
| Cifx.OpenChannelSpec | profibus/hilscher/src/hilscher/CIFX70E_DP.py:280-309 | a session that comes up has a non-NULL device handle |
| Cifx.HostStateSpec | profibus/hilscher/src/hilscher/CIFX70E_DP.py:294-301 | a session continuing past host state is on the handle it was given |
| Cifx.BusStateSpec | profibus/hilscher/src/hilscher/CIFX70E_DP.py:303-309 | a session continuing past bus state is on the handle it was given |
| Cifx.OpenChannelProtocol | profibus/hilscher/src/hilscher/CIFX70E_DP.py:280-309 | open first, through the address of the driver handle; the protocol is kept and ends bus-on exactly on success; no I/O; one close, as the last call, after a failed state request; a failed open or a NULL handle gives no close |
| Cifx.LastIsClose | profibus/hilscher/src/hilscher/CIFX70E_DP.py:296-309 | a failed state request ends with a close of the device |
| Cifx.SessionKeepsDevice | profibus/hilscher/src/hilscher/CIFX70E_DP.py:296-309 | the host-state request, and the close after it, change neither the device's input area nor the board names |
| Cifx.OpenChannelHandle | profibus/hilscher/src/hilscher/CIFX70E_DP.py:280-309 | a session that came up uses the handle the open call wrote |
| Cifx.OpenChannelKeepsOutput | profibus/hilscher/src/hilscher/CIFX70E_DP.py:280-309 | bringing the channel up changes neither the device's input area nor its output area |
| Cifx.OpenChannel | profibus/hilscher/src/hilscher/CIFX70E_DP.py:280-309 | the session set-up as a method: its result, calls and oracle are those of the specification |
| Cifx.KeyActionOf | profibus/hilscher/src/hilscher/CIFX70E_DP.py:326-335 | q, Q and ESC stop the loop; w, W and a byte that is not a whole UTF-8 character raise; other keys are ignored |
| Cifx.PollAction | profibus/hilscher/src/hilscher/CIFX70E_DP.py:326-327 | a round without a key is ignored; a key acts as KeyActionOf says |
| Cifx.ReadBuffer | profibus/hilscher/src/hilscher/CIFX70E_DP.py:267 | after a good read the 488-byte buffer holds the 244 bytes of the input area, then zeros |
| Cifx.Returned | profibus/hilscher/src/hilscher/CIFX70E_DP.py:321-323 | a record is returned exactly after a good read |
| Cifx.ReadLoopPhase | profibus/hilscher/src/hilscher/CIFX70E_DP.py:314-348 | the read loop keeps the session protocol; it closes the channel exactly when left by key and otherwise leaves it bus-on |
| Cifx.ReadLoopCalls | profibus/hilscher/src/hilscher/CIFX70E_DP.py:314-348 | every read asks for 244 bytes of area 0 at offset 0; there are at most as many reads as key polls, all of them when the script runs out; a key exit closes the channel right after the last read |
| Cifx.ReadLoopCodes | profibus/hilscher/src/hilscher/CIFX70E_DP.py:314-323 | failed reads keep the loop running; a buffer is returned exactly when the last read succeeded |
| Cifx.ReadLoopBuffer | profibus/hilscher/src/hilscher/CIFX70E_DP.py:316-323 | the buffer returned is filled from the input area the device showed |
| Cifx.ReadDecodesFirst96 | profibus/hilscher/src/hilscher/CIFX70E_DP.py:316-323 | the returned record decodes only the first 96 of the bytes the device shows |
| Cifx.ReadIODataPhase | profibus/hilscher/src/hilscher/CIFX70E_DP.py:263-348 | WIC_ReadIOData keeps the protocol; it leaves the channel closed exactly when set-up failed or the loop was left by key |
| Cifx.ReadIODataOrdered | profibus/hilscher/src/hilscher/CIFX70E_DP.py:280-316 | host state follows a successful non-NULL open, bus state follows host state, and I/O follows bus state |
| Cifx.ReadIODataChannelCalls | profibus/hilscher/src/hilscher/CIFX70E_DP.py:263-348 | apart from error-description lookups, WIC_ReadIOData issues channel calls only, the first being the open of channel 0 through the driver handle's address |
| Cifx.ReadLoopRound | profibus/hilscher/src/hilscher/CIFX70E_DP.py:314-344 | one round of the loop as the loop invariant needs it: good read, ignored poll, stop, or raise |
| Cifx.ReadLoop | profibus/hilscher/src/hilscher/CIFX70E_DP.py:312-348 | the `while not bExitLoop` loop as a method, equal to its specification |
| Cifx.ReadIOData | profibus/hilscher/src/hilscher/CIFX70E_DP.py:263-348 | WIC_ReadIOData as a method; a good read returns the record decoded from the start of the buffer |
| Cifx.WriteImage | profibus/hilscher/src/hilscher/CIFX70E_DP.py:477-535 | the write buffer is exactly 244 bytes |
| Cifx.WriteImageDecodes | profibus/hilscher/src/hilscher/CIFX70E_DP.py:535-539 | the buffer written begins with the output record's image, which decodes back to it, followed by zeros |
| Cifx.ReadBack | profibus/hilscher/src/hilscher/CIFX70E_DP.py:550-556 | a read-back record exists exactly when the read-back succeeded |
| Cifx.TransferSpec | profibus/hilscher/src/hilscher/CIFX70E_DP.py:535-561 | once the session is up, the write path always ends in Sent |
| Cifx.TransferPhase | profibus/hilscher/src/hilscher/CIFX70E_DP.py:539-561 | the write, the read-back and the close keep the protocol and leave the channel closed |
| Cifx.SendRecordProtocol | profibus/hilscher/src/hilscher/CIFX70E_DP.py:496-561 | the channel ends closed; when it came up, the last three modelled calls write the record's 244-byte image, read back whatever the write returned, and close; the device holds the image exactly when the write succeeded |
| Cifx.SendToMasterProtocol | profibus/hilscher/src/hilscher/CIFX70E_DP.py:474-561 | no channel is left open or misused; a copy that raised issues no call; the size check never fires |
| Cifx.SendOutRecord | profibus/hilscher/src/hilscher/CIFX70E_DP.py:474-539 | sending an output record does not raise and writes that record's image |
| Cifx.SendInRecord | profibus/hilscher/src/hilscher/CIFX70E_DP.py:474-539 | sending an input record writes its 16 header words and zero for every pv/pvq word |
| Cifx.Transfer | profibus/hilscher/src/hilscher/CIFX70E_DP.py:535-561 | the write, the read-back and the close as a method, equal to their specification |
| Cifx.SendRecord | profibus/hilscher/src/hilscher/CIFX70E_DP.py:492-561 | from the channel open on, as a method; a read-back buffer is 244 bytes |
| Cifx.SendToMaster | profibus/hilscher/src/hilscher/CIFX70E_DP.py:474-561 | WIC_SendToMaster as a method; the read-back record is decoded from the read-back buffer |
| Console.NoMoreEntriesIsNegative | profibus/hilscher/src/hilscher/CIFX70E_DP.py:67-68 | CIFX_NO_MORE_ENTRIES is 0x800A0014 - 2^32: negative and different from CIFX_NO_ERROR |
| Console.ChannelLoopCounts | profibus/hilscher/src/hilscher/CIFX70E_DP.py:207-240 | channel indices are consecutive, one per call, including after a failure; the count is the number of successes, which are all calls but the last |
| Console.ChannelLoopRound | profibus/hilscher/src/hilscher/CIFX70E_DP.py:207-240 | one round of the channel loop under the loop invariant |
| Console.EnumerateChannels | profibus/hilscher/src/hilscher/CIFX70E_DP.py:187-240 | the channel loop as a method; the index ends one past the channels counted |
| Console.BoardLoopCounts | profibus/hilscher/src/hilscher/CIFX70E_DP.py:175-243 | boards are asked for by consecutive indices; the count is the number of successful calls before the first failure |
| Console.ChannelLoopHasNoBoardCalls | profibus/hilscher/src/hilscher/CIFX70E_DP.py:207-240 | the channel loop issues no board enumeration call |
| Console.BoardLoopName | profibus/hilscher/src/hilscher/CIFX70E_DP.py:198-202 | a non-blank board name is kept; a blank one takes the name of the first board found when that name is not blank; with no board found the name is unchanged |
| Console.BoardLoopFound | profibus/hilscher/src/hilscher/CIFX70E_DP.py:175-243 | a round that found a board, under the loop invariant |
| Console.BoardLoopEnd | profibus/hilscher/src/hilscher/CIFX70E_DP.py:177-181 | the round whose call failed is the last |
| Console.VisitBoard | profibus/hilscher/src/hilscher/CIFX70E_DP.py:176-240 | one board round: the enumeration call and, when it succeeds, that board's channel loop |
| Console.EnumerateBoards | profibus/hilscher/src/hilscher/CIFX70E_DP.py:170-243 | the board loop as a method, equal to its specification; `fBoardFound` holds exactly when a board was counted |
| Console.BoardLoopEnumerates | profibus/hilscher/src/hilscher/CIFX70E_DP.py:175-243 | apart from error-description lookups, the loops issue enumeration calls only |
| Console.RunAfterBoards | profibus/hilscher/src/hilscher/CIFX70E_DP.py:250-260 | what follows the loops, as a method |
| Console.ConsoleTest | profibus/hilscher/src/hilscher/CIFX70E_DP.py:144-260 | WIC_RunCifXConsoleTest as a method, equal to its specification |
| Console.TestAfterBoardsCalls | profibus/hilscher/src/hilscher/CIFX70E_DP.py:250-260 | after the loops only channel calls are issued (error-description lookups aside), and a channel is opened exactly when a board was found and the answer was r |
| Console.ConsoleTestKeepsDriverOpen | profibus/hilscher/src/hilscher/CIFX70E_DP.py:144-260 | WIC_RunCifXConsoleTest never closes the driver |
| Console.ConsoleTestReadsIff | profibus/hilscher/src/hilscher/CIFX70E_DP.py:144-260 | I/O is attempted exactly when the driver opened, a board was found and the answer was r, and then on channel 0 of the chosen board |
| Console.ConsoleMain | profibus/hilscher/src/hilscher/CIFX70E_DP.py:351-390 | `main` as a method, equal to its specification |
| Console.ConsoleTestNoTimerCalls | profibus/hilscher/src/hilscher/CIFX70E_DP.py:144-260 | the console test makes no winmm timer call |
| Console.TimerShape | profibus/hilscher/src/hilscher/CIFX70E_DP.py:367-388 | shape of a caps query, a period request, timer-free calls and at most one give-back |
| Console.TimerPairing | profibus/hilscher/src/hilscher/CIFX70E_DP.py:367-388 | the 1 ms period is requested once, second; it is given back at most once, last and with the same period, exactly when the request was granted and the test returned |
| Console.DefaultBoardKept | profibus/hilscher/src/hilscher/CIFX70E_DP.py:378-384 | `main` passes `cifX0`, which the board loop keeps |
| TextLogger.ExistingLineCount | src/utils/src/utils/text_logger.py:44-51 | the initial count never exceeds the file's lines, and equals them exactly when the file is readable or empty |
| TextLogger.ResetFileSpec | src/utils/src/utils/text_logger.py:53-61 | the file is emptied or left as it was, left as it was exactly when the reset failed before truncating it; the counter drops to 0 and the stream reopens exactly on a complete reset, otherwise the counter is kept and the stream is closed |
| TextLogger.EmitSpec | src/utils/src/utils/text_logger.py:38-42 | at the limit a reset comes first and, when it completes, restarts the counter; then exactly one more line is counted, leaving the counter within 1..max(max_lines, 1); the stream stays open exactly when no reset was needed or it completed, and then the record is the file's last line |
| TextLogger.EmitAllBounded | src/utils/src/utils/text_logger.py:38-59 | while resets succeed the counter stays between 1 and max(max_lines, 1) |
| TextLogger.EmitAllKeepsRecent | src/utils/src/utils/text_logger.py:38-61 | while resets succeed the file is a suffix of its old lines followed by everything emitted, and the counter never exceeds the file's lines |
| TextLogger.RotationBoundsFile | src/utils/src/utils/text_logger.py:38-61 | a handler in step with its file never lets the file grow past max(max_lines, 1) records |
| TextLogger.EmitAllEndsWithLast | src/utils/src/utils/text_logger.py:38-42 | while resets succeed, the last record emitted is the file's last line |
| TextLogger.ClosedStreamLosesRecords | src/utils/src/utils/text_logger.py:38-61 | after a failed reset, records are counted but never written |
| TextLogger.RotatingTextFileHandler.GetExistingLineCount | src/utils/src/utils/text_logger.py:44-51 | the counting loop returns the initial line count |
| TextLogger.RotatingTextFileHandler.constructor | src/utils/src/utils/text_logger.py:32-36 | a new handler has an open stream, the file as it was and the initial line count |
| TextLogger.RotatingTextFileHandler.ResetFile | src/utils/src/utils/text_logger.py:53-61 | `_reset_file` changes the handler as ResetFileSpec says |
| TextLogger.RotatingTextFileHandler.Emit | src/utils/src/utils/text_logger.py:38-42 | `emit` changes the handler as EmitSpec says |
| TextLogger.ReadableStartsInStep | src/utils/src/utils/text_logger.py:32-51 | a handler on a readable file starts with its counter equal to the file's lines |
| TextLogger.GetLoggerSpec | src/utils/src/utils/text_logger.py:67-91 | the name is registered; the registry only gains that name; no other logger changes |
| TextLogger.GetLoggerMemoised | src/utils/src/utils/text_logger.py:76-77 | a registered name changes nothing, not even the level |
| TextLogger.GetLoggerAttachesOnlyIfNone | src/utils/src/utils/text_logger.py:79-88 | a first call sets the level and attaches a 1000-line rotating handler exactly when the logger has no handler, its own or inherited |
| TextLogger.GetLoggerIdempotent | src/utils/src/utils/text_logger.py:76-91 | a second call from the same module changes nothing |
| TextLogger.GetLoggerAll | src/utils/src/utils/text_logger.py:65-91 | over any sequence of calls the registry only grows |
| TextLogger.GetLoggerAllNoSecondHandler | src/utils/src/utils/text_logger.py:76-90 | no logger ever gets a second handler, and a registered logger never changes |
| TextLogger.LoggerRegistry.constructor | src/utils/src/utils/text_logger.py:65 | the registry starts empty |
| TextLogger.LoggerRegistry.GetLogger | src/utils/src/utils/text_logger.py:67-91 | `get_logger` changes the registry and the loggers as GetLoggerSpec says |
| FlsCli.CliMain | src/fls_cli/src/fls_cli/fls_cli.py:27-121 | `main` as a method, equal to its specification |
| FlsCli.CliLifecycle | src/fls_cli/src/fls_cli/fls_cli.py:36-121 | a failed open exits before any read; a good open reads cifX0 through the driver handle; the code is 2 exactly when the read raised and 0 otherwise; the driver is closed once, last, exactly when `finally` runs with a non-NULL handle |
| FlsCli.ExitStatusAsWritten | src/fls_cli/src/fls_cli/fls_cli.py:124-125 | as written, a failed open exits with status 1 through `sys.exit(1)` (line 50) and every return from `main` exits with status 0 |
| FlsCli.ExitStatus | src/fls_cli/src/fls_cli/fls_cli.py:127-138 | with the disabled `__main__`, a return exits with `main`'s return code, and a failed open with 4, because its bare `except:` catches the `SystemExit` of `sys.exit(1)` |
| FlsCli.ReadFailureExitsZeroAsWritten | src/fls_cli/src/fls_cli/fls_cli.py:124-125 | a read that raised gives return code 2, yet exit status 0 |
| FlsCli.ReadFailureExitsZeroWitness | src/fls_cli/src/fls_cli/fls_cli.py:124-125 | a concrete run in which that happens: the open succeeds, the read fails and `w` is pressed |
| FlsCli.ExitStatusReportsFailure | src/fls_cli/src/fls_cli/fls_cli.py:127-138 | with the disabled block's exit status: 4 when the driver did not open, 2 when the read raised, 0 otherwise |

## Left out

- The DLLs. `cifX32dll.dll` and `winmm.dll` are an oracle of return codes, handles, board names and device memory areas. Their real behaviour is not part of this model.
- Printing is not modelled: `WIC_PrintPBStruct`, `print_PbBufOutWic`, and the board, channel and driver-information printouts.
- `show_error` is not modelled. Its `xDriverGetErrorDescription` call, made after every failed open, state request, read, write and channel enumeration, is not in the trace. Trace properties such as "channel calls only", "enumeration calls only" and "the last three calls" leave these calls out.
- `decode('ascii')` of strings the driver returns is not modelled: the driver version, board name and alias, the channel names and the error description. On a non-ASCII byte it raises UnicodeDecodeError, which ends `WIC_RunCifXConsoleTest` (or `WIC_ReadIOData` after a failed call) with an exception. The model takes every such string as decodable.
- The contents of `BoardInformation` and `ChannelInformation` are left out. Only the board name is used, and the oracle supplies it for each board index.
- `xDriverGetInformation` is modelled as a call whose answer is only printed; apart from the decode above, its result does not change what the program does next.
- `msvcrt.kbhit`/`getch`, `input()` and `time.sleep(3)` are scripts (key polls, the command line). When the key script runs out, the read loop stops with `Polling`, where the program would go on polling.
- `main`'s command-line help text and the unused firmware/config path globals are left out.
- Console.IsReadCommand: `input().lower() == 'r'` is modelled as the two strings "r" and "R", for ASCII input only; Python is not asked about any other Unicode character whose lower case might be "r".
- The c_ulong board and channel indices are unbounded naturals. The loops would need 2^32 boards or channels to wrap.
- Cifx.KeyActionOf: on a key byte of 0x80 or more, as on `w`, the model raises; it does not distinguish the ValueError `int(input())` may raise before that TypeError.
- `fill_pb_buf_in_wic_data`'s AttributeError path is left out: it cannot fire on a PbBufInWic, which has every attribute read.
- Definitions.DecodeIn requires at least 96 bytes. The code never checks this, and every buffer it decodes from is 244 or 488 bytes.
- `logging` internals are left out: formatters, levels other than the one set, propagation and the records' text. The handler sees each record as one string, and the file is the sequence of records written.
- TextLogger.ExistingLineCount counts the lines of an existing file as entries of the same sequence that records are appended to. A record with an embedded newline counts as one line in the model.
- TextLogger.EmitSpec: a write error other than writing to a closed stream is not modelled.
- TextLogger.GetLoggerSpec: `logger.hasHandlers()` also looks at ancestor loggers; that part is the parameter `inherited`, not a model of the logger hierarchy.
- The path helpers `get_startup_path`, `create_logfile_name` and `get_application_path` are left out; the log file name is a parameter.
- The logging calls in `fls_cli.main` are left out.
- The test `main` of `text_logger.py`, `fls_show.py` (a GUI) and the logger test are left out.
- `WIC_ReadIOData`'s `w` branch is modelled as the exception it raises. SendInRecord states what the intended 4-argument call would write.

## Findings

| source | as written | input that shows it | evidently intended | confidence | as-written member | corrected member |
|---|---|---|---|---|---|---|
| src/fls_cli/src/fls_cli/fls_cli.py:124-125 | `__main__` calls `main()` and drops its result, so the process exits with status 0 after the read raised and `return_code` became 2 | driver opens; channel open, host state and bus state succeed; the first read fails and `w` is pressed | exit with `main()`'s return code, as the disabled block at lines 127-138 does (that block exits 4, not 1, on a failed open) | not executed | FlsCli.ReadFailureExitsZeroAsWritten | FlsCli.ExitStatusReportsFailure |
