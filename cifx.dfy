/** CIFX70E_DP.py: the cifX console test program. The image context built from an
    input record, `copy_struct`, the channel session used by the read loop and by the
    write path, the board and channel enumeration, and the timer pairing around the run. */
module Cifx {
  import opened Wrappers
  import opened Bytes
  import opened Definitions
  import opened Driver

  /** Bytes requested from the input area per read; also the size of the write buffer's sibling. */
  const SIZE_BUFFER_IN: nat := 244
  /** Bytes written to the output area per write. */
  const SIZE_BUFFER_OUT: nat := 244
  /** `abReadIOBuffer` of the read loop is twice the size it is read with. */
  const READ_BUFFER_LENGTH: nat := 2 * SIZE_BUFFER_IN
  /** Timeout, in ms, of the host-state and bus-state requests. */
  const STATE_TIMEOUT: nat := 1000
  /** `g_szBoard`. */
  const DEFAULT_BOARD: string := "cifX0"
  /** `g_ulIOTimeout`, in ms. */
  const DEFAULT_IO_TIMEOUT: nat := 10
  /** `g_ulTimerResolution`, in ms. */
  const DEFAULT_TIMER_RESOLUTION: nat := 1

  // ---------------------------------------------------------------------------
  // fill_pb_buf_in_wic_data

  datatype Timestamp = Timestamp(year: int, month: int, day: int, hours: int, minutes: int, seconds: int)
  datatype Intervals = Intervals(interval1: int, interval2: int, interval3: int, interval4: int)
  datatype Setpoints = Setpoints(sp1: seq<int>, sp2: seq<int>, sp3: seq<int>, sp4: seq<int>)
  /** The dictionary `{"timestamp": ..., "intervals": ..., "setpoints": ...}`. */
  datatype ImageContext = ImageContext(timestamp: Timestamp, intervals: Intervals, setpoints: Setpoints)

  /** The image context of an input record: its time stamp and its four intervals, copied
      field by field under their own names, and its four setpoint lists; every list has one
      entry per track. */
  function FillPbBufInWicData(x: PbBufInWic): (c: ImageContext)
    ensures c.timestamp.year == x.hdr.year && c.timestamp.month == x.hdr.month && c.timestamp.day == x.hdr.day
    ensures c.timestamp.hours == x.hdr.hours && c.timestamp.minutes == x.hdr.minutes
    ensures c.timestamp.seconds == x.hdr.seconds
    ensures c.intervals.interval1 == x.hdr.interval1 && c.intervals.interval2 == x.hdr.interval2
    ensures c.intervals.interval3 == x.hdr.interval3 && c.intervals.interval4 == x.hdr.interval4
    ensures |c.setpoints.sp1| == |c.setpoints.sp2| == |c.setpoints.sp3| == |c.setpoints.sp4| == TRACKS_PER_VIEW_MAX
  {
    ImageContext(
      Timestamp(x.hdr.year, x.hdr.month, x.hdr.day, x.hdr.hours, x.hdr.minutes, x.hdr.seconds),
      Intervals(x.hdr.interval1, x.hdr.interval2, x.hdr.interval3, x.hdr.interval4),
      Setpoints(x.sp1, x.sp2, x.sp3, x.sp4))
  }

  /** `x` with the six fields the image context leaves out taken from `y`. */
  function WithUnusedOf(x: PbBufInWic, y: PbBufInWic): PbBufInWic
  {
    x.(hdr := x.hdr.(state1 := y.hdr.state1, state2 := y.hdr.state2,
                     value13 := y.hdr.value13, value14 := y.hdr.value14,
                     value15 := y.hdr.value15, value16 := y.hdr.value16))
  }

  /** Two records give the same image context exactly when they differ at most in
      state1, state2 and value_13 .. value_16: the context depends on every other field. */
  lemma ImageContextKeepsAllButUnused(x: PbBufInWic, y: PbBufInWic)
    ensures FillPbBufInWicData(x) == FillPbBufInWicData(y) <==> WithUnusedOf(x, y) == y
  {
    if FillPbBufInWicData(x) == FillPbBufInWicData(y) {
      var c := FillPbBufInWicData(x);
      assert c.setpoints.sp1 == x.sp1 && c.setpoints.sp1 == y.sp1;
      assert x.sp2 == y.sp2 && x.sp3 == y.sp3 && x.sp4 == y.sp4;
    }
  }

  /** The setpoint lists are the record's arrays, element by element. */
  lemma ImageContextSetpoints(x: PbBufInWic, k: nat)
    requires k < TRACKS_PER_VIEW_MAX
    ensures var s := FillPbBufInWicData(x).setpoints;
      s.sp1[k] == x.sp1[k] && s.sp2[k] == x.sp2[k] && s.sp3[k] == x.sp3[k] && s.sp4[k] == x.sp4[k]
  {
  }

  // ---------------------------------------------------------------------------
  // copy_struct

  /** The first position of `x` in `s`, if any. */
  function IndexOf<T(==)>(s: seq<T>, x: T): (r: Option<nat>)
    ensures r.Some? ==> r.value < |s| && s[r.value] == x && x !in s[..r.value]
    ensures r.None? <==> x !in s
  {
    if s == [] then None
    else if s[0] == x then Some(0)
    else
      match IndexOf(s[1..], x)
      case None => None
      case Some(k) =>
        assert s[..k + 1] == [s[0]] + s[1..][..k];
        Some(k + 1)
  }

  /** The declared field of `PbBufOutWic` a name refers to, if it is one. */
  function FieldIndex(name: string): (r: Option<nat>)
    ensures r.Some? ==> r.value < |OUT_FIELDS| && OUT_FIELDS[r.value] == name
    ensures r.None? <==> name !in OUT_FIELDS
  {
    IndexOf(OUT_FIELDS, name)
  }

  lemma FieldIndexOfField(i: nat)
    requires i < |OUT_FIELDS|
    ensures FieldIndex(OUT_FIELDS[i]) == Some(i)
  {
    OutFieldNamesDistinct();
    var r := FieldIndex(OUT_FIELDS[i]);
    assert OUT_FIELDS[i] !in OUT_FIELDS[..r.value];
  }

  /** A `PbBufOutWic` instance as a Python object: its declared fields, and the plain
      attributes `setattr` adds for names the layout does not declare. */
  class OutStruct {
    var record: PbBufOutWic
    var attributes: map<string, FieldValue>

    /** `PbBufOutWic()`: every field zero, no extra attributes. */
    constructor ()
      ensures record == ZERO_OUT && attributes == map[]
    {
      record := ZERO_OUT;
      attributes := map[];
    }
  }

  /** The state of an output struct after some `setattr` calls; `ok` is false once one
      of them has raised TypeError. */
  datatype Copied = Copied(record: PbBufOutWic, attributes: map<string, FieldValue>, ok: bool)

  /** `setattr(dest, name, v)` on an output struct. */
  function SetAttr(r: PbBufOutWic, attrs: map<string, FieldValue>, name: string, v: FieldValue): (c: Copied)
    ensures c.ok <==> FieldIndex(name).None? || OutFieldAccepts(FieldIndex(name).value, v)
    ensures FieldIndex(name).None? ==> c == Copied(r, attrs[name := v], true)
    ensures FieldIndex(name).Some? ==> c.attributes == attrs
    ensures FieldIndex(name).Some? && c.ok ==> Some(c.record) == SetOutField(r, FieldIndex(name).value, v)
  {
    match FieldIndex(name)
    case None => Copied(r, attrs[name := v], true)
    case Some(i) =>
      match SetOutField(r, i, v)
      case None => Copied(r, attrs, false)
      case Some(r') => Copied(r', attrs, true)
  }

  /** `for field_name, _ in src._fields_: setattr(dest, field_name, getattr(src, field_name))`,
      with `src` given as its list of (field name, value) pairs; a TypeError stops the copy
      and leaves the fields set so far in place. */
  function CopyFields(r: PbBufOutWic, attrs: map<string, FieldValue>, fs: seq<(string, FieldValue)>): Copied
    decreases fs
  {
    if fs == [] then Copied(r, attrs, true)
    else
      var c := SetAttr(r, attrs, fs[0].0, fs[0].1);
      if !c.ok then c else CopyFields(c.record, c.attributes, fs[1..])
  }

  /** The entry `f` makes `setattr` raise: it names a declared field with a value of the wrong kind. */
  predicate Rejected(f: (string, FieldValue))
  {
    FieldIndex(f.0).Some? && !OutFieldAccepts(FieldIndex(f.0).value, f.1)
  }

  predicate Names(fs: seq<(string, FieldValue)>, name: string)
  {
    exists k :: 0 <= k < |fs| && fs[k].0 == name
  }

  predicate DistinctNames(fs: seq<(string, FieldValue)>)
  {
    forall i, j :: 0 <= i < j < |fs| ==> fs[i].0 != fs[j].0
  }

  /** The copy raises exactly when some entry of the source is rejected by the destination. */
  lemma {:induction false} CopyRaisesIff(r: PbBufOutWic, attrs: map<string, FieldValue>, fs: seq<(string, FieldValue)>)
    ensures !CopyFields(r, attrs, fs).ok <==> exists k :: 0 <= k < |fs| && Rejected(fs[k])
    decreases fs
  {
    if fs != [] {
      var c := SetAttr(r, attrs, fs[0].0, fs[0].1);
      if c.ok {
        CopyRaisesIff(c.record, c.attributes, fs[1..]);
        assert !Rejected(fs[0]);
        if exists k :: 0 <= k < |fs| && Rejected(fs[k]) {
          var k :| 0 <= k < |fs| && Rejected(fs[k]);
          assert fs[1..][k - 1] == fs[k];
        }
        if exists k :: 0 <= k < |fs[1..]| && Rejected(fs[1..][k]) {
          var k :| 0 <= k < |fs[1..]| && Rejected(fs[1..][k]);
          assert fs[k + 1] == fs[1..][k];
        }
      } else {
        assert Rejected(fs[0]);
      }
    }
  }

  /** A name the source does not list keeps its field value; and a name that is not
      listed, or that is a declared field, keeps its plain attribute (or its absence). */
  lemma {:induction false} CopyLeavesOthers(r: PbBufOutWic, attrs: map<string, FieldValue>,
                                            fs: seq<(string, FieldValue)>, name: string)
    ensures var c := CopyFields(r, attrs, fs);
      && (!Names(fs, name) && FieldIndex(name).Some? ==>
            OutFieldValue(c.record, FieldIndex(name).value) == OutFieldValue(r, FieldIndex(name).value))
      && (!Names(fs, name) || FieldIndex(name).Some? ==>
            (name in c.attributes <==> name in attrs) && (name in attrs ==> c.attributes[name] == attrs[name]))
    decreases fs
  {
    if fs != [] {
      var c := SetAttr(r, attrs, fs[0].0, fs[0].1);
      if c.ok {
        CopyLeavesOthers(c.record, c.attributes, fs[1..], name);
        if !Names(fs, name) {
          assert fs[0].0 != name;
          assert !Names(fs[1..], name);
          if FieldIndex(name).Some? && FieldIndex(fs[0].0).Some? {
            assert FieldIndex(fs[0].0).value != FieldIndex(name).value;
          }
        }
      }
    }
  }

  /** With distinct names and no TypeError, every listed name ends up holding its value:
      stored into the declared field (an int cut to 16 bits), or as a plain attribute. */
  lemma {:induction false} CopySetsNamed(r: PbBufOutWic, attrs: map<string, FieldValue>,
                                         fs: seq<(string, FieldValue)>, k: nat)
    requires DistinctNames(fs) && k < |fs|
    requires CopyFields(r, attrs, fs).ok
    ensures var c := CopyFields(r, attrs, fs);
      match FieldIndex(fs[k].0)
      case Some(i) => OutFieldAccepts(i, fs[k].1) && OutFieldValue(c.record, i) == Stored(i, fs[k].1)
      case None => fs[k].0 in c.attributes && c.attributes[fs[k].0] == fs[k].1
    decreases fs
  {
    var c := SetAttr(r, attrs, fs[0].0, fs[0].1);
    assert c.ok;
    if k == 0 {
      assert !Names(fs[1..], fs[0].0);
      CopyLeavesOthers(c.record, c.attributes, fs[1..], fs[0].0);
    } else {
      assert DistinctNames(fs[1..]) by {
        forall i, j | 0 <= i < j < |fs[1..]| ensures fs[1..][i].0 != fs[1..][j].0 {
          assert fs[1..][i] == fs[i + 1] && fs[1..][j] == fs[j + 1];
        }
      }
      assert fs[1..][k - 1] == fs[k];
      CopySetsNamed(c.record, c.attributes, fs[1..], k - 1);
    }
  }

  /** When every listed name is a declared field, no plain attribute is added or changed. */
  lemma CopyDeclaredKeepsAttributes(r: PbBufOutWic, attrs: map<string, FieldValue>, fs: seq<(string, FieldValue)>)
    requires forall k :: 0 <= k < |fs| ==> FieldIndex(fs[k].0).Some?
    ensures CopyFields(r, attrs, fs).attributes == attrs
  {
    var c := CopyFields(r, attrs, fs);
    forall name: string ensures (name in c.attributes <==> name in attrs) && (name in attrs ==> c.attributes[name] == attrs[name]) {
      CopyLeavesOthers(r, attrs, fs, name);
      if FieldIndex(name).None? {
        assert !Names(fs, name);
      }
    }
  }

  lemma OutFieldListDistinct(r: PbBufOutWic)
    ensures DistinctNames(OutFieldList(r))
  {
    OutFieldNamesDistinct();
  }

  /** Copying an output record onto any output struct reproduces that record exactly and
      adds no attribute. */
  lemma CopyOwnFields(src: PbBufOutWic, r: PbBufOutWic, attrs: map<string, FieldValue>)
    ensures CopyFields(r, attrs, OutFieldList(src)) == Copied(src, attrs, true)
  {
    var fs := OutFieldList(src);
    forall k | 0 <= k < |fs| ensures FieldIndex(fs[k].0) == Some(k) && !Rejected(fs[k]) {
      FieldIndexOfField(k);
    }
    CopyRaisesIff(r, attrs, fs);
    OutFieldListDistinct(src);
    var c := CopyFields(r, attrs, fs);
    forall i | 0 <= i < |OUT_FIELDS| ensures OutFieldValue(c.record, i) == OutFieldValue(src, i) {
      CopySetsNamed(r, attrs, fs, i);
    }
    OutFieldsDetermine(c.record, src);
    CopyDeclaredKeepsAttributes(r, attrs, fs);
  }

  /** The attributes after copying an input record: its four setpoint arrays, which the
      output layout does not declare, become plain attributes. */
  function WithSetpointAttributes(attrs: map<string, FieldValue>, x: PbBufInWic): map<string, FieldValue>
  {
    attrs["sp1" := ArrayValue(x.sp1)]["sp2" := ArrayValue(x.sp2)]["sp3" := ArrayValue(x.sp3)]["sp4" := ArrayValue(x.sp4)]
  }

  /** How the names of an input record's fields resolve against the output layout. */
  lemma InFieldListNames(x: PbBufInWic)
    ensures DistinctNames(InFieldList(x))
    ensures forall k :: 0 <= k < HEADER_WORDS ==> FieldIndex(InFieldList(x)[k].0) == Some(k)
    ensures forall k :: HEADER_WORDS <= k < |IN_FIELDS| ==> FieldIndex(InFieldList(x)[k].0).None?
  {
    InFieldNames();
    forall k | 0 <= k < HEADER_WORDS ensures FieldIndex(InFieldList(x)[k].0) == Some(k) {
      FieldIndexOfField(k);
    }
  }

  /** None of the output record's arrays is named by an input record. */
  lemma InFieldListMissesArrays(x: PbBufInWic, i: nat)
    requires HEADER_WORDS <= i < |OUT_FIELDS|
    ensures !Names(InFieldList(x), OUT_FIELDS[i])
  {
    var fs := InFieldList(x);
    InFieldListNames(x);
    forall k | 0 <= k < |fs| ensures fs[k].0 != OUT_FIELDS[i] {
      FieldIndexOfField(i);
    }
  }

  lemma CopyInOk(x: PbBufInWic, r: PbBufOutWic, attrs: map<string, FieldValue>)
    ensures CopyFields(r, attrs, InFieldList(x)).ok
  {
    InFieldListNames(x);
    CopyRaisesIff(r, attrs, InFieldList(x));
  }

  lemma CopyInHeaderField(x: PbBufInWic, r: PbBufOutWic, attrs: map<string, FieldValue>, i: nat)
    requires i < HEADER_WORDS
    ensures OutFieldValue(CopyFields(r, attrs, InFieldList(x)).record, i) == IntValue(HeaderWords(x.hdr)[i])
  {
    InFieldListNames(x);
    CopyInOk(x, r, attrs);
    CopySetsNamed(r, attrs, InFieldList(x), i);
  }

  lemma CopyInArrayField(x: PbBufInWic, r: PbBufOutWic, attrs: map<string, FieldValue>, i: nat)
    requires HEADER_WORDS <= i < |OUT_FIELDS|
    ensures OutFieldValue(CopyFields(r, attrs, InFieldList(x)).record, i) == OutFieldValue(r, i)
  {
    InFieldListMissesArrays(x, i);
    FieldIndexOfField(i);
    CopyLeavesOthers(r, attrs, InFieldList(x), OUT_FIELDS[i]);
  }

  lemma CopyInRecord(x: PbBufInWic, r: PbBufOutWic, attrs: map<string, FieldValue>)
    ensures CopyFields(r, attrs, InFieldList(x)).ok
    ensures CopyFields(r, attrs, InFieldList(x)).record == r.(hdr := x.hdr)
  {
    CopyInOk(x, r, attrs);
    var c := CopyFields(r, attrs, InFieldList(x));
    var want := r.(hdr := x.hdr);
    forall i | 0 <= i < |OUT_FIELDS| ensures OutFieldValue(c.record, i) == OutFieldValue(want, i) {
      if i < HEADER_WORDS {
        CopyInHeaderField(x, r, attrs, i);
      } else {
        CopyInArrayField(x, r, attrs, i);
      }
    }
    OutFieldsDetermine(c.record, want);
  }

  lemma CopyInSetpoint(x: PbBufInWic, r: PbBufOutWic, attrs: map<string, FieldValue>, k: nat)
    requires HEADER_WORDS <= k < |IN_FIELDS|
    ensures var c := CopyFields(r, attrs, InFieldList(x));
      IN_FIELDS[k] in c.attributes && c.attributes[IN_FIELDS[k]] == ArrayValue(InTracks(x)[k - HEADER_WORDS])
  {
    InFieldListNames(x);
    CopyInOk(x, r, attrs);
    CopySetsNamed(r, attrs, InFieldList(x), k);
  }

  lemma CopyInSetpoints(x: PbBufInWic, r: PbBufOutWic, attrs: map<string, FieldValue>)
    ensures var got := CopyFields(r, attrs, InFieldList(x)).attributes;
      && "sp1" in got && got["sp1"] == ArrayValue(x.sp1) && "sp2" in got && got["sp2"] == ArrayValue(x.sp2)
      && "sp3" in got && got["sp3"] == ArrayValue(x.sp3) && "sp4" in got && got["sp4"] == ArrayValue(x.sp4)
  {
    assert IN_FIELDS[HEADER_WORDS..] == ["sp1", "sp2", "sp3", "sp4"];
    CopyInSetpoint(x, r, attrs, 16);
    CopyInSetpoint(x, r, attrs, 17);
    CopyInSetpoint(x, r, attrs, 18);
    CopyInSetpoint(x, r, attrs, 19);
  }

  lemma CopyInOtherName(x: PbBufInWic, r: PbBufOutWic, attrs: map<string, FieldValue>, name: string)
    requires name != "sp1" && name != "sp2" && name != "sp3" && name != "sp4"
    ensures var c := CopyFields(r, attrs, InFieldList(x));
      (name in c.attributes <==> name in attrs) && (name in attrs ==> c.attributes[name] == attrs[name])
  {
    var fs := InFieldList(x);
    CopyLeavesOthers(r, attrs, fs, name);
    if FieldIndex(name).None? {
      forall k | 0 <= k < |fs| ensures fs[k].0 != name {
        assert fs[k].0 == IN_FIELDS[k];
        if k < HEADER_WORDS {
          assert IN_FIELDS[k] == HEADER_FIELDS[k] == OUT_FIELDS[k];
        } else {
          assert IN_FIELDS[k] == ["sp1", "sp2", "sp3", "sp4"][k - HEADER_WORDS];
        }
      }
    }
  }

  lemma SetpointAttributesAre(x: PbBufInWic, attrs: map<string, FieldValue>, got: map<string, FieldValue>)
    requires "sp1" in got && got["sp1"] == ArrayValue(x.sp1) && "sp2" in got && got["sp2"] == ArrayValue(x.sp2)
    requires "sp3" in got && got["sp3"] == ArrayValue(x.sp3) && "sp4" in got && got["sp4"] == ArrayValue(x.sp4)
    requires forall name :: name != "sp1" && name != "sp2" && name != "sp3" && name != "sp4" ==>
               (name in got <==> name in attrs) && (name in attrs ==> got[name] == attrs[name])
    ensures got == WithSetpointAttributes(attrs, x)
  {
  }

  lemma CopyInAttributes(x: PbBufInWic, r: PbBufOutWic, attrs: map<string, FieldValue>)
    ensures CopyFields(r, attrs, InFieldList(x)).attributes == WithSetpointAttributes(attrs, x)
  {
    var got := CopyFields(r, attrs, InFieldList(x)).attributes;
    CopyInSetpoints(x, r, attrs);
    forall name | name != "sp1" && name != "sp2" && name != "sp3" && name != "sp4"
      ensures (name in got <==> name in attrs) && (name in attrs ==> got[name] == attrs[name])
    {
      CopyInOtherName(x, r, attrs, name);
    }
    SetpointAttributesAre(x, attrs, got);
  }

  /** Copying an input record onto an output struct sets the sixteen header fields only:
      pv1 .. pvq4 keep their values, and sp1 .. sp4 are stored as plain attributes. */
  lemma CopyInOntoOut(x: PbBufInWic, r: PbBufOutWic, attrs: map<string, FieldValue>)
    ensures CopyFields(r, attrs, InFieldList(x)) == Copied(r.(hdr := x.hdr), WithSetpointAttributes(attrs, x), true)
  {
    CopyInRecord(x, r, attrs);
    CopyInAttributes(x, r, attrs);
  }

  /** `copy_struct(dest, src)` for an output struct `dest`, with `src` given as its
      (field name, value) list; `ok` is false when a `setattr` raised TypeError. */
  method CopyStruct(dest: OutStruct, src: seq<(string, FieldValue)>) returns (ok: bool)
    modifies dest
    ensures Copied(dest.record, dest.attributes, ok) == CopyFields(old(dest.record), old(dest.attributes), src)
  {
    ghost var goal := CopyFields(dest.record, dest.attributes, src);
    var i := 0;
    while i < |src|
      invariant 0 <= i <= |src|
      invariant CopyFields(dest.record, dest.attributes, src[i..]) == goal
    {
      var (name, v) := src[i];
      var c := SetAttr(dest.record, dest.attributes, name, v);
      if !c.ok {
        return false;
      }
      assert src[i..][1..] == src[i + 1..];
      dest.record, dest.attributes := c.record, c.attributes;
      i := i + 1;
    }
    return true;
  }

  // ---------------------------------------------------------------------------
  // The channel session shared by WIC_ReadIOData and WIC_SendToMaster:
  // xChannelOpen, then host state READY, then bus state ON, closing on a failed state request.

  /** The calls that bring a channel up, and the handle ready for I/O (None when a step
      failed). The driver handle is passed by reference, as the program does. */
  function OpenChannelSpec(driver: nat, board: string, o: Oracle): (r: Run<Option<nat>>)
    ensures r.result.Some? ==> r.result.value != 0
  {
    var c := o.Answer();
    var h := o.Handle();
    var e := Event(ChannelOpen(ByRef(driver), board, 0, h), c);
    if c != CIFX_NO_ERROR || h == 0 then Run(None, [e], o.NextOpen())
    else After([e], HostStateSpec(h, o.NextOpen()))
  }

  /** `xChannelHostState(h, CIFX_HOST_STATE_READY, &state, 1000)` and what follows it. */
  function HostStateSpec(h: nat, o: Oracle): (r: Run<Option<nat>>)
    ensures r.result.Some? ==> r.result.value == h
  {
    var c := o.Answer();
    var e := Event(ChannelHostState(h, CIFX_HOST_STATE_READY, STATE_TIMEOUT), c);
    if c != CIFX_NO_ERROR then After([e], CloseAfterFailure(h, o.Next()))
    else After([e], BusStateSpec(h, o.Next()))
  }

  /** `xChannelBusState(h, CIFX_BUS_STATE_ON, &state, 1000)` and what follows it. */
  function BusStateSpec(h: nat, o: Oracle): (r: Run<Option<nat>>)
    ensures r.result.Some? ==> r.result.value == h
  {
    var c := o.Answer();
    var e := Event(ChannelBusState(h, CIFX_BUS_STATE_ON, STATE_TIMEOUT), c);
    if c != CIFX_NO_ERROR then After([e], CloseAfterFailure(h, o.Next()))
    else Run(Some(h), [e], o.Next())
  }

  /** `xChannelClose(h)` after a failed state request; its own result is not looked at. */
  function CloseAfterFailure(h: nat, o: Oracle): Run<Option<nat>>
  {
    Run(None, [Event(ChannelClose(h), o.Answer())], o.Next())
  }

  predicate IsIO(e: Event)
  {
    e.call.ChannelIORead? || e.call.ChannelIOWrite?
  }

  predicate IsClose(e: Event)
  {
    e.call.ChannelClose?
  }

  predicate NoIO(es: seq<Event>)
  {
    forall i :: 0 <= i < |es| ==> !IsIO(es[i])
  }

  /** The number of channel closes among the calls. */
  function Closes(es: seq<Event>): (n: nat)
    ensures n <= |es|
  {
    if es == [] then 0 else (if IsClose(es[0]) then 1 else 0) + Closes(es[1..])
  }

  lemma {:induction false} ClosesAppend(a: seq<Event>, b: seq<Event>)
    ensures Closes(a + b) == Closes(a) + Closes(b)
  {
    if a == [] {
      assert a + b == b;
    } else {
      assert (a + b)[0] == a[0] && (a + b)[1..] == a[1..] + b;
      ClosesAppend(a[1..], b);
    }
  }

  lemma WalkOne(p: Phase, e: Event)
    ensures Walk(p, [e]) == Step(p, e)
  {
    assert [e][1..] == [];
  }

  /** What one run of a session step does to the session phase, to I/O and to closes. */
  predicate StepsAs<T>(r: Run<T>, from: Phase, to: Phase, closes: nat)
  {
    Walk(from, r.events) == to && NoIO(r.events) && Closes(r.events) == closes
  }

  lemma StepsAsAfter<T>(e: Event, r: Run<T>, from: Phase, to: Phase, closes: nat)
    requires StepsAs(r, Step(from, e), to, closes) && !IsIO(e)
    ensures StepsAs(After([e], r), from, to, closes + if IsClose(e) then 1 else 0)
  {
    WalkAppend(from, [e], r.events);
    WalkOne(from, e);
    ClosesAppend([e], r.events);
  }

  lemma CloseAfterFailurePhase(h: nat, o: Oracle)
    requires h != 0
    ensures StepsAs(CloseAfterFailure(h, o), Opened(h), Closed, 1)
    ensures StepsAs(CloseAfterFailure(h, o), HostReady(h), Closed, 1)
  {
    WalkOne(Opened(h), Event(ChannelClose(h), o.Answer()));
    WalkOne(HostReady(h), Event(ChannelClose(h), o.Answer()));
  }

  lemma BusStatePhase(h: nat, o: Oracle)
    requires h != 0
    ensures var r := BusStateSpec(h, o);
      StepsAs(r, HostReady(h), if r.result.Some? then BusOn(h) else Closed, if r.result.Some? then 0 else 1)
  {
    var c := o.Answer();
    var e := Event(ChannelBusState(h, CIFX_BUS_STATE_ON, STATE_TIMEOUT), c);
    if c != CIFX_NO_ERROR {
      CloseAfterFailurePhase(h, o.Next());
      StepsAsAfter(e, CloseAfterFailure(h, o.Next()), HostReady(h), Closed, 1);
    } else {
      WalkOne(HostReady(h), e);
    }
  }

  lemma HostStatePhase(h: nat, o: Oracle)
    requires h != 0
    ensures var r := HostStateSpec(h, o);
      StepsAs(r, Opened(h), if r.result.Some? then BusOn(h) else Closed, if r.result.Some? then 0 else 1)
  {
    var c := o.Answer();
    var e := Event(ChannelHostState(h, CIFX_HOST_STATE_READY, STATE_TIMEOUT), c);
    if c != CIFX_NO_ERROR {
      CloseAfterFailurePhase(h, o.Next());
      StepsAsAfter(e, CloseAfterFailure(h, o.Next()), Opened(h), Closed, 1);
    } else {
      var r := BusStateSpec(h, o.Next());
      BusStatePhase(h, o.Next());
      StepsAsAfter(e, r, Opened(h), if r.result.Some? then BusOn(h) else Closed, if r.result.Some? then 0 else 1);
    }
  }

  /** Bringing the channel up keeps to the session protocol and ends bus-on exactly when it
      succeeds; it issues no I/O; it closes the channel once when a state request fails
      after a good open, and not at all when the open itself failed or gave a NULL handle.
      The first call is the open, given the address of the driver handle. */
  lemma OpenChannelProtocol(driver: nat, board: string, o: Oracle)
    ensures var r := OpenChannelSpec(driver, board, o);
      && r.events != [] && r.events[0].call.ChannelOpen? && r.events[0].call.driverArg == ByRef(driver)
      && Walk(Closed, r.events) == (if r.result.Some? then BusOn(r.result.value) else Closed)
      && NoIO(r.events)
      && (r.result.None? && OpenedAs(r.events[0], r.events[0].call.handle) ==>
            Closes(r.events) == 1 && IsClose(r.events[|r.events| - 1]))
      && (!OpenedAs(r.events[0], r.events[0].call.handle) ==> |r.events| == 1 && r.result.None?)
      && (r.result.Some? ==> Closes(r.events) == 0)
      && r.after.inputArea == o.inputArea && r.after.boardNames == o.boardNames
  {
    var c := o.Answer();
    var h := o.Handle();
    var e := Event(ChannelOpen(ByRef(driver), board, 0, h), c);
    if c != CIFX_NO_ERROR || h == 0 {
      WalkOne(Closed, e);
    } else {
      var r := HostStateSpec(h, o.NextOpen());
      HostStatePhase(h, o.NextOpen());
      StepsAsAfter(e, r, Closed, if r.result.Some? then BusOn(h) else Closed, if r.result.Some? then 0 else 1);
      if r.result.None? {
        LastIsClose(h, o.NextOpen());
      }
      SessionKeepsDevice(h, o.NextOpen());
    }
  }

  /** A failed state request is answered by closing the channel, as the last call. */
  lemma LastIsClose(h: nat, o: Oracle)
    ensures var r := HostStateSpec(h, o);
      r.result.None? ==> r.events != [] && r.events[|r.events| - 1] == Event(ChannelClose(h), r.events[|r.events| - 1].code)
  {
  }

  /** The state requests do not change what the device shows or the board names. */
  lemma SessionKeepsDevice(h: nat, o: Oracle)
    ensures HostStateSpec(h, o).after.inputArea == o.inputArea
    ensures HostStateSpec(h, o).after.boardNames == o.boardNames
  {
  }

  /** Brings the channel of `board` up as both WIC_ReadIOData and WIC_SendToMaster do,
      returning the device handle once the bus is on. */
  method OpenChannel(dll: CifXDll, driver: nat, board: string) returns (device: Option<nat>)
    modifies dll
    ensures var r := OpenChannelSpec(driver, board, old(dll.oracle));
      device == r.result && dll.oracle == r.after && dll.trace == old(dll.trace) + r.events
  {
    ghost var o := dll.oracle;
    ghost var t := dll.trace;
    var code, h := dll.ChannelOpen(ByRef(driver), board, 0);
    ghost var e0 := Event(Call.ChannelOpen(ByRef(driver), board, 0, h), code);
    if code != CIFX_NO_ERROR || h == 0 {
      return None;
    }
    ghost var o1 := dll.oracle;
    code := dll.Invoke(ChannelHostState(h, CIFX_HOST_STATE_READY, STATE_TIMEOUT));
    ghost var e1 := Event(ChannelHostState(h, CIFX_HOST_STATE_READY, STATE_TIMEOUT), code);
    assert OpenChannelSpec(driver, board, o) == After([e0], HostStateSpec(h, o1));
    if code != CIFX_NO_ERROR {
      ghost var o2 := dll.oracle;
      code := dll.Invoke(ChannelClose(h));
      assert HostStateSpec(h, o1) == After([e1], CloseAfterFailure(h, o2));
      ghost var ec := Event(ChannelClose(h), code);
      AppendAssoc(t, [e0], [e1] + [ec]);
      AppendAssoc(t + [e0], [e1], [ec]);
      return None;
    }
    ghost var o2 := dll.oracle;
    code := dll.Invoke(ChannelBusState(h, CIFX_BUS_STATE_ON, STATE_TIMEOUT));
    ghost var e2 := Event(ChannelBusState(h, CIFX_BUS_STATE_ON, STATE_TIMEOUT), code);
    assert HostStateSpec(h, o1) == After([e1], BusStateSpec(h, o2));
    if code != CIFX_NO_ERROR {
      ghost var o3 := dll.oracle;
      code := dll.Invoke(ChannelClose(h));
      assert BusStateSpec(h, o2) == After([e2], CloseAfterFailure(h, o3));
      ghost var ec := Event(ChannelClose(h), code);
      AppendAssoc(t, [e0], [e1] + ([e2] + [ec]));
      AppendAssoc(t + [e0], [e1], [e2] + [ec]);
      AppendAssoc(t + [e0] + [e1], [e2], [ec]);
      return None;
    }
    AppendAssoc(t, [e0], [e1] + [e2]);
    AppendAssoc(t + [e0], [e1], [e2]);
    return Some(h);
  }

  // ---------------------------------------------------------------------------
  // WIC_ReadIOData

  /** One poll of the keyboard per round of the loop: no key, or the byte `getch` returned. */
  datatype KeyPoll = NoKey | Pressed(key: Byte)

  /** The exceptions that leave the read loop: `getch().decode('utf-8')` on a byte that is
      not a whole UTF-8 character, and the `w` branch, whose call of WIC_SendToMaster
      with three of its four arguments raises TypeError (after `int(input(...))`, which may
      raise ValueError first). */
  datatype ReadError = UnicodeDecodeError | WriteBranchError

  datatype KeyAction = Ignore | Stop | Raise(error: ReadError)

  /** How the loop reacts to a key: `q`, `Q` or ESC end it, `w` or `W` raise, others are ignored. */
  function KeyActionOf(b: Byte): (a: KeyAction)
    ensures a == Stop <==> b in {'q' as Byte, 'Q' as Byte, 0x1B}
    ensures a.Raise? <==> b >= 0x80 || b in {'w' as Byte, 'W' as Byte}
  {
    if b >= 0x80 then Raise(UnicodeDecodeError)
    else
      var k := if 'A' as Byte <= b <= 'Z' as Byte then b + 0x20 else b;
      if k == 'q' as Byte || k == 0x1B then Stop
      else if k == 'w' as Byte then Raise(WriteBranchError)
      else Ignore
  }

  /** How WIC_ReadIOData ends. `GoodRead` is the first good read, holding the 488-byte
      buffer the 244 bytes were read into; `NotOpened` the early return when the session could
      not be set up, `Quit` the end of the loop by key, `Raised` an exception; `Polling` means
      the loop was still running when the keyboard script ran out (the program itself would
      go on polling). */
  datatype ReadOutcome = GoodRead(buffer: seq<Byte>) | NotOpened | Quit | Raised(error: ReadError) | Polling

  /** The read buffer after a good read: the 244 bytes of the input area, then the untouched
      zeroed second half. */
  function ReadBuffer(input: seq<Byte>): (b: seq<Byte>)
    ensures |b| == READ_BUFFER_LENGTH
    ensures b[..SIZE_BUFFER_IN] == Window(input, 0, SIZE_BUFFER_IN)
    ensures b[SIZE_BUFFER_IN..] == Zeros(READ_BUFFER_LENGTH - SIZE_BUFFER_IN)
  {
    Window(input, 0, SIZE_BUFFER_IN) + Zeros(READ_BUFFER_LENGTH - SIZE_BUFFER_IN)
  }

  /** What WIC_ReadIOData returns: after a good read, the record the `memmove` of
      sizeof(PbBufInWic) bytes of the buffer fills in; otherwise None. */
  function Returned(r: ReadOutcome): (x: Option<PbBufInWic>)
    requires r.GoodRead? ==> |r.buffer| >= SIZEOF_PB_BUF_IN_WIC
    ensures x.Some? <==> r.GoodRead?
  {
    if r.GoodRead? then Some(DecodeIn(r.buffer[..SIZEOF_PB_BUF_IN_WIC])) else None
  }

  /** The `while not bExitLoop` loop on an open, bus-on channel `h`, one round per key poll. */
  function ReadLoopSpec(h: nat, timeout: nat, keys: seq<KeyPoll>, o: Oracle): Run<ReadOutcome>
    decreases keys
  {
    if keys == [] then Run(Polling, [], o)
    else
      var c := o.Answer();
      var e := Event(ChannelIORead(h, 0, 0, SIZE_BUFFER_IN, timeout), c);
      var o1 := o.Next();
      if c == CIFX_NO_ERROR then Run(GoodRead(ReadBuffer(o.inputArea)), [e], o1)
      else
        match keys[0]
        case NoKey => After([e], ReadLoopSpec(h, timeout, keys[1..], o1))
        case Pressed(b) =>
          match KeyActionOf(b)
          case Ignore => After([e], ReadLoopSpec(h, timeout, keys[1..], o1))
          case Stop => Run(Quit, [e, Event(ChannelClose(h), o1.Answer())], o1.Next())
          case Raise(err) => Run(Raised(err), [e], o1)
  }

  function ReadIODataSpec(driver: nat, board: string, timeout: nat, keys: seq<KeyPoll>, o: Oracle): Run<ReadOutcome>
  {
    var s := OpenChannelSpec(driver, board, o);
    match s.result
    case None => Run(NotOpened, s.events, s.after)
    case Some(h) => After(s.events, ReadLoopSpec(h, timeout, keys, s.after))
  }

  /** The read loop keeps to the session protocol; it closes the channel exactly when it was
      left by key, and otherwise leaves the channel bus-on. */
  lemma {:induction false} ReadLoopPhase(h: nat, timeout: nat, keys: seq<KeyPoll>, o: Oracle)
    ensures var r := ReadLoopSpec(h, timeout, keys, o);
      && Walk(BusOn(h), r.events) == (if r.result.Quit? then Closed else BusOn(h))
      && !r.result.NotOpened?
    decreases keys
  {
    if keys != [] {
      var c := o.Answer();
      var e := Event(ChannelIORead(h, 0, 0, SIZE_BUFFER_IN, timeout), c);
      var rest := ReadLoopSpec(h, timeout, keys[1..], o.Next());
      if c == CIFX_NO_ERROR {
        WalkOne(BusOn(h), e);
      } else if keys[0].NoKey? || KeyActionOf(keys[0].key) == Ignore {
        ReadLoopPhase(h, timeout, keys[1..], o.Next());
        WalkAppend(BusOn(h), [e], rest.events);
        WalkOne(BusOn(h), e);
      } else if KeyActionOf(keys[0].key) == Stop {
        var close := Event(ChannelClose(h), o.Next().Answer());
        assert [e, close] == [e] + [close];
        WalkAppend(BusOn(h), [e], [close]);
        WalkOne(BusOn(h), e);
        WalkOne(BusOn(h), close);
      } else {
        WalkOne(BusOn(h), e);
      }
    }
  }

  /** The number of reads in a run of the read loop: every call but the close after a key. */
  function ReadCount(r: Run<ReadOutcome>): int
  {
    if r.result.Quit? then |r.events| - 1 else |r.events|
  }

  /** Every round reads 244 bytes from input area 0 at offset 0, at most one read per key
      poll; the loop ends by key with one close, and runs out of polls only after one read
      per poll. */
  lemma {:induction false} ReadLoopCalls(h: nat, timeout: nat, keys: seq<KeyPoll>, o: Oracle)
    ensures var r := ReadLoopSpec(h, timeout, keys, o);
      var n := ReadCount(r);
      && 0 <= n <= |keys|
      && (forall i :: 0 <= i < n ==> r.events[i].call == ChannelIORead(h, 0, 0, SIZE_BUFFER_IN, timeout))
      && (r.result.Quit? ==> n > 0 && r.events[n] == Event(ChannelClose(h), r.events[n].code))
      && (r.result.Polling? ==> n == |keys|)
    decreases keys
  {
    if keys != [] {
      var c := o.Answer();
      var e := Event(ChannelIORead(h, 0, 0, SIZE_BUFFER_IN, timeout), c);
      if c != CIFX_NO_ERROR && (keys[0].NoKey? || KeyActionOf(keys[0].key) == Ignore) {
        ReadLoopCalls(h, timeout, keys[1..], o.Next());
        var rest := ReadLoopSpec(h, timeout, keys[1..], o.Next());
        assert ReadLoopSpec(h, timeout, keys, o) == After([e], rest);
      }
    }
  }

  /** All reads but the last failed, and the loop returns a buffer exactly when the last
      read succeeded. */
  lemma {:induction false} ReadLoopCodes(h: nat, timeout: nat, keys: seq<KeyPoll>, o: Oracle)
    ensures var r := ReadLoopSpec(h, timeout, keys, o);
      var n := ReadCount(r);
      && 0 <= n <= |r.events|
      && (forall i :: 0 <= i < n - 1 ==> r.events[i].code != CIFX_NO_ERROR)
      && (r.result.GoodRead? <==> n > 0 && r.events[n - 1].code == CIFX_NO_ERROR)
    decreases keys
  {
    if keys != [] {
      var c := o.Answer();
      var e := Event(ChannelIORead(h, 0, 0, SIZE_BUFFER_IN, timeout), c);
      if c != CIFX_NO_ERROR && (keys[0].NoKey? || KeyActionOf(keys[0].key) == Ignore) {
        ReadLoopCodes(h, timeout, keys[1..], o.Next());
        var rest := ReadLoopSpec(h, timeout, keys[1..], o.Next());
        assert ReadLoopSpec(h, timeout, keys, o) == After([e], rest);
      }
    }
  }

  /** A good read fills the buffer from the input area as the device showed it at that
      read. */
  lemma {:induction false} ReadLoopBuffer(h: nat, timeout: nat, keys: seq<KeyPoll>, o: Oracle)
    ensures var r := ReadLoopSpec(h, timeout, keys, o);
      r.result.GoodRead? ==> r.result.buffer == ReadBuffer(o.inputArea)
    decreases keys
  {
    if keys != [] {
      ReadLoopBuffer(h, timeout, keys[1..], o.Next());
    }
  }

  /** The record returned decodes only the first sizeof(PbBufInWic) = 96 bytes of what the
      device shows: the rest of the 244 bytes read, and the other half of the buffer, are
      never looked at. */
  lemma ReadDecodesFirst96(input: seq<Byte>)
    ensures Returned(GoodRead(ReadBuffer(input))) == Some(DecodeIn(Window(input, 0, SIZEOF_PB_BUF_IN_WIC)))
  {
    var w := ReadBuffer(input);
    var v := Window(input, 0, SIZEOF_PB_BUF_IN_WIC);
    forall i | 0 <= i < SIZEOF_PB_BUF_IN_WIC
      ensures w[i] == v[i]
    {
      assert w[i] == w[..SIZE_BUFFER_IN][i];
    }
    assert w[..SIZEOF_PB_BUF_IN_WIC] == v;
  }

  /** WIC_ReadIOData keeps to the session protocol. It leaves the channel closed exactly when
      the session could not be set up or the loop was left by key; a good read returns with
      the channel still open, and so does a raised exception. */
  lemma ReadIODataPhase(driver: nat, board: string, timeout: nat, keys: seq<KeyPoll>, o: Oracle)
    ensures var r := ReadIODataSpec(driver, board, timeout, keys, o);
      && Walk(Closed, r.events) != Misuse
      && (Walk(Closed, r.events) == Closed <==> r.result.NotOpened? || r.result.Quit?)
  {
    var s := OpenChannelSpec(driver, board, o);
    OpenChannelProtocol(driver, board, o);
    if s.result.Some? {
      var h := s.result.value;
      var l := ReadLoopSpec(h, timeout, keys, s.after);
      ReadLoopPhase(h, timeout, keys, s.after);
      WalkAppend(Closed, s.events, l.events);
      assert ReadIODataSpec(driver, board, timeout, keys, o).events == s.events + l.events;
      assert ReadIODataSpec(driver, board, timeout, keys, o).result == l.result;
    }
  }

  /** Host state is requested only after an open that succeeded with a non-NULL handle,
      bus state only after host state succeeded, and I/O only after both. */
  lemma ReadIODataOrdered(driver: nat, board: string, timeout: nat, keys: seq<KeyPoll>, o: Oracle, i: nat)
    requires i < |ReadIODataSpec(driver, board, timeout, keys, o).events|
    ensures var es := ReadIODataSpec(driver, board, timeout, keys, o).events;
      && (es[i].call.ChannelHostState? ==> exists j :: 0 <= j < i && OpenedAs(es[j], es[i].call.device))
      && (es[i].call.ChannelBusState? ==> exists j :: 0 <= j < i && HostReadyAs(es[j], es[i].call.device))
      && (IsIO(es[i]) ==> exists j :: 0 <= j < i && BusOnAs(es[j], es[i].call.device))
  {
    var es := ReadIODataSpec(driver, board, timeout, keys, o).events;
    ReadIODataPhase(driver, board, timeout, keys, o);
    if es[i].call.ChannelHostState? {
      HostStateFollowsOpen(es, i);
    }
    if es[i].call.ChannelBusState? {
      BusStateFollowsHostState(es, i);
    }
    if IsIO(es[i]) {
      IOFollowsNegotiation(es, i);
    }
  }

  /** WIC_ReadIOData issues channel calls only, the first of them the open of channel 0 of
      board `board` through the address of the driver handle. */
  lemma ReadIODataChannelCalls(driver: nat, board: string, timeout: nat, keys: seq<KeyPoll>, o: Oracle)
    ensures var es := ReadIODataSpec(driver, board, timeout, keys, o).events;
      && ChannelCallsOnly(es)
      && es != [] && es[0].call == Call.ChannelOpen(ByRef(driver), board, 0, o.Handle())
  {
    var s := OpenChannelSpec(driver, board, o);
    OpenChannelChannelCalls(driver, board, o);
    if s.result.Some? {
      var h := s.result.value;
      var l := ReadLoopSpec(h, timeout, keys, s.after);
      ReadLoopChannelCalls(h, timeout, keys, s.after);
      ChannelCallsOnlyAppend(s.events, l.events);
      assert (s.events + l.events)[0] == s.events[0];
    }
  }

  lemma OpenChannelChannelCalls(driver: nat, board: string, o: Oracle)
    ensures var es := OpenChannelSpec(driver, board, o).events;
      && ChannelCallsOnly(es)
      && es != [] && es[0].call == Call.ChannelOpen(ByRef(driver), board, 0, o.Handle())
  {
    var h := o.Handle();
    var o1 := o.NextOpen();
    var e := Event(Call.ChannelOpen(ByRef(driver), board, 0, h), o.Answer());
    if o.Answer() == CIFX_NO_ERROR && h != 0 {
      var hs := HostStateSpec(h, o1);
      var e1 := Event(ChannelHostState(h, CIFX_HOST_STATE_READY, STATE_TIMEOUT), o1.Answer());
      var o2 := o1.Next();
      if o1.Answer() != CIFX_NO_ERROR {
        assert hs.events == [e1, Event(ChannelClose(h), o2.Answer())];
      } else {
        var e2 := Event(ChannelBusState(h, CIFX_BUS_STATE_ON, STATE_TIMEOUT), o2.Answer());
        assert hs.events == [e1] + BusStateSpec(h, o2).events;
        assert ChannelCallsOnly(BusStateSpec(h, o2).events);
        ChannelCallsOnlyAppend([e1], BusStateSpec(h, o2).events);
      }
      ChannelCallsOnlyAppend([e], hs.events);
    }
  }

  lemma {:induction false} ReadLoopChannelCalls(h: nat, timeout: nat, keys: seq<KeyPoll>, o: Oracle)
    ensures ChannelCallsOnly(ReadLoopSpec(h, timeout, keys, o).events)
    decreases keys
  {
    if keys != [] && o.Answer() != CIFX_NO_ERROR && PollAction(keys[0]) == Ignore {
      var e := Event(ChannelIORead(h, 0, 0, SIZE_BUFFER_IN, timeout), o.Answer());
      var rest := ReadLoopSpec(h, timeout, keys[1..], o.Next());
      ReadLoopChannelCalls(h, timeout, keys[1..], o.Next());
      ChannelCallsOnlyAppend([e], rest.events);
      assert ReadLoopSpec(h, timeout, keys, o).events == [e] + rest.events;
    }
  }

  /** How the loop reacts to one poll of the keyboard; no key is ignored. */
  function PollAction(k: KeyPoll): (a: KeyAction)
    ensures k.NoKey? ==> a == Ignore
    ensures k.Pressed? ==> a == KeyActionOf(k.key)
  {
    match k
    case NoKey => Ignore
    case Pressed(b) => KeyActionOf(b)
  }

  /** One round of the read loop, seen from a run `goal` of which `done` has happened and
      the loop over `rest` is what is left. */
  lemma ReadLoopRound(h: nat, timeout: nat, rest: seq<KeyPoll>, o: Oracle,
                      goal: Run<ReadOutcome>, done: seq<Event>)
    requires rest != []
    requires goal == After(done, ReadLoopSpec(h, timeout, rest, o))
    ensures var e := Event(ChannelIORead(h, 0, 0, SIZE_BUFFER_IN, timeout), o.Answer());
      var a := PollAction(rest[0]);
      && (o.Answer() == CIFX_NO_ERROR ==>
            goal == Run(GoodRead(ReadBuffer(o.inputArea)), done + [e], o.Next()))
      && (o.Answer() != CIFX_NO_ERROR && a == Ignore ==>
            goal == After(done + [e], ReadLoopSpec(h, timeout, rest[1..], o.Next())))
      && (o.Answer() != CIFX_NO_ERROR && a == Stop ==>
            goal == Run(Quit, done + [e] + [Event(ChannelClose(h), o.Next().Answer())], o.Next().Next()))
      && (o.Answer() != CIFX_NO_ERROR && a.Raise? ==>
            goal == Run(Raised(a.error), done + [e], o.Next()))
  {
    var e := Event(ChannelIORead(h, 0, 0, SIZE_BUFFER_IN, timeout), o.Answer());
    var close := Event(ChannelClose(h), o.Next().Answer());
    var next := ReadLoopSpec(h, timeout, rest[1..], o.Next());
    AppendAssoc(done, [e], next.events);
    assert [e] + [close] == [e, close];
    AppendAssoc(done, [e], [close]);
  }

  /** The `while not bExitLoop` loop of WIC_ReadIOData on the bus-on channel `h`. Each round
      reads 244 bytes of the input area into `buffer` and returns on success; on failure it
      looks at the key poll of that round. When the loop is left by key the channel is
      closed (`hDevice != None` holds for every handle object). */
  method ReadLoop(dll: CifXDll, h: nat, timeout: nat, keys: seq<KeyPoll>, buffer: array<Byte>)
    returns (outcome: ReadOutcome)
    requires buffer[..] == Zeros(READ_BUFFER_LENGTH)
    modifies dll, buffer
    ensures var r := ReadLoopSpec(h, timeout, keys, old(dll.oracle));
      outcome == r.result && dll.oracle == r.after && dll.trace == old(dll.trace) + r.events
  {
    ghost var t1 := dll.trace;
    ghost var goal := ReadLoopSpec(h, timeout, keys, dll.oracle);
    ghost var done: seq<Event> := [];
    var rest := keys;
    var exitLoop := false;
    assert done + goal.events == goal.events;
    while !exitLoop
      invariant dll.trace == t1 + done
      invariant buffer[..] == Zeros(READ_BUFFER_LENGTH)
      invariant !exitLoop ==> goal == After(done, ReadLoopSpec(h, timeout, rest, dll.oracle))
      invariant exitLoop ==> goal == Run(Quit, done + [Event(ChannelClose(h), dll.oracle.Answer())], dll.oracle.Next())
      decreases |rest|, if exitLoop then 0 else 1
    {
      if rest == [] {
        return Polling;
      }
      ReadLoopRound(h, timeout, rest, dll.oracle, goal, done);
      ghost var o := dll.oracle;
      var code := dll.IORead(h, 0, 0, SIZE_BUFFER_IN, buffer, timeout);
      ghost var e := Event(ChannelIORead(h, 0, 0, SIZE_BUFFER_IN, timeout), code);
      if code == CIFX_NO_ERROR {
        assert buffer[..] == ReadBuffer(o.inputArea);
        return GoodRead(buffer[..]);
      }
      var action := PollAction(rest[0]);
      match action {
        case Ignore =>
        case Stop =>
          exitLoop := true;
        case Raise(err) =>
          return Raised(err);
      }
      done := done + [e];
      rest := rest[1..];
    }
    var _ := dll.Invoke(ChannelClose(h));
    return Quit;
  }

  /** WIC_ReadIOData: bring the channel up, then run the read loop with a zeroed buffer of
      twice the size read; a good read returns the record at the start of the buffer. */
  method ReadIOData(dll: CifXDll, driver: nat, board: string, timeout: nat, keys: seq<KeyPoll>)
    returns (outcome: ReadOutcome, slave: Option<PbBufInWic>)
    modifies dll
    ensures var r := ReadIODataSpec(driver, board, timeout, keys, old(dll.oracle));
      && outcome == r.result && dll.oracle == r.after && dll.trace == old(dll.trace) + r.events
      && (outcome.GoodRead? ==> |outcome.buffer| == READ_BUFFER_LENGTH)
      && slave == Returned(outcome)
  {
    var buffer := new Byte[READ_BUFFER_LENGTH](_ => 0);
    ghost var o := dll.oracle;
    var device := OpenChannel(dll, driver, board);
    if device.None? {
      return NotOpened, None;
    }
    ghost var o1 := dll.oracle;
    ghost var t1 := dll.trace;
    ghost var s := OpenChannelSpec(driver, board, o);
    ghost var l := ReadLoopSpec(device.value, timeout, keys, o1);
    assert ReadIODataSpec(driver, board, timeout, keys, o) == After(s.events, l);
    outcome := ReadLoop(dll, device.value, timeout, keys, buffer);
    AppendAssoc(old(dll.trace), s.events, l.events);
    ReadLoopBuffer(device.value, timeout, keys, o1);
    // `memmove(addressof(slave), abReadIOBuffer, sizeof(slave))` after a good read.
    slave := Returned(outcome);
  }

  // ---------------------------------------------------------------------------
  // WIC_SendToMaster

  /** How WIC_SendToMaster ends. `CopyRaised`: `copy_struct` raised TypeError; `SizeRaised`:
      the output record did not fit the write buffer; `Unopened`: the session could not be set
      up; `Sent`: the write was issued with return code `writeCode`, then the read-back, which
      holds the 244-byte buffer read into when it succeeded. */
  datatype SendOutcome =
    | CopyRaised
    | SizeRaised
    | Unopened
    | Sent(writeCode: Int32, readBuffer: Option<seq<Byte>>)

  /** The 244 bytes written: the output record's memory image moved into the zeroed buffer. */
  function WriteImage(r: PbBufOutWic): (b: seq<Byte>)
    ensures |b| == SIZE_BUFFER_OUT
  {
    EncodeOut(r) + Zeros(SIZE_BUFFER_OUT - SIZEOF_PB_BUF_OUT_WIC)
  }

  /** The written bytes are the record, then zeros to the end of the buffer. */
  lemma WriteImageDecodes(r: PbBufOutWic)
    ensures DecodeOut(WriteImage(r)[..SIZEOF_PB_BUF_OUT_WIC]) == r
    ensures forall i :: SIZEOF_PB_BUF_OUT_WIC <= i < SIZE_BUFFER_OUT ==> WriteImage(r)[i] == 0
  {
    assert WriteImage(r)[..SIZEOF_PB_BUF_OUT_WIC] == EncodeOut(r);
    DecodeEncodeOut(r);
  }

  /** The record the read-back shows: the start of the buffer read into, when the read
      succeeded. */
  function ReadBack(r: SendOutcome): (x: Option<PbBufInWic>)
    requires r.Sent? && r.readBuffer.Some? ==> |r.readBuffer.value| >= SIZEOF_PB_BUF_IN_WIC
    ensures x.Some? <==> r.Sent? && r.readBuffer.Some?
  {
    if r.Sent? && r.readBuffer.Some? then Some(DecodeIn(r.readBuffer.value[..SIZEOF_PB_BUF_IN_WIC])) else None
  }

  /** On the bus-on channel `h`: write `data` to output area 0, read 244 bytes of input area 0
      back whatever the write returned, and close the channel. */
  function TransferSpec(h: nat, timeout: nat, data: seq<Byte>, o: Oracle): (r: Run<SendOutcome>)
    ensures r.result.Sent?
  {
    var cw := o.Answer();
    var o1 := o.Next().(outputArea := if cw == CIFX_NO_ERROR then data else o.outputArea);
    var cr := o1.Answer();
    var o2 := o1.Next();
    var back := if cr == CIFX_NO_ERROR then Some(Window(o1.inputArea, 0, SIZE_BUFFER_IN)) else None;
    Run(Sent(cw, back),
        [Event(ChannelIOWrite(h, 0, 0, data, timeout), cw),
         Event(ChannelIORead(h, 0, 0, SIZE_BUFFER_IN, timeout), cr),
         Event(ChannelClose(h), o2.Answer())],
        o2.Next())
  }

  /** WIC_SendToMaster with `result` given as its (field name, value) list. */
  function SendToMasterSpec(driver: nat, board: string, timeout: nat, src: seq<(string, FieldValue)>, o: Oracle)
    : Run<SendOutcome>
  {
    var c := CopyFields(ZERO_OUT, map[], src);
    if !c.ok then Run(CopyRaised, [], o)
    else if SIZEOF_PB_BUF_OUT_WIC > SIZE_BUFFER_OUT then Run(SizeRaised, [], o)
    else SendRecordSpec(driver, board, timeout, c.record, o)
  }

  /** What follows a good copy into the output struct `master`: the session, then the
      transfer of its memory image. */
  function SendRecordSpec(driver: nat, board: string, timeout: nat, master: PbBufOutWic, o: Oracle)
    : Run<SendOutcome>
  {
    var s := OpenChannelSpec(driver, board, o);
    match s.result
    case None => Run(Unopened, s.events, s.after)
    case Some(h) => After(s.events, TransferSpec(h, timeout, WriteImage(master), s.after))
  }

  /** The write, read-back and close keep to the session protocol and end with the channel
      closed. */
  lemma TransferPhase(h: nat, timeout: nat, data: seq<Byte>, o: Oracle)
    requires h != 0
    ensures Walk(BusOn(h), TransferSpec(h, timeout, data, o).events) == Closed
  {
    var es := TransferSpec(h, timeout, data, o).events;
    assert es == [es[0]] + [es[1]] + [es[2]];
    WalkAppend(BusOn(h), [es[0]] + [es[1]], [es[2]]);
    WalkAppend(BusOn(h), [es[0]], [es[1]]);
    WalkOne(BusOn(h), es[0]);
    WalkOne(BusOn(h), es[1]);
    WalkOne(BusOn(h), es[2]);
  }

  /** After a good copy the session keeps to the protocol and ends closed; when it came
      up, the calls end with exactly one write of the record's image, a read-back and a
      close, all on the device the open returned, and the device holds the written bytes
      exactly when the write succeeded. */
  lemma SendRecordProtocol(driver: nat, board: string, timeout: nat, m: PbBufOutWic, o: Oracle)
    ensures var r := SendRecordSpec(driver, board, timeout, m, o);
      && Walk(Closed, r.events) == Closed
      && (r.result.Sent? || r.result.Unopened?)
      && (r.result.Sent? ==>
            var n := |r.events|;
            && n >= 3
            && r.events[n - 3].call == ChannelIOWrite(r.events[0].call.handle, 0, 0, WriteImage(m), timeout)
            && r.events[n - 2].call == ChannelIORead(r.events[0].call.handle, 0, 0, SIZE_BUFFER_IN, timeout)
            && r.events[n - 1].call == ChannelClose(r.events[0].call.handle)
            && r.after.outputArea == (if r.result.writeCode == CIFX_NO_ERROR then WriteImage(m) else o.outputArea))
  {
    var s := OpenChannelSpec(driver, board, o);
    OpenChannelProtocol(driver, board, o);
    OpenChannelKeepsOutput(driver, board, o);
    if s.result.Some? {
      var h := s.result.value;
      var t := TransferSpec(h, timeout, WriteImage(m), s.after);
      OpenChannelHandle(driver, board, o);
      TransferPhase(h, timeout, WriteImage(m), s.after);
      WalkAppend(Closed, s.events, t.events);
      assert SendRecordSpec(driver, board, timeout, m, o).events == s.events + t.events;
    }
  }

  /** WIC_SendToMaster never leaves a channel open and never misuses one; a copy that
      raised issues no call at all; the size check never fires; otherwise it sends the
      copied record as SendRecordProtocol says. */
  lemma SendToMasterProtocol(driver: nat, board: string, timeout: nat, src: seq<(string, FieldValue)>, o: Oracle)
    ensures var r := SendToMasterSpec(driver, board, timeout, src, o);
      var c := CopyFields(ZERO_OUT, map[], src);
      && Walk(Closed, r.events) == Closed
      && !r.result.SizeRaised?
      && (r.result.CopyRaised? <==> !c.ok)
      && (r.result.CopyRaised? ==> r.events == [] && r.after == o)
      && (c.ok ==> r == SendRecordSpec(driver, board, timeout, c.record, o))
  {
    var c := CopyFields(ZERO_OUT, map[], src);
    if c.ok {
      SendRecordProtocol(driver, board, timeout, c.record, o);
    }
  }

  /** A session that came up reports the handle the open call wrote. */
  lemma OpenChannelHandle(driver: nat, board: string, o: Oracle)
    ensures var r := OpenChannelSpec(driver, board, o);
      r.result.Some? ==> r.events != [] && r.events[0].call.ChannelOpen? && r.result.value == r.events[0].call.handle
  {
  }

  /** Bringing the channel up does not change the device's output area. */
  lemma OpenChannelKeepsOutput(driver: nat, board: string, o: Oracle)
    ensures OpenChannelSpec(driver, board, o).after.outputArea == o.outputArea
    ensures OpenChannelSpec(driver, board, o).after.inputArea == o.inputArea
  {
  }

  /** Sending an output record writes that record. */
  lemma SendOutRecord(driver: nat, board: string, timeout: nat, x: PbBufOutWic, o: Oracle)
    ensures var r := SendToMasterSpec(driver, board, timeout, OutFieldList(x), o);
      && !r.result.CopyRaised?
      && (r.result.Sent? ==> r.events[|r.events| - 3].call.data == WriteImage(x))
  {
    CopyOwnFields(x, ZERO_OUT, map[]);
    SendToMasterProtocol(driver, board, timeout, OutFieldList(x), o);
    SendRecordProtocol(driver, board, timeout, x, o);
  }

  /** Sending an input record, as the read loop's `w` branch means to, writes its sixteen
      header words and zero for every pv/pvq word: its setpoints only become Python
      attributes of the output struct and are not part of its memory. */
  lemma SendInRecord(driver: nat, board: string, timeout: nat, x: PbBufInWic, o: Oracle)
    ensures var r := SendToMasterSpec(driver, board, timeout, InFieldList(x), o);
      && !r.result.CopyRaised?
      && (r.result.Sent? ==> r.events[|r.events| - 3].call.data == WriteImage(ZERO_OUT.(hdr := x.hdr)))
  {
    CopyInOntoOut(x, ZERO_OUT, map[]);
    SendToMasterProtocol(driver, board, timeout, InFieldList(x), o);
    SendRecordProtocol(driver, board, timeout, ZERO_OUT.(hdr := x.hdr), o);
  }

  /** The write, the read-back and the close on the bus-on channel `h`; `writeBuffer` holds
      the bytes to write and `readBuffer` is the zeroed 244-byte read buffer. */
  method Transfer(dll: CifXDll, h: nat, timeout: nat, writeBuffer: array<Byte>, readBuffer: array<Byte>)
    returns (outcome: SendOutcome)
    requires writeBuffer.Length == SIZE_BUFFER_OUT && readBuffer.Length == SIZE_BUFFER_IN
    requires writeBuffer != readBuffer
    modifies dll, readBuffer
    ensures var r := TransferSpec(h, timeout, old(writeBuffer[..]), old(dll.oracle));
      outcome == r.result && dll.oracle == r.after && dll.trace == old(dll.trace) + r.events
  {
    ghost var t0 := dll.trace;
    var writeCode := dll.IOWrite(h, 0, 0, SIZE_BUFFER_OUT, writeBuffer, timeout);
    assert writeBuffer[..SIZE_BUFFER_OUT] == writeBuffer[..];
    ghost var ew := Event(ChannelIOWrite(h, 0, 0, writeBuffer[..], timeout), writeCode);
    ghost var o1 := dll.oracle;
    var readCode := dll.IORead(h, 0, 0, SIZE_BUFFER_IN, readBuffer, timeout);
    ghost var er := Event(ChannelIORead(h, 0, 0, SIZE_BUFFER_IN, timeout), readCode);
    var back := None;
    if readCode == CIFX_NO_ERROR {
      assert old(readBuffer[..])[SIZE_BUFFER_IN..] == [];
      assert readBuffer[..] == Window(o1.inputArea, 0, SIZE_BUFFER_IN);
      back := Some(readBuffer[..]);
    }
    // `hDevice is not None` holds for every handle object: the channel is always closed.
    ghost var o2 := dll.oracle;
    var _ := dll.Invoke(ChannelClose(h));
    ghost var ec := Event(ChannelClose(h), o2.Answer());
    assert [ew] + [er] + [ec] == [ew, er, ec];
    AppendAssoc(t0, [ew] + [er], [ec]);
    AppendAssoc(t0, [ew], [er]);
    return Sent(writeCode, back);
  }

  /** WIC_SendToMaster(hDriver, szBoard, ulWaitTimeout, result), with `result` given as its
      (field name, value) list; `readBack` is the record filled from the read-back buffer. */
  method SendToMaster(dll: CifXDll, driver: nat, board: string, timeout: nat, src: seq<(string, FieldValue)>)
    returns (outcome: SendOutcome, readBack: Option<PbBufInWic>)
    modifies dll
    ensures var r := SendToMasterSpec(driver, board, timeout, src, old(dll.oracle));
      && outcome == r.result && dll.oracle == r.after && dll.trace == old(dll.trace) + r.events
      && (outcome.Sent? && outcome.readBuffer.Some? ==> |outcome.readBuffer.value| == SIZE_BUFFER_IN)
      && readBack == ReadBack(outcome)
  {
    var master := new OutStruct();
    var ok := CopyStruct(master, src);
    if !ok {
      return CopyRaised, None;
    }
    if SIZEOF_PB_BUF_OUT_WIC > SIZE_BUFFER_OUT {
      return SizeRaised, None;
    }
    outcome := SendRecord(dll, driver, board, timeout, master.record);
    readBack := ReadBack(outcome);
  }

  /** WIC_SendToMaster from the opening of the channel on, for the output struct's record
      `master`. */
  method SendRecord(dll: CifXDll, driver: nat, board: string, timeout: nat, master: PbBufOutWic)
    returns (outcome: SendOutcome)
    modifies dll
    ensures var r := SendRecordSpec(driver, board, timeout, master, old(dll.oracle));
      && outcome == r.result && dll.oracle == r.after && dll.trace == old(dll.trace) + r.events
      && (outcome.Sent? && outcome.readBuffer.Some? ==> |outcome.readBuffer.value| == SIZE_BUFFER_IN)
  {
    var writeBuffer := new Byte[SIZE_BUFFER_OUT](_ => 0);
    var readBuffer := new Byte[SIZE_BUFFER_IN](_ => 0);
    ghost var o := dll.oracle;
    var device := OpenChannel(dll, driver, board);
    if device.None? {
      return Unopened;
    }
    CopyInto(writeBuffer, EncodeOut(master));
    assert writeBuffer[..] == WriteImage(master);
    ghost var s := OpenChannelSpec(driver, board, o);
    ghost var t := TransferSpec(device.value, timeout, writeBuffer[..], dll.oracle);
    assert SendRecordSpec(driver, board, timeout, master, o) == After(s.events, t);
    outcome := Transfer(dll, device.value, timeout, writeBuffer, readBuffer);
    AppendAssoc(old(dll.trace), s.events, t.events);
  }
}
