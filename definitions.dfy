/** The ctypes record layouts exchanged with the cifX driver: the cyclic Profibus
    input and output images and two of the driver's packed information blocks,
    with their memory images (encode) and the views the host reads back (decode). */
module Definitions {
  import opened Bytes
  import opened Wrappers

  const TRACKS_PER_VIEW_MAX: nat := 8

  /** One view's array of uint16 values, `ARRAY(c_uint16, TRACKS_PER_VIEW_MAX)`. */
  type Track = s: seq<U16> | |s| == TRACKS_PER_VIEW_MAX witness [0, 0, 0, 0, 0, 0, 0, 0]

  const ZERO_TRACK: Track := [0, 0, 0, 0, 0, 0, 0, 0]

  /** The sixteen scalar uint16 fields both cyclic records start with, in declaration order.
      `value16` is the watchdog counter the Profibus master writes. */
  datatype Header = Header(
    state1: U16, state2: U16,
    year: U16, month: U16, day: U16, hours: U16, minutes: U16, seconds: U16,
    interval1: U16, interval2: U16, interval3: U16, interval4: U16,
    value13: U16, value14: U16, value15: U16, value16: U16)

  const HEADER_WORDS: nat := 16

  const ZERO_HEADER: Header := Header(0, 0, 0, 0, 0, 0, 0, 0, 0, 0, 0, 0, 0, 0, 0, 0)

  function HeaderWords(h: Header): (ws: seq<U16>)
    ensures |ws| == HEADER_WORDS
  {
    [h.state1, h.state2, h.year, h.month, h.day, h.hours, h.minutes, h.seconds,
     h.interval1, h.interval2, h.interval3, h.interval4, h.value13, h.value14, h.value15, h.value16]
  }

  /** The header whose fields are the given sixteen words, in order. */
  function HeaderOf(ws: seq<U16>): (h: Header)
    requires |ws| == HEADER_WORDS
    ensures HeaderWords(h) == ws
  {
    Header(ws[0], ws[1], ws[2], ws[3], ws[4], ws[5], ws[6], ws[7],
           ws[8], ws[9], ws[10], ws[11], ws[12], ws[13], ws[14], ws[15])
  }

  lemma HeaderOfWords(h: Header)
    ensures HeaderOf(HeaderWords(h)) == h
  {
  }

  /** `PbBufInWic`: what the Profibus master sends to this slave (device -> host). */
  datatype PbBufInWic = PbBufInWic(hdr: Header, sp1: Track, sp2: Track, sp3: Track, sp4: Track)

  /** `PbBufOutWic` (`_pack_ = 2`): what this slave sends back (host -> device);
      each view carries a value array and a parallel quality array. */
  datatype PbBufOutWic = PbBufOutWic(
    hdr: Header,
    pv1: Track, pvq1: Track, pv2: Track, pvq2: Track,
    pv3: Track, pvq3: Track, pv4: Track, pvq4: Track)

  const IN_WORDS: nat := HEADER_WORDS + 4 * TRACKS_PER_VIEW_MAX
  const OUT_WORDS: nat := HEADER_WORDS + 8 * TRACKS_PER_VIEW_MAX

  /** `ctypes.sizeof(PbBufInWic)`: 48 uint16 with no padding. */
  const SIZEOF_PB_BUF_IN_WIC: nat := 2 * IN_WORDS
  /** `ctypes.sizeof(PbBufOutWic)`: 80 uint16; 2-byte packing adds no padding between them. */
  const SIZEOF_PB_BUF_OUT_WIC: nat := 2 * OUT_WORDS

  const ZERO_OUT: PbBufOutWic :=
    PbBufOutWic(ZERO_HEADER, ZERO_TRACK, ZERO_TRACK, ZERO_TRACK, ZERO_TRACK,
                ZERO_TRACK, ZERO_TRACK, ZERO_TRACK, ZERO_TRACK)

  function InTracks(r: PbBufInWic): (ts: seq<Track>)
    ensures |ts| == 4
  {
    [r.sp1, r.sp2, r.sp3, r.sp4]
  }

  function OutTracks(r: PbBufOutWic): (ts: seq<Track>)
    ensures |ts| == 8
  {
    [r.pv1, r.pvq1, r.pv2, r.pvq2, r.pv3, r.pvq3, r.pv4, r.pvq4]
  }

  /** The output record with the given header and the given eight arrays, in declaration order. */
  function OutOf(hdr: Header, ts: seq<Track>): (r: PbBufOutWic)
    requires |ts| == 8
    ensures r.hdr == hdr && OutTracks(r) == ts
  {
    PbBufOutWic(hdr, ts[0], ts[1], ts[2], ts[3], ts[4], ts[5], ts[6], ts[7])
  }

  /** The uint16 elements of an input record, in memory order. */
  function InWords(r: PbBufInWic): (ws: seq<U16>)
    ensures |ws| == IN_WORDS
  {
    HeaderWords(r.hdr) + r.sp1 + r.sp2 + r.sp3 + r.sp4
  }

  /** The uint16 elements of an output record, in memory order. */
  function OutWords(r: PbBufOutWic): (ws: seq<U16>)
    ensures |ws| == OUT_WORDS
  {
    HeaderWords(r.hdr) + r.pv1 + r.pvq1 + r.pv2 + r.pvq2 + r.pv3 + r.pvq3 + r.pv4 + r.pvq4
  }

  /** The memory image of an input record. */
  function EncodeIn(r: PbBufInWic): (b: seq<Byte>)
    ensures |b| == SIZEOF_PB_BUF_IN_WIC
  {
    PackWords(InWords(r))
  }

  /** The memory image of an output record; it fits the 244-byte output area with room to spare. */
  function EncodeOut(r: PbBufOutWic): (b: seq<Byte>)
    ensures |b| == SIZEOF_PB_BUF_OUT_WIC
  {
    PackWords(OutWords(r))
  }

  /** `memmove(addressof(slave), buffer, sizeof(slave))`: the input record the first
      96 bytes of `b` spell; any bytes after them are not looked at. */
  function DecodeIn(b: seq<Byte>): PbBufInWic
    requires |b| >= SIZEOF_PB_BUF_IN_WIC
  {
    PbBufInWic(HeaderOf(WordsAt(b, 0, HEADER_WORDS)),
               WordsAt(b, 16, 8), WordsAt(b, 24, 8), WordsAt(b, 32, 8), WordsAt(b, 40, 8))
  }

  /** Only the first 96 bytes take part in decoding an input record. */
  lemma DecodeInPrefix(b: seq<Byte>, c: seq<Byte>)
    requires |b| >= SIZEOF_PB_BUF_IN_WIC && |c| >= SIZEOF_PB_BUF_IN_WIC
    requires b[..SIZEOF_PB_BUF_IN_WIC] == c[..SIZEOF_PB_BUF_IN_WIC]
    ensures DecodeIn(b) == DecodeIn(c)
  {
    WordsAtPrefix(b, c, SIZEOF_PB_BUF_IN_WIC, 0, HEADER_WORDS);
    WordsAtPrefix(b, c, SIZEOF_PB_BUF_IN_WIC, 16, 8);
    WordsAtPrefix(b, c, SIZEOF_PB_BUF_IN_WIC, 24, 8);
    WordsAtPrefix(b, c, SIZEOF_PB_BUF_IN_WIC, 32, 8);
    WordsAtPrefix(b, c, SIZEOF_PB_BUF_IN_WIC, 40, 8);
  }

  /** The output record the first 160 bytes of `b` spell. */
  function DecodeOut(b: seq<Byte>): PbBufOutWic
    requires |b| >= SIZEOF_PB_BUF_OUT_WIC
  {
    PbBufOutWic(HeaderOf(WordsAt(b, 0, HEADER_WORDS)),
                WordsAt(b, 16, 8), WordsAt(b, 24, 8), WordsAt(b, 32, 8), WordsAt(b, 40, 8),
                WordsAt(b, 48, 8), WordsAt(b, 56, 8), WordsAt(b, 64, 8), WordsAt(b, 72, 8))
  }

  /** The i-th uint16 of an input record sits at byte offset 2i. */
  lemma EncodeInAt(r: PbBufInWic, i: nat)
    requires i < IN_WORDS
    ensures EncodeIn(r)[2 * i..2 * i + 2] == Le16(InWords(r)[i])
  {
    PackWordsAt(InWords(r), i);
  }

  /** The i-th uint16 of an output record sits at byte offset 2i. */
  lemma EncodeOutAt(r: PbBufOutWic, i: nat)
    requires i < OUT_WORDS
    ensures EncodeOut(r)[2 * i..2 * i + 2] == Le16(OutWords(r)[i])
  {
    PackWordsAt(OutWords(r), i);
  }

  /** Decoding any buffer that starts with a packed sequence of 48 words yields the record
      whose fields are those words in declaration order, whatever follows them. */
  lemma DecodeInOfWords(ws: seq<U16>, rest: seq<Byte>)
    requires |ws| == IN_WORDS
    ensures DecodeIn(PackWords(ws) + rest) ==
            PbBufInWic(HeaderOf(ws[..16]), ws[16..24], ws[24..32], ws[32..40], ws[40..48])
  {
    var b := PackWords(ws) + rest;
    assert b[..SIZEOF_PB_BUF_IN_WIC] == PackWords(ws)[..SIZEOF_PB_BUF_IN_WIC];
    DecodeInPrefix(b, PackWords(ws));
    forall first: nat, n: nat | first + n <= IN_WORDS
      ensures WordsAt(PackWords(ws), first, n) == ws[first..first + n]
    {
      PackedWordsAt(ws, first, n);
    }
  }

  lemma InWordsSlices(r: PbBufInWic)
    ensures InWords(r)[..16] == HeaderWords(r.hdr)
    ensures InWords(r)[16..24] == r.sp1 && InWords(r)[24..32] == r.sp2
    ensures InWords(r)[32..40] == r.sp3 && InWords(r)[40..48] == r.sp4
  {
    var ws := InWords(r);
    assert ws == HeaderWords(r.hdr) + r.sp1 + r.sp2 + r.sp3 + r.sp4;
  }

  lemma OutWordsSlices(r: PbBufOutWic)
    ensures OutWords(r)[..16] == HeaderWords(r.hdr)
    ensures OutWords(r)[16..24] == r.pv1 && OutWords(r)[24..32] == r.pvq1
    ensures OutWords(r)[32..40] == r.pv2 && OutWords(r)[40..48] == r.pvq2
    ensures OutWords(r)[48..56] == r.pv3 && OutWords(r)[56..64] == r.pvq3
    ensures OutWords(r)[64..72] == r.pv4 && OutWords(r)[72..80] == r.pvq4
  {
  }

  /** Round trip of the input record: decoding its memory image gives it back. */
  lemma DecodeEncodeIn(r: PbBufInWic)
    ensures DecodeIn(EncodeIn(r)) == r
  {
    InWordsSlices(r);
    DecodeInOfWords(InWords(r), []);
    assert EncodeIn(r) + [] == EncodeIn(r);
  }

  /** Round trip of the output record. */
  lemma DecodeEncodeOut(r: PbBufOutWic)
    ensures DecodeOut(EncodeOut(r)) == r
  {
    var ws := OutWords(r);
    OutWordsSlices(r);
    forall first: nat, n: nat | first + n <= OUT_WORDS
      ensures WordsAt(EncodeOut(r), first, n) == ws[first..first + n]
    {
      PackedWordsAt(ws, first, n);
    }
  }

  /** Encoding is injective on the bytes: a buffer the input record decodes from is its image. */
  lemma EncodeDecodeIn(b: seq<Byte>)
    requires |b| == SIZEOF_PB_BUF_IN_WIC
    ensures EncodeIn(DecodeIn(b)) == b
  {
    var r := DecodeIn(b);
    forall i | 0 <= i < IN_WORDS
      ensures EncodeIn(r)[2 * i..2 * i + 2] == b[2 * i..2 * i + 2]
    {
      EncodeInAt(r, i);
      InWordsSlices(r);
      if i < 16 {
        assert InWords(r)[i] == WordsAt(b, 0, 16)[i];
        WordsAtElem(b, 0, 16, i);
      } else if i < 24 {
        assert InWords(r)[i] == r.sp1[i - 16];
        WordsAtElem(b, 16, 8, i - 16);
      } else if i < 32 {
        assert InWords(r)[i] == r.sp2[i - 24];
        WordsAtElem(b, 24, 8, i - 24);
      } else if i < 40 {
        assert InWords(r)[i] == r.sp3[i - 32];
        WordsAtElem(b, 32, 8, i - 32);
      } else {
        assert InWords(r)[i] == r.sp4[i - 40];
        WordsAtElem(b, 40, 8, i - 40);
      }
    }
    forall j | 0 <= j < |b|
      ensures EncodeIn(r)[j] == b[j]
    {
      var i := j / 2;
      assert EncodeIn(r)[2 * i..2 * i + 2] == b[2 * i..2 * i + 2];
      assert EncodeIn(r)[j] == EncodeIn(r)[2 * i..2 * i + 2][j - 2 * i];
    }
  }

  /** The first 32 bytes (state1 .. value_16) are laid out identically in both records. */
  lemma HeaderPrefixShared(x: PbBufInWic, o: PbBufOutWic)
    requires x.hdr == o.hdr
    ensures EncodeIn(x)[..2 * HEADER_WORDS] == EncodeOut(o)[..2 * HEADER_WORDS]
  {
    InWordsSlices(x);
    OutWordsSlices(o);
    PackWordsPrefix(InWords(x), HEADER_WORDS);
    PackWordsPrefix(OutWords(o), HEADER_WORDS);
  }

  /** An output image read through the input layout: the same sixteen scalars, and
      sp1, sp2, sp3, sp4 land on the bytes of pv1, pvq1, pv2, pvq2. */
  lemma DecodeOutImageAsIn(o: PbBufOutWic)
    ensures DecodeIn(EncodeOut(o)) == PbBufInWic(o.hdr, o.pv1, o.pvq1, o.pv2, o.pvq2)
  {
    var ws := OutWords(o);
    OutWordsSlices(o);
    forall first: nat, n: nat | first + n <= OUT_WORDS
      ensures WordsAt(EncodeOut(o), first, n) == ws[first..first + n]
    {
      PackedWordsAt(ws, first, n);
    }
  }

  // ---------------------------------------------------------------------------
  // The records seen through `_fields_`: field names and the values getattr returns.

  /** What `getattr` on a record field gives and `setattr` accepts: a Python int for a
      c_uint16 field, a ctypes uint16 array for an array field. */
  datatype FieldValue = IntValue(i: int) | ArrayValue(items: seq<U16>)

  const HEADER_FIELDS: seq<string> :=
    ["state1", "state2", "year", "month", "day", "hours", "minutes", "seconds",
     "interval1", "interval2", "interval3", "interval4", "value_13", "value_14", "value_15", "value_16"]

  /** `PbBufInWic._fields_`, names only. */
  const IN_FIELDS: seq<string> := HEADER_FIELDS + ["sp1", "sp2", "sp3", "sp4"]

  /** `PbBufOutWic._fields_`, names only. */
  const OUT_FIELDS: seq<string> :=
    HEADER_FIELDS + ["pv1", "pvq1", "pv2", "pvq2", "pv3", "pvq3", "pv4", "pvq4"]

  /** The value of the i-th declared field of an output record. */
  function OutFieldValue(r: PbBufOutWic, i: nat): FieldValue
    requires i < |OUT_FIELDS|
  {
    if i < HEADER_WORDS then IntValue(HeaderWords(r.hdr)[i]) else ArrayValue(OutTracks(r)[i - HEADER_WORDS])
  }

  /** The value of the i-th declared field of an input record. */
  function InFieldValue(x: PbBufInWic, i: nat): FieldValue
    requires i < |IN_FIELDS|
  {
    if i < HEADER_WORDS then IntValue(HeaderWords(x.hdr)[i]) else ArrayValue(InTracks(x)[i - HEADER_WORDS])
  }

  /** `src._fields_` of an output record, each name paired with what getattr returns for it. */
  function OutFieldList(r: PbBufOutWic): (fs: seq<(string, FieldValue)>)
    ensures |fs| == |OUT_FIELDS|
    ensures forall i :: 0 <= i < |fs| ==> fs[i] == (OUT_FIELDS[i], OutFieldValue(r, i))
  {
    seq(|OUT_FIELDS|, i requires 0 <= i < |OUT_FIELDS| => (OUT_FIELDS[i], OutFieldValue(r, i)))
  }

  /** `src._fields_` of an input record, each name paired with what getattr returns for it. */
  function InFieldList(x: PbBufInWic): (fs: seq<(string, FieldValue)>)
    ensures |fs| == |IN_FIELDS|
    ensures forall i :: 0 <= i < |fs| ==> fs[i] == (IN_FIELDS[i], InFieldValue(x, i))
  {
    seq(|IN_FIELDS|, i requires 0 <= i < |IN_FIELDS| => (IN_FIELDS[i], InFieldValue(x, i)))
  }

  /** Whether ctypes accepts `v` for the i-th field of an output record: any int for a
      c_uint16 field, a uint16 array of the declared length for an array field. */
  predicate OutFieldAccepts(i: nat, v: FieldValue)
  {
    if i < HEADER_WORDS then v.IntValue? else v.ArrayValue? && |v.items| == TRACKS_PER_VIEW_MAX
  }

  /** What the i-th field holds after `setattr` with an accepted value: an int is cut to its
      low 16 bits, an array is copied. */
  function Stored(i: nat, v: FieldValue): FieldValue
    requires OutFieldAccepts(i, v)
  {
    if i < HEADER_WORDS then IntValue(ToU16(v.i)) else v
  }

  /** `setattr` on the i-th field of an output record; None when ctypes raises TypeError. */
  function SetOutField(r: PbBufOutWic, i: nat, v: FieldValue): (res: Option<PbBufOutWic>)
    requires i < |OUT_FIELDS|
    ensures res.Some? <==> OutFieldAccepts(i, v)
    ensures res.Some? ==> OutFieldValue(res.value, i) == Stored(i, v)
    ensures res.Some? ==> forall j :: 0 <= j < |OUT_FIELDS| && j != i ==>
                            OutFieldValue(res.value, j) == OutFieldValue(r, j)
  {
    if !OutFieldAccepts(i, v) then None
    else if i < HEADER_WORDS then Some(r.(hdr := HeaderOf(HeaderWords(r.hdr)[i := ToU16(v.i)])))
    else
      var t: Track := v.items;
      Some(OutOf(r.hdr, OutTracks(r)[i - HEADER_WORDS := t]))
  }

  /** Two output records with the same value in every declared field are the same record. */
  lemma OutFieldsDetermine(a: PbBufOutWic, b: PbBufOutWic)
    requires forall i :: 0 <= i < |OUT_FIELDS| ==> OutFieldValue(a, i) == OutFieldValue(b, i)
    ensures a == b
  {
    forall i | 0 <= i < HEADER_WORDS ensures HeaderWords(a.hdr)[i] == HeaderWords(b.hdr)[i] {
      assert OutFieldValue(a, i) == OutFieldValue(b, i);
    }
    assert HeaderWords(a.hdr) == HeaderWords(b.hdr);
    HeaderOfWords(a.hdr);
    HeaderOfWords(b.hdr);
    forall j | 0 <= j < 8 ensures OutTracks(a)[j] == OutTracks(b)[j] {
      assert OutFieldValue(a, HEADER_WORDS + j) == OutFieldValue(b, HEADER_WORDS + j);
    }
    assert OutTracks(a) == OutTracks(b);
  }

  /** No two fields of `PbBufOutWic` share a name. */
  lemma OutFieldNamesDistinct()
    ensures forall i, j :: 0 <= i < j < |OUT_FIELDS| ==> OUT_FIELDS[i] != OUT_FIELDS[j]
  {
  }

  /** No two fields of `PbBufInWic` share a name; its header fields carry the names of
      the output record's, and its arrays names the output record does not declare. */
  lemma InFieldNames()
    ensures forall i, j :: 0 <= i < j < |IN_FIELDS| ==> IN_FIELDS[i] != IN_FIELDS[j]
    ensures forall i :: 0 <= i < HEADER_WORDS ==> IN_FIELDS[i] == OUT_FIELDS[i]
    ensures forall i :: HEADER_WORDS <= i < |IN_FIELDS| ==> IN_FIELDS[i] !in OUT_FIELDS
  {
  }

  // ---------------------------------------------------------------------------
  // Packed driver information blocks (`_pack_ = 1`).

  type Bytes4 = s: seq<Byte> | |s| == 4 witness [0, 0, 0, 0]
  type Bytes32 = s: seq<Byte> | |s| == 32 witness Zeros(32)
  type Words4 = s: seq<U16> | |s| == 4 witness [0, 0, 0, 0]

  /** `DRIVER_INFORMATION`: a 32-byte version string, then the number of boards. */
  datatype DriverInformation = DriverInformation(abDriverVersion: Bytes32, ulBoardCnt: U32)

  const SIZEOF_DRIVER_INFORMATION: nat := 36

  function EncodeDriverInformation(d: DriverInformation): (b: seq<Byte>)
    ensures |b| == SIZEOF_DRIVER_INFORMATION
  {
    d.abDriverVersion + Le32(d.ulBoardCnt)
  }

  /** The block as the driver fills it: the version at offset 0, the board count at offset 32. */
  function DecodeDriverInformation(b: seq<Byte>): DriverInformation
    requires |b| >= SIZEOF_DRIVER_INFORMATION
  {
    DriverInformation(b[..32], ReadLe32(b, 32))
  }

  lemma DecodeEncodeDriverInformation(d: DriverInformation)
    ensures DecodeDriverInformation(EncodeDriverInformation(d)) == d
  {
    var b := EncodeDriverInformation(d);
    assert b[32..36] == Le32(d.ulBoardCnt);
    assert b[..32] == d.abDriverVersion;
  }

  /** `SYSTEM_CHANNEL_SYSTEM_INFO_BLOCK`, packed. */
  datatype SystemChannelSystemInfoBlock = SystemChannelSystemInfoBlock(
    abCookie: Bytes4,
    ulDpmTotalSize: U32, ulDeviceNumber: U32, ulSerialNumber: U32,
    ausHwOptions: Words4,
    usManufacturer: U16, usProductionDate: U16,
    ulLicenseFlags1: U32, ulLicenseFlags2: U32,
    usNetxLicenseID: U16, usNetxLicenseFlags: U16, usDeviceClass: U16,
    bHwRevision: Byte, bHwCompatibility: Byte, bDevIdNumber: Byte, bReserved: Byte,
    usReserved: U16)

  const SIZEOF_SYSTEM_INFO_BLOCK: nat := 48

  /** The memory image: the fields one after another, no padding. */
  function EncodeSystemInfo(s: SystemChannelSystemInfoBlock): (b: seq<Byte>)
    ensures |b| == SIZEOF_SYSTEM_INFO_BLOCK
  {
    SystemInfoHead(s) + SystemInfoTail(s)
  }

  /** Bytes 0x00 .. 0x17: the cookie, the three sizes and numbers, the hardware options. */
  function SystemInfoHead(s: SystemChannelSystemInfoBlock): (b: seq<Byte>)
    ensures |b| == 0x18
  {
    s.abCookie + Le32(s.ulDpmTotalSize) + Le32(s.ulDeviceNumber) + Le32(s.ulSerialNumber)
    + PackWords(s.ausHwOptions)
  }

  /** Bytes 0x18 .. 0x2F: manufacturer and date, licences, device class, revisions. */
  function SystemInfoTail(s: SystemChannelSystemInfoBlock): (b: seq<Byte>)
    ensures |b| == 0x18
  {
    Le16(s.usManufacturer) + Le16(s.usProductionDate)
    + Le32(s.ulLicenseFlags1) + Le32(s.ulLicenseFlags2)
    + SystemInfoClass(s)
  }

  /** Bytes 0x24 .. 0x2F: licence id and flags, device class, revisions, reserved. */
  function SystemInfoClass(s: SystemChannelSystemInfoBlock): (b: seq<Byte>)
    ensures |b| == 0x0C
  {
    Le16(s.usNetxLicenseID) + Le16(s.usNetxLicenseFlags) + Le16(s.usDeviceClass)
    + [s.bHwRevision, s.bHwCompatibility, s.bDevIdNumber, s.bReserved] + Le16(s.usReserved)
  }

  /** The block read field by field at the offsets the C header documents. */
  function DecodeSystemInfo(b: seq<Byte>): SystemChannelSystemInfoBlock
    requires |b| >= SIZEOF_SYSTEM_INFO_BLOCK
  {
    SystemChannelSystemInfoBlock(
      b[0x00..0x04],
      ReadLe32(b, 0x04), ReadLe32(b, 0x08), ReadLe32(b, 0x0C),
      WordsAt(b, 0x10 / 2, 4),
      ReadLe16(b, 0x18), ReadLe16(b, 0x1A),
      ReadLe32(b, 0x1C), ReadLe32(b, 0x20),
      ReadLe16(b, 0x24), ReadLe16(b, 0x26), ReadLe16(b, 0x28),
      b[0x2A], b[0x2B], b[0x2C], b[0x2D],
      ReadLe16(b, 0x2E))
  }

  lemma SystemInfoHeadAt(s: SystemChannelSystemInfoBlock)
    ensures var b := EncodeSystemInfo(s);
      && b[0x00..0x04] == s.abCookie
      && ReadLe32(b, 0x04) == s.ulDpmTotalSize && ReadLe32(b, 0x08) == s.ulDeviceNumber
      && ReadLe32(b, 0x0C) == s.ulSerialNumber
      && WordsAt(b, 0x10 / 2, 4) == s.ausHwOptions
  {
    var b := EncodeSystemInfo(s);
    var h := SystemInfoHead(s);
    assert b[..0x18] == h;
    assert b[0x00..0x04] == h[0x00..0x04] == s.abCookie;
    assert b[0x04..0x08] == h[0x04..0x08] == Le32(s.ulDpmTotalSize);
    assert b[0x08..0x0C] == h[0x08..0x0C] == Le32(s.ulDeviceNumber);
    assert b[0x0C..0x10] == h[0x0C..0x10] == Le32(s.ulSerialNumber);
    ReadLe32Is(b, 0x04, s.ulDpmTotalSize);
    ReadLe32Is(b, 0x08, s.ulDeviceNumber);
    ReadLe32Is(b, 0x0C, s.ulSerialNumber);
    assert b[0x10..0x18] == h[0x10..0x18] == PackWords(s.ausHwOptions);
    PackedWordsAt(s.ausHwOptions, 0, 4);
    WordsAtPrefix(b[0x10..], PackWords(s.ausHwOptions), 8, 0, 4);
    forall k | 0 <= k < 4 ensures WordsAt(b, 0x10 / 2, 4)[k] == WordsAt(b[0x10..], 0, 4)[k] {
      assert b[2 * (8 + k)..2 * (8 + k) + 2] == b[0x10..][2 * k..2 * k + 2];
      WordsAtElem(b, 0x10 / 2, 4, k);
      WordsAtElem(b[0x10..], 0, 4, k);
    }
  }

  lemma SystemInfoTailAt(s: SystemChannelSystemInfoBlock)
    ensures var b := EncodeSystemInfo(s);
      && ReadLe16(b, 0x18) == s.usManufacturer && ReadLe16(b, 0x1A) == s.usProductionDate
      && ReadLe32(b, 0x1C) == s.ulLicenseFlags1 && ReadLe32(b, 0x20) == s.ulLicenseFlags2
  {
    var b := EncodeSystemInfo(s);
    var t := SystemInfoTail(s);
    assert b[0x18..] == t;
    assert b[0x18..0x1A] == t[0x00..0x02] == Le16(s.usManufacturer);
    assert b[0x1A..0x1C] == t[0x02..0x04] == Le16(s.usProductionDate);
    assert b[0x1C..0x20] == t[0x04..0x08] == Le32(s.ulLicenseFlags1);
    assert b[0x20..0x24] == t[0x08..0x0C] == Le32(s.ulLicenseFlags2);
    ReadLe16Is(b, 0x18, s.usManufacturer);
    ReadLe16Is(b, 0x1A, s.usProductionDate);
    ReadLe32Is(b, 0x1C, s.ulLicenseFlags1);
    ReadLe32Is(b, 0x20, s.ulLicenseFlags2);
  }

  lemma SystemInfoClassAt(s: SystemChannelSystemInfoBlock)
    ensures var b := EncodeSystemInfo(s);
      && ReadLe16(b, 0x24) == s.usNetxLicenseID && ReadLe16(b, 0x26) == s.usNetxLicenseFlags
      && ReadLe16(b, 0x28) == s.usDeviceClass
      && b[0x2A] == s.bHwRevision && b[0x2B] == s.bHwCompatibility
      && b[0x2C] == s.bDevIdNumber && b[0x2D] == s.bReserved
      && ReadLe16(b, 0x2E) == s.usReserved
  {
    var b := EncodeSystemInfo(s);
    var c := SystemInfoClass(s);
    assert b[0x18..] == SystemInfoTail(s);
    assert b[0x24..] == SystemInfoTail(s)[0x0C..] == c;
    assert b[0x24..0x26] == c[0x00..0x02] == Le16(s.usNetxLicenseID);
    assert b[0x26..0x28] == c[0x02..0x04] == Le16(s.usNetxLicenseFlags);
    assert b[0x28..0x2A] == c[0x04..0x06] == Le16(s.usDeviceClass);
    assert b[0x2E..0x30] == c[0x0A..0x0C] == Le16(s.usReserved);
    ReadLe16Is(b, 0x24, s.usNetxLicenseID);
    ReadLe16Is(b, 0x26, s.usNetxLicenseFlags);
    ReadLe16Is(b, 0x28, s.usDeviceClass);
    ReadLe16Is(b, 0x2E, s.usReserved);
    assert b[0x2A] == c[0x06] && b[0x2B] == c[0x07] && b[0x2C] == c[0x08] && b[0x2D] == c[0x09];
  }

  /** Laying the fields out one after another puts each at its documented offset. */
  lemma DecodeEncodeSystemInfo(s: SystemChannelSystemInfoBlock)
    ensures DecodeSystemInfo(EncodeSystemInfo(s)) == s
  {
    SystemInfoHeadAt(s);
    SystemInfoTailAt(s);
    SystemInfoClassAt(s);
  }
}
