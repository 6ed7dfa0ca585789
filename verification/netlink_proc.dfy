/** The proc-connector wire format: little-endian words, two framing layers, and the control frame. */
module NetlinkProc {
  import opened Wrappers

  newtype byte = x: int | 0 <= x < 256
  type Bytes = seq<byte>

  newtype u16 = x: int | 0 <= x < 0x1_0000
  newtype u32 = x: int | 0 <= x < 0x1_0000_0000

  const CN_IDX_PROC: u32 := 1
  const CN_VAL_PROC: u32 := 1
  const PROC_EVENT_EXEC_RAW: u32 := 2
  const PROC_CN_MCAST_LISTEN: u32 := 1
  const CN_MSG_HEADER_LEN: nat := 20
  const PROC_EVENT_HEADER_LEN: nat := 16
  const PROC_EVENT_EXEC_PAYLOAD_LEN: nat := 8
  const NLMSGHDR_LEN: nat := 16
  const NLMSG_DONE: u16 := 3
  const RECV_BUF_LEN: nat := 4096

  datatype ProcEvent = Exec(pid: u32, tgid: u32) | Other(what: u32)

  datatype NetlinkError = Truncated(expected: nat, actual: nat) | InvalidId(idx: u32, val: u32)

  // ---------------------------------------------------------------------------------------------
  // Little-endian words
  // ---------------------------------------------------------------------------------------------

  function ToLe16(v: u16): (b: Bytes)
    ensures |b| == 2
  {
    [(v % 256) as byte, (v / 256) as byte]
  }

  function FromLe16(b: Bytes): u16
    requires |b| == 2
  {
    b[0] as u16 + b[1] as u16 * 256
  }

  function ToLe32(v: u32): (b: Bytes)
    ensures |b| == 4
  {
    ToLe16((v % 0x1_0000) as u16) + ToLe16((v / 0x1_0000) as u16)
  }

  function FromLe32(b: Bytes): u32
    requires |b| == 4
  {
    FromLe16(b[..2]) as u32 + FromLe16(b[2..]) as u32 * 0x1_0000
  }

  lemma BytesRejoin(low: int, high: int)
    requires 0 <= low < 256
    ensures (low + high * 256) % 256 == low && (low + high * 256) / 256 == high
  {
  }

  lemma Le16RoundTrip(v: u16, b: Bytes)
    requires |b| == 2
    ensures FromLe16(ToLe16(v)) == v
    ensures ToLe16(FromLe16(b)) == b
  {
    BytesRejoin(b[0] as int, b[1] as int);
  }

  lemma WordRejoins(low: int, high: int)
    requires 0 <= low < 0x1_0000
    ensures (low + high * 0x1_0000) % 0x1_0000 == low && (low + high * 0x1_0000) / 0x1_0000 == high
  {
  }

  /** The two halves of a word. */
  lemma HalvesRejoin(v: u32, low: u16, high: u16)
    ensures (v % 0x1_0000) as int + (v / 0x1_0000) as int * 0x1_0000 == v as int
    ensures v as int == low as int + high as int * 0x1_0000 ==>
              (v % 0x1_0000) as int == low as int && (v / 0x1_0000) as int == high as int
  {
    WordRejoins(low as int, high as int);
  }

  /** Every 32-bit word survives the wire, and every four bytes are the wire form of one word. */
  lemma Le32RoundTrip(v: u32, b: Bytes)
    requires |b| == 4
    ensures FromLe32(ToLe32(v)) == v
    ensures ToLe32(FromLe32(b)) == b
  {
    WordSurvives(v);
    BytesSurvive(b);
  }

  lemma WordSurvives(v: u32)
    ensures FromLe32(ToLe32(v)) == v
  {
    hide FromLe16;
    hide ToLe16;
    var low, high := (v % 0x1_0000) as u16, (v / 0x1_0000) as u16;
    Le16RoundTrip(low, ToLe16(low));
    Le16RoundTrip(high, ToLe16(high));
    assert ToLe32(v)[..2] == ToLe16(low) && ToLe32(v)[2..] == ToLe16(high);
    HalvesRejoin(v, low, high);
  }

  lemma BytesSurvive(b: Bytes)
    requires |b| == 4
    ensures ToLe32(FromLe32(b)) == b
  {
    hide FromLe16;
    hide ToLe16;
    Le16RoundTrip(0, b[..2]);
    Le16RoundTrip(0, b[2..]);
    HalvesRejoin(FromLe32(b), FromLe16(b[..2]), FromLe16(b[2..]));
    assert b == b[..2] + b[2..];
  }

  // ---------------------------------------------------------------------------------------------
  // The parsers
  // ---------------------------------------------------------------------------------------------

  function ParseCnMsg(bytes: Bytes): Result<Bytes, NetlinkError> {
    if |bytes| < CN_MSG_HEADER_LEN then Err(Truncated(CN_MSG_HEADER_LEN, |bytes|))
    else
      var idx, val := FromLe32(bytes[0..4]), FromLe32(bytes[4..8]);
      if idx != CN_IDX_PROC || val != CN_VAL_PROC then Err(InvalidId(idx, val))
      else
        var needed := CN_MSG_HEADER_LEN + FromLe16(bytes[16..18]) as nat;
        if |bytes| < needed then Err(Truncated(needed, |bytes|))
        else Ok(bytes[CN_MSG_HEADER_LEN..needed])
  }

  function ParseProcEvent(bytes: Bytes): Result<ProcEvent, NetlinkError> {
    if |bytes| < PROC_EVENT_HEADER_LEN then Err(Truncated(PROC_EVENT_HEADER_LEN, |bytes|))
    else
      var what := FromLe32(bytes[0..4]);
      if what != PROC_EVENT_EXEC_RAW then Ok(Other(what))
      else
        var execEnd := PROC_EVENT_HEADER_LEN + PROC_EVENT_EXEC_PAYLOAD_LEN;
        if |bytes| < execEnd then Err(Truncated(execEnd, |bytes|))
        else Ok(Exec(FromLe32(bytes[16..20]), FromLe32(bytes[20..24])))
  }

  /** What the subscriber makes of one datagram; a frame it cannot parse is dropped. */
  function NextEvent(datagram: Bytes): Option<ProcEvent> {
    if |datagram| < NLMSGHDR_LEN then None
    else
      match ParseCnMsg(datagram[NLMSGHDR_LEN..])
      case Err(_) => None
      case Ok(payload) =>
        match ParseProcEvent(payload)
        case Ok(event) => Some(event)
        case Err(_) => None
  }

  // ---------------------------------------------------------------------------------------------
  // The encodings
  // ---------------------------------------------------------------------------------------------

  /** A connector message: id, sequence and acknowledgement words, length, flags, payload. */
  function CnMsg(idx: u32, val: u32, seqAck: Bytes, len: u16, flags: Bytes, rest: Bytes): Bytes {
    ToLe32(idx) + ToLe32(val) + seqAck + ToLe16(len) + flags + rest
  }

  /** A process event: its kind, the ignored processor number and timestamp, and what follows. */
  function ProcEventBytes(what: u32, ignored: Bytes, rest: Bytes): Bytes {
    ToLe32(what) + ignored + rest
  }

  function NlMsgHdr(totalLen: u32, ty: u16, ignored: Bytes): Bytes {
    ToLe32(totalLen) + ToLe16(ty) + ignored
  }

  lemma CnMsgFields(idx: u32, val: u32, seqAck: Bytes, len: u16, flags: Bytes, rest: Bytes, m: Bytes)
    requires |seqAck| == 8 && |flags| == 2 && m == CnMsg(idx, val, seqAck, len, flags, rest)
    ensures |m| == CN_MSG_HEADER_LEN + |rest| && m[CN_MSG_HEADER_LEN..] == rest
    ensures FromLe32(m[0..4]) == idx && FromLe32(m[4..8]) == val && FromLe16(m[16..18]) == len
  {
    assert m[0..4] == ToLe32(idx) && m[4..8] == ToLe32(val) && m[16..18] == ToLe16(len);
    Le32RoundTrip(idx, m[0..4]);
    Le32RoundTrip(val, m[4..8]);
    Le16RoundTrip(len, m[16..18]);
  }

  /** Any payload of up to 65535 bytes parses back out of its frame, whatever follows it. */
  lemma FramedPayloadParsesBack(payload: Bytes, seqAck: Bytes, flags: Bytes, trailing: Bytes)
    requires |payload| < 0x1_0000 && |seqAck| == 8 && |flags| == 2
    ensures ParseCnMsg(CnMsg(CN_IDX_PROC, CN_VAL_PROC, seqAck, |payload| as u16, flags, payload + trailing))
         == Ok(payload)
  {
    var m := CnMsg(CN_IDX_PROC, CN_VAL_PROC, seqAck, |payload| as u16, flags, payload + trailing);
    CnMsgFields(CN_IDX_PROC, CN_VAL_PROC, seqAck, |payload| as u16, flags, payload + trailing, m);
    assert m[CN_MSG_HEADER_LEN..CN_MSG_HEADER_LEN + |payload|]
        == m[CN_MSG_HEADER_LEN..][..|payload|] == payload;
  }

  /** Conversely, whatever parses is such a frame: parsing loses nothing but what it skips. */
  lemma ParsedFrameIsFramed(bytes: Bytes, payload: Bytes)
    requires ParseCnMsg(bytes) == Ok(payload)
    ensures |payload| < 0x1_0000 && CN_MSG_HEADER_LEN + |payload| <= |bytes|
    ensures bytes == CnMsg(CN_IDX_PROC, CN_VAL_PROC, bytes[8..16], |payload| as u16, bytes[18..20],
                           payload + bytes[CN_MSG_HEADER_LEN + |payload|..])
  {
    Le32RoundTrip(CN_IDX_PROC, bytes[0..4]);
    Le32RoundTrip(CN_VAL_PROC, bytes[4..8]);
    Le16RoundTrip(0, bytes[16..18]);
    var tail := bytes[CN_MSG_HEADER_LEN + |payload|..];
    assert bytes[CN_MSG_HEADER_LEN..] == payload + tail;
    assert bytes == bytes[0..4] + bytes[4..8] + bytes[8..16] + bytes[16..18] + bytes[18..20]
                    + bytes[CN_MSG_HEADER_LEN..];
  }

  /** Why a frame is turned away is reported truthfully, and nothing else is turned away. */
  lemma CnMsgErrors(bytes: Bytes)
    ensures var idOk := |bytes| >= CN_MSG_HEADER_LEN && bytes[0..8] == ToLe32(CN_IDX_PROC) + ToLe32(CN_VAL_PROC);
            match ParseCnMsg(bytes)
            case Ok(_) => idOk
            case Err(Truncated(expected, actual)) =>
              && actual == |bytes| < expected
              && (expected == CN_MSG_HEADER_LEN
                  || (idOk && bytes[16..18] == ToLe16((expected - CN_MSG_HEADER_LEN) as u16)))
            case Err(InvalidId(idx, val)) =>
              !idOk && |bytes| >= CN_MSG_HEADER_LEN && bytes[0..8] == ToLe32(idx) + ToLe32(val)
  {
    if |bytes| >= CN_MSG_HEADER_LEN {
      Le32RoundTrip(CN_IDX_PROC, bytes[0..4]);
      Le32RoundTrip(CN_VAL_PROC, bytes[4..8]);
      Le16RoundTrip(0, bytes[16..18]);
      assert bytes[0..8] == bytes[0..4] + bytes[4..8];
      IdBytes(bytes);
    }
  }

  lemma IdBytes(bytes: Bytes)
    requires |bytes| >= 8
    ensures bytes[0..8] == ToLe32(CN_IDX_PROC) + ToLe32(CN_VAL_PROC) <==>
            FromLe32(bytes[0..4]) == CN_IDX_PROC && FromLe32(bytes[4..8]) == CN_VAL_PROC
  {
    var id := bytes[0..8];
    assert id[..4] == bytes[0..4] && id[4..] == bytes[4..8] && id == id[..4] + id[4..];
    Le32RoundTrip(CN_IDX_PROC, bytes[0..4]);
    Le32RoundTrip(CN_VAL_PROC, bytes[4..8]);
    var want := ToLe32(CN_IDX_PROC) + ToLe32(CN_VAL_PROC);
    assert want[..4] == ToLe32(CN_IDX_PROC) && want[4..] == ToLe32(CN_VAL_PROC);
  }

  lemma ProcEventFields(what: u32, ignored: Bytes, rest: Bytes, m: Bytes)
    requires |ignored| == 12 && m == ProcEventBytes(what, ignored, rest)
    ensures |m| == PROC_EVENT_HEADER_LEN + |rest| && m[PROC_EVENT_HEADER_LEN..] == rest
    ensures FromLe32(m[0..4]) == what
  {
    assert m[0..4] == ToLe32(what);
    Le32RoundTrip(what, m[0..4]);
  }

  /** Every 32-bit pid and tgid survives the event layer. */
  lemma ExecParsesBack(pid: u32, tgid: u32, ignored: Bytes, trailing: Bytes)
    requires |ignored| == 12
    ensures ParseProcEvent(ProcEventBytes(PROC_EVENT_EXEC_RAW, ignored, ToLe32(pid) + ToLe32(tgid) + trailing))
         == Ok(Exec(pid, tgid))
  {
    var rest := ToLe32(pid) + ToLe32(tgid) + trailing;
    var m := ProcEventBytes(PROC_EVENT_EXEC_RAW, ignored, rest);
    ProcEventFields(PROC_EVENT_EXEC_RAW, ignored, rest, m);
    assert m[16..20] == m[16..][..4] == ToLe32(pid);
    assert m[20..24] == m[16..][4..8] == ToLe32(tgid);
    Le32RoundTrip(pid, m[16..20]);
    Le32RoundTrip(tgid, m[20..24]);
  }

  /** Any other kind of event is reported with its raw kind, however short its payload. */
  lemma OtherParsesBack(what: u32, ignored: Bytes, rest: Bytes)
    requires |ignored| == 12 && what != PROC_EVENT_EXEC_RAW
    ensures ParseProcEvent(ProcEventBytes(what, ignored, rest)) == Ok(Other(what))
  {
    ProcEventFields(what, ignored, rest, ProcEventBytes(what, ignored, rest));
  }

  /** An event fails to parse exactly when it is shorter than its own kind needs. */
  lemma ProcEventErrors(bytes: Bytes)
    ensures ParseProcEvent(bytes).Err? <==>
            (|| |bytes| < PROC_EVENT_HEADER_LEN
             || (bytes[0..4] == ToLe32(PROC_EVENT_EXEC_RAW)
                 && |bytes| < PROC_EVENT_HEADER_LEN + PROC_EVENT_EXEC_PAYLOAD_LEN))
    ensures ParseProcEvent(bytes).Err? ==>
              && ParseProcEvent(bytes).error.Truncated? && ParseProcEvent(bytes).error.actual == |bytes|
              && |bytes| < ParseProcEvent(bytes).error.expected
  {
    if |bytes| >= PROC_EVENT_HEADER_LEN {
      Le32RoundTrip(PROC_EVENT_EXEC_RAW, bytes[0..4]);
    }
  }

  /** Through all three layers, with any trailing bytes: the subscriber sees the pid and tgid that were sent. */
  lemma ExecSurvivesTheWire(
      hdr: Bytes, seqAck: Bytes, flags: Bytes, ignored: Bytes, pid: u32, tgid: u32, trailing: Bytes)
    requires |hdr| == NLMSGHDR_LEN && |seqAck| == 8 && |flags| == 2 && |ignored| == 12
    ensures var event := ProcEventBytes(PROC_EVENT_EXEC_RAW, ignored, ToLe32(pid) + ToLe32(tgid) + []);
            |event| == 24
            && NextEvent(hdr + CnMsg(CN_IDX_PROC, CN_VAL_PROC, seqAck, 24, flags, event + trailing))
               == Some(Exec(pid, tgid))
  {
    var event := ProcEventBytes(PROC_EVENT_EXEC_RAW, ignored, ToLe32(pid) + ToLe32(tgid) + []);
    assert |event| == 24;
    ExecParsesBack(pid, tgid, ignored, []);
    FramedPayloadParsesBack(event, seqAck, flags, trailing);
    var frame := CnMsg(CN_IDX_PROC, CN_VAL_PROC, seqAck, 24, flags, event + trailing);
    assert (hdr + frame)[NLMSGHDR_LEN..] == frame;
  }

  // ---------------------------------------------------------------------------------------------
  // The datagram, byte by byte
  // ---------------------------------------------------------------------------------------------

  /** The little-endian word at a position. */
  function WordAt(d: Bytes, i: nat): nat
    requires i + 4 <= |d|
  {
    d[i] as nat + 256 * d[i + 1] as nat + 65_536 * d[i + 2] as nat + 16_777_216 * d[i + 3] as nat
  }

  lemma WordIs(d: Bytes, i: nat)
    requires i + 4 <= |d|
    ensures FromLe32(d[i..i + 4]) as nat == WordAt(d, i)
  {
    var w := d[i..i + 4];
    assert w[..2] == [d[i], d[i + 1]] && w[2..] == [d[i + 2], d[i + 3]];
  }

  /** A slice of a slice, and a word in it. */
  lemma WithinSlice(d: Bytes, m: Bytes, at: nat, end: nat, i: nat, j: nat)
    requires at <= end <= |d| && m == d[at..end] && i <= j <= |m|
    ensures m[i..j] == d[at + i..at + j]
    ensures j == i + 4 ==> WordAt(m, i) == WordAt(d, at + i)
  {
    assert forall k :: 0 <= k < |m| ==> m[k] == d[at + k];
    if j == i + 4 {
      assert m[i] == d[at + i] && m[i + 1] == d[at + (i + 1)];
      assert m[i + 2] == d[at + (i + 2)] && m[i + 3] == d[at + (i + 3)];
    }
  }

  /** A proc-connector frame of which `len` payload bytes have arrived, from byte 36 on. */
  predicate Frame(d: Bytes, len: nat) {
    && |d| >= 36 && WordAt(d, 16) == 1 && WordAt(d, 20) == 1
    && len == d[32] as nat + 256 * d[33] as nat && 36 + len <= |d|
  }

  lemma FrameIff(d: Bytes, len: nat)
    requires |d| >= 16
    ensures Frame(d, len) <==> ParseCnMsg(d[16..]).Ok? && |ParseCnMsg(d[16..]).value| == len
    ensures Frame(d, len) ==> ParseCnMsg(d[16..]) == Ok(d[36..36 + len])
  {
    var m := d[16..];
    if |m| >= 20 {
      WordIs(m, 0);
      WordIs(m, 4);
      WithinSlice(d, m, 16, |d|, 0, 4);
      WithinSlice(d, m, 16, |d|, 4, 8);
      WithinSlice(d, m, 16, |d|, 16, 18);
      assert m[16..18] == [d[32], d[33]];
      hide FromLe32;
      if 36 + len <= |d| {
        WithinSlice(d, m, 16, |d|, 20, 20 + len);
      }
    }
  }

  /**
   What the subscriber reports, off the raw bytes: an exec event exactly when the payload has at least 24
   bytes and begins with 2, any other kind exactly when it has at least 16, and nothing in all other cases.
   */
  lemma EventIff(d: Bytes, pid: u32, tgid: u32, what: u32)
    ensures NextEvent(d) == Some(Exec(pid, tgid)) <==>
            exists len :: && Frame(d, len) && len >= 24 && WordAt(d, 36) == 2
                          && WordAt(d, 52) == pid as nat && WordAt(d, 56) == tgid as nat
    ensures NextEvent(d) == Some(Other(what)) <==>
            exists len :: Frame(d, len) && len >= 16 && WordAt(d, 36) == what as nat != 2
  {
    if |d| >= 36 {
      var len := d[32] as nat + 256 * d[33] as nat;
      FrameIff(d, len);
      if Frame(d, len) {
        PayloadEvent(d, d[36..36 + len], len);
      } else {
        NoFrame(d, len);
      }
    }
  }

  lemma NoFrame(d: Bytes, len: nat)
    requires |d| >= 36 && len == d[32] as nat + 256 * d[33] as nat && !Frame(d, len)
    ensures NextEvent(d) == None
  {
    if ParseCnMsg(d[16..]).Ok? {
      FrameIff(d, |ParseCnMsg(d[16..]).value|);
    }
  }

  lemma PayloadEvent(d: Bytes, payload: Bytes, len: nat)
    requires Frame(d, len) && payload == d[36..36 + len]
    ensures ParseProcEvent(payload) ==
            if len < 16 then Err(Truncated(16, len))
            else if WordAt(d, 36) != 2 then Ok(Other(WordAt(d, 36) as u32))
            else if len < 24 then Err(Truncated(24, len))
            else Ok(Exec(WordAt(d, 52) as u32, WordAt(d, 56) as u32))
  {
    hide FromLe32;
    if len >= 16 {
      WordIs(payload, 0);
      WithinSlice(d, payload, 36, 36 + len, 0, 4);
    }
    if len >= 24 {
      WordIs(payload, 16);
      WordIs(payload, 20);
      WithinSlice(d, payload, 36, 36 + len, 16, 20);
      WithinSlice(d, payload, 36, 36 + len, 20, 24);
    }
    hide WordAt;
  }

  // ---------------------------------------------------------------------------------------------
  // The subscriber's control frame
  // ---------------------------------------------------------------------------------------------

  function Zeros(n: nat): Bytes {
    seq(n, _ => 0)
  }

  function ControlFrame(): Bytes {
    NlMsgHdr(40, NLMSG_DONE, Zeros(10))
    + CnMsg(CN_IDX_PROC, CN_VAL_PROC, Zeros(8), 4, Zeros(2), ToLe32(PROC_CN_MCAST_LISTEN))
  }

  /** The frame has been filled as far as `prefix`; the rest is still zero. */
  ghost predicate Filled(frame: Bytes, prefix: Bytes) {
    |prefix| <= |frame| && frame == prefix + Zeros(|frame| - |prefix|)
  }

  /** Copy a slice into an array in place. */
  method CopyFromSlice(frame: array<byte>, at: nat, bytes: Bytes)
    requires at + |bytes| <= frame.Length
    modifies frame
    ensures frame[..] == old(frame[..])[..at] + bytes + old(frame[..])[at + |bytes|..]
  {
    for i := 0 to |bytes|
      invariant frame[..at] == old(frame[..at])
      invariant frame[at..at + i] == bytes[..i]
      invariant frame[at + i..] == old(frame[at + i..])
    {
      frame[at + i] := bytes[i];
    }
  }

  lemma FilledFurther(before: Bytes, prefix: Bytes, gap: nat, bytes: Bytes, after: Bytes)
    requires Filled(before, prefix) && |prefix| + gap + |bytes| <= |before|
    requires after == before[..|prefix| + gap] + bytes + before[|prefix| + gap + |bytes|..]
    ensures Filled(after, prefix + Zeros(gap) + bytes)
  {
  }

  /** Copy the next field, `gap` bytes after the last one. */
  method Field(frame: array<byte>, ghost prefix: Bytes, gap: nat, at: nat, bytes: Bytes) returns (ghost longer: Bytes)
    requires Filled(frame[..], prefix) && at == |prefix| + gap && at + |bytes| <= frame.Length
    modifies frame
    ensures longer == prefix + Zeros(gap) + bytes && Filled(frame[..], longer)
  {
    ghost var before := frame[..];
    CopyFromSlice(frame, at, bytes);
    longer := prefix + Zeros(gap) + bytes;
    FilledFurther(before, prefix, gap, bytes, frame[..]);
  }

  method BuildControlFrame() returns (frame: array<byte>)
    ensures fresh(frame) && frame[..] == ControlFrame()
  {
    frame := new byte[NLMSGHDR_LEN + 20 + 4](_ => 0);
    assert Filled(frame[..], []);
    ghost var p := Field(frame, [], 0, 0, ToLe32(40));
    p := Field(frame, p, 0, 4, ToLe16(NLMSG_DONE));
    p := Field(frame, p, 10, NLMSGHDR_LEN, ToLe32(CN_IDX_PROC));
    p := Field(frame, p, 0, NLMSGHDR_LEN + 4, ToLe32(CN_VAL_PROC));
    p := Field(frame, p, 8, NLMSGHDR_LEN + 16, ToLe16(4));
    p := Field(frame, p, 2, NLMSGHDR_LEN + 20, ToLe32(PROC_CN_MCAST_LISTEN));
    ControlFrameIs(p, ToLe32(40), ToLe16(NLMSG_DONE), ToLe32(CN_IDX_PROC), ToLe32(CN_VAL_PROC), ToLe16(4),
                   ToLe32(PROC_CN_MCAST_LISTEN));
  }

  lemma ControlFrameIs(p: Bytes, a: Bytes, b: Bytes, c: Bytes, d: Bytes, e: Bytes, f: Bytes)
    requires p == [] + Zeros(0) + a + Zeros(0) + b + Zeros(10) + c + Zeros(0) + d + Zeros(8) + e + Zeros(2) + f
    ensures p == (a + b + Zeros(10)) + (c + d + Zeros(8) + e + Zeros(2) + f)
  {
  }

  /** The control frame is a connector message of its own stated length that carries the listen word. */
  lemma ControlFrameParses()
    ensures |ControlFrame()| == 40 && FromLe32(ControlFrame()[0..4]) == 40
    ensures ParseCnMsg(ControlFrame()[NLMSGHDR_LEN..]) == Ok(ToLe32(PROC_CN_MCAST_LISTEN))
  {
    var hdr := NlMsgHdr(40, NLMSG_DONE, Zeros(10));
    var msg := CnMsg(CN_IDX_PROC, CN_VAL_PROC, Zeros(8), 4, Zeros(2), ToLe32(PROC_CN_MCAST_LISTEN));
    assert ControlFrame()[0..4] == ToLe32(40) && ControlFrame()[NLMSGHDR_LEN..] == msg;
    Le32RoundTrip(40, ToLe32(40));
    FramedPayloadParsesBack(ToLe32(PROC_CN_MCAST_LISTEN), Zeros(8), Zeros(2), []);
    assert ToLe32(PROC_CN_MCAST_LISTEN) + [] == ToLe32(PROC_CN_MCAST_LISTEN);
  }

  lemma FrameFields()
    ensures ToLe32(40) == [40, 0, 0, 0] && ToLe32(1) == [1, 0, 0, 0] && ToLe16(3) == [3, 0] && ToLe16(4) == [4, 0]
    ensures Zeros(10) == [0, 0, 0, 0, 0, 0, 0, 0, 0, 0] && Zeros(8) == [0, 0, 0, 0, 0, 0, 0, 0] && Zeros(2) == [0, 0]
  {
  }

  /** The forty bytes that go out. */
  lemma ControlFrameBytes()
    ensures ControlFrame() ==
            [40, 0, 0, 0, 3, 0, 0, 0, 0, 0, 0, 0, 0, 0, 0, 0,
             1, 0, 0, 0, 1, 0, 0, 0, 0, 0, 0, 0, 0, 0, 0, 0, 4, 0, 0, 0, 1, 0, 0, 0]
  {
    FrameFields();
    hide ToLe32;
    hide ToLe16;
    hide Zeros;
  }

  // ---------------------------------------------------------------------------------------------
  // The receive buffer
  // ---------------------------------------------------------------------------------------------

  function Received(datagram: Bytes): Bytes {
    if |datagram| <= RECV_BUF_LEN then datagram else datagram[..RECV_BUF_LEN]
  }

  class Subscriber {
    const buf: array<byte>

    constructor ()
      ensures buf.Length == RECV_BUF_LEN && fresh(buf)
    {
      buf := new byte[RECV_BUF_LEN](_ => 0);
    }

    /** The event is that of the datagram just received: what older ones left in the buffer is never read. */
    method ReceiveEvent(datagram: Bytes) returns (event: Option<ProcEvent>)
      requires buf.Length == RECV_BUF_LEN
      modifies buf
      ensures event == NextEvent(Received(datagram))
      ensures |datagram| <= 4096 ==> event == NextEvent(datagram)
      ensures |datagram| > 4096 ==> event == NextEvent(datagram[..4096])
    {
      var n := |Received(datagram)|;
      CopyFromSlice(buf, 0, Received(datagram));
      assert buf[..n] == Received(datagram);
      if n < NLMSGHDR_LEN {
        return None;
      }
      assert buf[NLMSGHDR_LEN..n] == Received(datagram)[NLMSGHDR_LEN..];
      var payload := ParseCnMsg(buf[NLMSGHDR_LEN..n]);
      if payload.Err? {
        return None;
      }
      var parsed := ParseProcEvent(payload.value);
      return if parsed.Ok? then Some(parsed.value) else None;
    }
  }
}
