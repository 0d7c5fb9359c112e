/** The PayloadBuilder frame codec: encoders for the three frame kinds, the
    type/checksum classifier, and the fixed-offset header and body decoders.

    Frame layout (offsets from 0):
      0 type | 1 source id | 2 destination id | 3-4 transmission id, big-endian |
      5-10 date bytes | 11 data length | 12.. body | last: XOR of all earlier bytes
 */
module PayloadBuilder {
  import opened Bytes

  const MAX_PAYLOAD_SIZE: nat := 100
  const HEADER_SIZE: nat := 12
  /** Longest accepted custom text; the resulting frame of 12 + 86 + 1 bytes stays within 100. */
  const CUSTOM_TEXT_BUDGET: nat := MAX_PAYLOAD_SIZE - 14

  const GPS_TYPE: Byte := 0x01
  const P_MSG_TYPE: Byte := 0x02
  const C_MSG_TYPE: Byte := 0x03
  /** What the classifier answers for an empty frame or a checksum mismatch. */
  const UNKNOWN_TYPE: Byte := 101

  const GPS_FRAME_SIZE: nat := 21
  const P_MSG_FRAME_SIZE: nat := 14

  /** Year offset from 2000, month, day, hour, minute, second; read from the wall clock by the source. */
  type DateTime = s: seq<Byte> | |s| == 6 witness [0, 0, 0, 0, 0, 0]

  /** The in-memory bytes of a `float`; copied in native byte order and never interpreted. */
  type FloatBytes = s: seq<Byte> | |s| == 4 witness [0, 0, 0, 0]

  /** The builder's state: the configured identity and the size of the last frame it created. */
  datatype Builder = Builder(sourceId: Byte, destinationId: Byte, lastPayloadSize: nat)

  datatype GpsData = GpsData(longitude: FloatBytes, latitude: FloatBytes)
  datatype PMsgData = PMsgData(msgId: Byte)
  datatype CMsgData = CMsgData(message: seq<Byte>)

  datatype PayloadDetails = PayloadDetails(
    kind: Byte,
    sourceId: Byte,
    destinationId: Byte,
    transmissionId: Uint16,
    dateTime: DateTime,
    dataLength: Byte)

  /** A `create_*` call: the builder after the call and the frame returned (empty on rejection). */
  datatype Created = Created(builder: Builder, frame: seq<Byte>)

  /** One call to one of the three encoders, with the date bytes the clock supplied. */
  datatype Request =
    | GpsRequest(tid: Uint16, date: DateTime, longitude: FloatBytes, latitude: FloatBytes)
    | PMsgRequest(tid: Uint16, date: DateTime, msgId: Byte)
    | CMsgRequest(tid: Uint16, date: DateTime, message: seq<Byte>)
  {
    function Kind(): Byte
    {
      match this
      case GpsRequest(_, _, _, _) => GPS_TYPE
      case PMsgRequest(_, _, _) => P_MSG_TYPE
      case CMsgRequest(_, _, _) => C_MSG_TYPE
    }
  }

  /** A builder in static storage: identity zero-initialised, `lastPayloadSize = 0`. */
  function NewBuilder(): Builder
  {
    Builder(0, 0, 0)
  }

  function ConfigureDevice(b: Builder, src: Byte, dst: Byte): (r: Builder)
    ensures r.sourceId == src && r.destinationId == dst
    ensures r.lastPayloadSize == b.lastPayloadSize
  {
    b.(sourceId := src, destinationId := dst)
  }

  function GetLastPayloadSize(b: Builder): nat
  {
    b.lastPayloadSize
  }

  /** The 12 header bytes shared by all frame kinds. */
  function Header(kind: Byte, src: Byte, dst: Byte, tid: Uint16, date: DateTime, dataLength: Byte): seq<Byte>
  {
    [kind, src, dst, HighByte(tid), LowByte(tid)] + date + [dataLength]
  }

  /** Appends the checksum byte. */
  function Seal(data: seq<Byte>): seq<Byte>
  {
    data + [Xor(data)]
  }

  /** The checksum invariant: a non-empty frame whose last byte is the XOR of all earlier bytes. */
  predicate Sealed(frame: seq<Byte>)
  {
    |frame| > 0 && frame[|frame| - 1] == Xor(frame[..|frame| - 1])
  }

  lemma SealIsSealed(data: seq<Byte>)
    ensures Sealed(Seal(data)) && Seal(data)[..|data|] == data
  {
    assert Seal(data)[..|data|] == data;
  }

  function CreateGpsPayload(b: Builder, tid: Uint16, date: DateTime, longitude: FloatBytes, latitude: FloatBytes): (r: Created)
    ensures |r.frame| == GPS_FRAME_SIZE
    ensures r.frame[0] == GPS_TYPE && r.frame[11] == 8
    ensures r.frame[12..16] == longitude && r.frame[16..20] == latitude
    ensures Sealed(r.frame)
    ensures r.builder == b.(lastPayloadSize := GPS_FRAME_SIZE)
  {
    var data := Header(GPS_TYPE, b.sourceId, b.destinationId, tid, date, 8) + longitude + latitude;
    SealIsSealed(data);
    Created(b.(lastPayloadSize := |Seal(data)|), Seal(data))
  }

  function CreatePMsgPayload(b: Builder, tid: Uint16, date: DateTime, msgId: Byte): (r: Created)
    ensures |r.frame| == P_MSG_FRAME_SIZE
    ensures r.frame[0] == P_MSG_TYPE && r.frame[11] == 1 && r.frame[12] == msgId
    ensures Sealed(r.frame)
    ensures r.builder == b.(lastPayloadSize := P_MSG_FRAME_SIZE)
  {
    var data := Header(P_MSG_TYPE, b.sourceId, b.destinationId, tid, date, 1) + [msgId];
    SealIsSealed(data);
    Created(b.(lastPayloadSize := |Seal(data)|), Seal(data))
  }

  /** Rejects text longer than the budget with an empty frame and an untouched builder. */
  function CreateCMsgPayload(b: Builder, tid: Uint16, date: DateTime, msg: seq<Byte>): (r: Created)
    ensures r.frame == [] <==> |msg| > CUSTOM_TEXT_BUDGET
    ensures |msg| > CUSTOM_TEXT_BUDGET ==> r.builder == b
    ensures |msg| <= CUSTOM_TEXT_BUDGET ==>
      && |r.frame| == 13 + |msg|
      && r.frame[0] == C_MSG_TYPE
      && r.frame[11] as int == |msg|
      && r.frame[12..12 + |msg|] == msg
      && Sealed(r.frame)
      && r.builder == b.(lastPayloadSize := |r.frame|)
  {
    if |msg| > CUSTOM_TEXT_BUDGET then
      Created(b, [])
    else
      ByteOfSmall(|msg|);
      var data := Header(C_MSG_TYPE, b.sourceId, b.destinationId, tid, date, |msg| as Byte) + msg;
      SealIsSealed(data);
      Created(b.(lastPayloadSize := |Seal(data)|), Seal(data))
  }

  /** `identify_type_and_check_checksum`: the type byte of a sealed frame, 101 otherwise. */
  function IdentifyTypeAndCheckChecksum(payload: seq<Byte>): (kind: Byte)
    ensures Sealed(payload) ==> kind == payload[0]
    ensures !Sealed(payload) ==> kind == UNKNOWN_TYPE
  {
    if |payload| == 0 then UNKNOWN_TYPE
    else if Xor(payload[..|payload| - 1]) == payload[|payload| - 1] then payload[0]
    else UNKNOWN_TYPE
  }

  /** `get_payload_details`: reads offsets 0..11; re-encoding what it read gives back those 12 bytes. */
  function GetPayloadDetails(payload: seq<Byte>): (d: PayloadDetails)
    requires |payload| >= HEADER_SIZE
    ensures Header(d.kind, d.sourceId, d.destinationId, d.transmissionId, d.dateTime, d.dataLength)
            == payload[..HEADER_SIZE]
  {
    BigEndian16Split(payload[3], payload[4]);
    PayloadDetails(payload[0], payload[1], payload[2], BigEndian16(payload[3], payload[4]),
                   payload[5..11], payload[11])
  }

  /** The two 4-byte patterns that follow the header. */
  function DecodeGpsPayload(payload: seq<Byte>): (g: GpsData)
    requires |payload| >= 20
    ensures payload[..HEADER_SIZE] + g.longitude + g.latitude == payload[..20]
  {
    GpsData(payload[12..16], payload[16..20])
  }

  /** The one body byte after the header. */
  function DecodePMsgPayload(payload: seq<Byte>): (m: PMsgData)
    requires |payload| >= 13
    ensures payload[..HEADER_SIZE] + [m.msgId] == payload[..13]
  {
    PMsgData(payload[12])
  }

  /** Takes as many body bytes as the length byte at offset 11 announces. */
  function DecodeCMsgPayload(payload: seq<Byte>): (c: CMsgData)
    requires |payload| >= HEADER_SIZE && |payload| >= HEADER_SIZE + payload[11] as int
    ensures |c.message| == payload[11] as int
    ensures payload[..HEADER_SIZE] + c.message == payload[..HEADER_SIZE + payload[11] as int]
  {
    CMsgData(payload[HEADER_SIZE..HEADER_SIZE + payload[11] as int])
  }

  /** Reading a header back gives the values it was written from. */
  lemma DetailsOfHeader(kind: Byte, src: Byte, dst: Byte, tid: Uint16, date: DateTime, dataLength: Byte, rest: seq<Byte>)
    ensures GetPayloadDetails(Header(kind, src, dst, tid, date, dataLength) + rest)
            == PayloadDetails(kind, src, dst, tid, date, dataLength)
  {
    var p := Header(kind, src, dst, tid, date, dataLength) + rest;
    assert p[3] == HighByte(tid) && p[4] == LowByte(tid);
    BigEndian16RoundTrip(tid);
    assert p[5..11] == date;
  }

  /** The encoder dispatch used by the folds below. */
  function Create(b: Builder, req: Request): (r: Created)
    ensures |r.frame| <= MAX_PAYLOAD_SIZE
    ensures r.frame != [] ==> IdentifyTypeAndCheckChecksum(r.frame) == req.Kind()
    ensures r.frame == [] <==> req.CMsgRequest? && |req.message| > CUSTOM_TEXT_BUDGET
    ensures r.builder.sourceId == b.sourceId && r.builder.destinationId == b.destinationId
    ensures r.builder.lastPayloadSize == if r.frame == [] then b.lastPayloadSize else |r.frame|
  {
    match req
    case GpsRequest(tid, date, lon, lat) => CreateGpsPayload(b, tid, date, lon, lat)
    case PMsgRequest(tid, date, msgId) => CreatePMsgPayload(b, tid, date, msgId)
    case CMsgRequest(tid, date, msg) => CreateCMsgPayload(b, tid, date, msg)
  }

  /** Changing any single byte of a sealed frame, checksum byte included, makes it unknown. */
  lemma CorruptionDetected(frame: seq<Byte>, i: nat, v: Byte)
    requires Sealed(frame) && i < |frame| && v != frame[i]
    ensures IdentifyTypeAndCheckChecksum(frame[i := v]) == UNKNOWN_TYPE
  {
    var n := |frame| - 1;
    var bad := frame[i := v];
    if i == n {
      assert bad[..n] == frame[..n];
    } else {
      assert bad[..n] == frame[..n][i := v];
      XorUpdate(frame[..n], i, v);
    }
  }

  /** Header round trip: every created frame carries the configured identity,
      the transmission id, the date bytes and the data length. */
  lemma CreatedDetails(b: Builder, req: Request)
    requires Create(b, req).frame != []
    ensures var d := GetPayloadDetails(Create(b, req).frame);
      && d.kind == req.Kind()
      && d.sourceId == b.sourceId
      && d.destinationId == b.destinationId
      && d.transmissionId == req.tid
      && d.dateTime == req.date
      && d.dataLength as int == |Create(b, req).frame| - 13
  {
    match req
    case GpsRequest(tid, date, lon, lat) => GpsDetails(b, tid, date, lon, lat);
    case PMsgRequest(tid, date, msgId) => PMsgDetails(b, tid, date, msgId);
    case CMsgRequest(tid, date, msg) => CMsgDetails(b, tid, date, msg);
  }

  lemma GpsDetails(b: Builder, tid: Uint16, date: DateTime, longitude: FloatBytes, latitude: FloatBytes)
    ensures GetPayloadDetails(CreateGpsPayload(b, tid, date, longitude, latitude).frame)
            == PayloadDetails(GPS_TYPE, b.sourceId, b.destinationId, tid, date, 8)
  {
    var header := Header(GPS_TYPE, b.sourceId, b.destinationId, tid, date, 8);
    var rest := longitude + latitude + [Xor(header + longitude + latitude)];
    assert CreateGpsPayload(b, tid, date, longitude, latitude).frame == header + rest;
    DetailsOfHeader(GPS_TYPE, b.sourceId, b.destinationId, tid, date, 8, rest);
  }

  lemma PMsgDetails(b: Builder, tid: Uint16, date: DateTime, msgId: Byte)
    ensures GetPayloadDetails(CreatePMsgPayload(b, tid, date, msgId).frame)
            == PayloadDetails(P_MSG_TYPE, b.sourceId, b.destinationId, tid, date, 1)
  {
    var header := Header(P_MSG_TYPE, b.sourceId, b.destinationId, tid, date, 1);
    var rest := [msgId] + [Xor(header + [msgId])];
    assert CreatePMsgPayload(b, tid, date, msgId).frame == header + rest;
    DetailsOfHeader(P_MSG_TYPE, b.sourceId, b.destinationId, tid, date, 1, rest);
  }

  lemma CMsgDetails(b: Builder, tid: Uint16, date: DateTime, msg: seq<Byte>)
    requires |msg| <= CUSTOM_TEXT_BUDGET
    ensures var d := GetPayloadDetails(CreateCMsgPayload(b, tid, date, msg).frame);
      d == PayloadDetails(C_MSG_TYPE, b.sourceId, b.destinationId, tid, date, d.dataLength)
      && d.dataLength as int == |msg|
  {
    ByteOfSmall(|msg|);
    var len := |msg| as Byte;
    var header := Header(C_MSG_TYPE, b.sourceId, b.destinationId, tid, date, len);
    var rest := msg + [Xor(header + msg)];
    assert CreateCMsgPayload(b, tid, date, msg).frame == Seal(header + msg);
    assert Seal(header + msg) == header + rest;
    DetailsOfHeader(C_MSG_TYPE, b.sourceId, b.destinationId, tid, date, len, rest);
  }

  /** Body round trip: each decoder gives back exactly what its encoder was given. */
  lemma GpsRoundTrip(b: Builder, tid: Uint16, date: DateTime, longitude: FloatBytes, latitude: FloatBytes)
    ensures DecodeGpsPayload(CreateGpsPayload(b, tid, date, longitude, latitude).frame)
            == GpsData(longitude, latitude)
  {
  }

  lemma PMsgRoundTrip(b: Builder, tid: Uint16, date: DateTime, msgId: Byte)
    ensures DecodePMsgPayload(CreatePMsgPayload(b, tid, date, msgId).frame) == PMsgData(msgId)
  {
  }

  lemma CMsgRoundTrip(b: Builder, tid: Uint16, date: DateTime, msg: seq<Byte>)
    requires |msg| <= CUSTOM_TEXT_BUDGET
    ensures var f := CreateCMsgPayload(b, tid, date, msg).frame;
      |f| >= HEADER_SIZE + f[11] as int && DecodeCMsgPayload(f) == CMsgData(msg)
  {
  }

  /** Runs a sequence of encoder calls on one builder, collecting the returned frames. */
  function CreateAll(b: Builder, reqs: seq<Request>): Created
  {
    if |reqs| == 0 then Created(b, [])
    else
      var prev := CreateAll(b, reqs[..|reqs| - 1]);
      Create(prev.builder, reqs[|reqs| - 1])
  }

  /** Length of the last non-empty frame among the results of `reqs`, or `initial` if all were rejected. */
  function LastFrameSize(b: Builder, reqs: seq<Request>, initial: nat): nat
  {
    if |reqs| == 0 then initial
    else
      var f := Create(b, reqs[|reqs| - 1]).frame;
      if f != [] then |f| else LastFrameSize(b, reqs[..|reqs| - 1], initial)
  }

  /** `get_last_payload_size` after any run of encoder calls is the size of the last frame
      actually created, and the starting value when every call was rejected. */
  lemma {:induction false} LastPayloadSizeTracksLastFrame(b: Builder, reqs: seq<Request>)
    ensures var end := CreateAll(b, reqs).builder;
      && end.sourceId == b.sourceId && end.destinationId == b.destinationId
      && GetLastPayloadSize(end) == LastFrameSize(b, reqs, b.lastPayloadSize)
  {
    if |reqs| > 0 {
      var init := reqs[..|reqs| - 1];
      LastPayloadSizeTracksLastFrame(b, init);
      var prev := CreateAll(b, init).builder;
      var last := reqs[|reqs| - 1];
      assert Create(prev, last).frame == Create(b, last).frame by {
        FrameIgnoresSize(prev, b, last);
      }
    }
  }

  /** The frame depends on the builder's identity only. */
  lemma FrameIgnoresSize(b1: Builder, b2: Builder, req: Request)
    requires b1.sourceId == b2.sourceId && b1.destinationId == b2.destinationId
    ensures Create(b1, req).frame == Create(b2, req).frame
  {
  }

  /** A freshly configured builder reports 0 until some encoder call succeeds. */
  lemma FreshBuilderReportsZero(src: Byte, dst: Byte, reqs: seq<Request>)
    ensures GetLastPayloadSize(ConfigureDevice(NewBuilder(), src, dst)) == 0
    ensures GetLastPayloadSize(CreateAll(ConfigureDevice(NewBuilder(), src, dst), reqs).builder) == 0
            <==> forall k | 0 <= k < |reqs| :: reqs[k].CMsgRequest? && |reqs[k].message| > CUSTOM_TEXT_BUDGET
  {
    var b := ConfigureDevice(NewBuilder(), src, dst);
    LastPayloadSizeTracksLastFrame(b, reqs);
    LastFrameSizeZero(b, reqs);
  }

  lemma {:induction false} LastFrameSizeZero(b: Builder, reqs: seq<Request>)
    ensures LastFrameSize(b, reqs, 0) == 0
            <==> forall k | 0 <= k < |reqs| :: reqs[k].CMsgRequest? && |reqs[k].message| > CUSTOM_TEXT_BUDGET
  {
    if |reqs| > 0 {
      var init := reqs[..|reqs| - 1];
      LastFrameSizeZero(b, init);
      var f := Create(b, reqs[|reqs| - 1]).frame;
      if f == [] {
        assert forall k | 0 <= k < |init| :: init[k] == reqs[k];
      }
    }
  }
}
