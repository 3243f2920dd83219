/** The datagram messages of `src/common/protocol.h`: the type tags and the
    packed (`#pragma pack(1)`) record layouts, with a codec over them.
    The server copies these structs to and from the wire with `memcpy`, so
    multi-octet fields travel in the host's byte order; the codec therefore
    takes the byte order as a parameter. */
module Protocol {
  import opened Common
  import opened Wire

  const SERVER_PORT: nat := 5555
  const MAX_UPLOADS: nat := 10
  const HEARTBEAT_TIMEOUT: nat := 30
  const HEARTBEAT_INTERVAL: nat := 10
  const MAX_FILENAME_LEN: nat := 256
  const MAX_CMD_LEN: nat := 1024

  /** Result codes carried in acknowledgements: the `StatusCode` enum of
      `src/shared/protocol.h`, the header the server is built with. */
  const STATUS_OK: nat := 0
  const STATUS_ERROR: nat := 1
  const STATUS_INVALID_REQUEST: nat := 2
  const STATUS_JOB_EXISTS: nat := 3
  const STATUS_UPLOAD_LIMIT: nat := 4
  const STATUS_FILE_NOT_FOUND: nat := 5

  datatype MessageType =
    | ClientIdReqType | ClientIdAckType | HeartbeatType | JobReqType
    | JobAckType | UploadReqType | UploadAckType | JobResultType

  /** The enum starts at 1 and each later constant is one more. */
  function TypeCode(t: MessageType): nat
  {
    match t
    case ClientIdReqType => 1
    case ClientIdAckType => 2
    case HeartbeatType => 3
    case JobReqType => 4
    case JobAckType => 5
    case UploadReqType => 6
    case UploadAckType => 7
    case JobResultType => 8
  }

  function TypeFromCode(c: int): (r: Option<MessageType>)
    ensures r.Some? <==> 1 <= c <= 8
    ensures r.Some? ==> TypeCode(r.value) == c
  {
    if c == 1 then Some(ClientIdReqType)
    else if c == 2 then Some(ClientIdAckType)
    else if c == 3 then Some(HeartbeatType)
    else if c == 4 then Some(JobReqType)
    else if c == 5 then Some(JobAckType)
    else if c == 6 then Some(UploadReqType)
    else if c == 7 then Some(UploadAckType)
    else if c == 8 then Some(JobResultType)
    else None
  }

  /** Tags run from CLIENT_ID_REQ = 1 to JOB_RESULT = 8 with no gap, and
      distinct types have distinct tags. */
  lemma TypeCodesConsecutive(t: MessageType, u: MessageType)
    ensures 1 <= TypeCode(t) <= 8
    ensures TypeFromCode(TypeCode(t)) == Some(t)
    ensures TypeCode(t) == TypeCode(u) ==> t == u
  {
  }

  // ---------------------------------------------------------------------
  // Layouts, field by field in declaration order

  const U8: Field := Uint(1)
  const U16: Field := Uint(2)
  const U32: Field := Uint(4)
  const U64: Field := Uint(8)
  const ClientId: Field := Bytes(16)

  function LayoutOf(t: MessageType): Layout
  {
    match t
    // type, message_id
    case ClientIdReqType => [U8, U32]
    // type, message_id, client_id
    case ClientIdAckType => [U8, U32, ClientId]
    // type, client_id
    case HeartbeatType => [U8, ClientId]
    // type, message_id, client_id, job_id, file_count, cmd_len, job_command
    case JobReqType => [U8, U32, ClientId, U32, U8, U16, Bytes(MAX_CMD_LEN)]
    // type, message_id, job_id, status, msg_len, message
    case JobAckType => [U8, U32, U32, U8, U8, Bytes(MAX_CMD_LEN)]
    // type, message_id, client_id, job_id, file_size, name_len, filename
    case UploadReqType => [U8, U32, ClientId, U32, U64, U8, Bytes(MAX_FILENAME_LEN)]
    // type, message_id, name_len, file_name, status, ip_address, tcp_port
    case UploadAckType => [U8, U32, U8, Bytes(MAX_FILENAME_LEN), U8, U32, U16]
    // type, message_id, client_id, job_id, status, msg_len, message
    case JobResultType => [U8, U32, ClientId, U32, U8, U8, Bytes(MAX_CMD_LEN)]
  }

  lemma SizeCons(f: Field, l: Layout)
    ensures Size([f] + l) == Width(f) + Size(l)
  {
    assert ([f] + l)[1..] == l;
  }

  lemma OffsetCons(f: Field, l: Layout, i: nat)
    requires i < |l|
    ensures Offset([f] + l, i + 1) == Width(f) + Offset(l, i)
  {
    assert ([f] + l)[1..] == l;
  }

  /** Packing leaves no gaps: the identity messages are 5, 21 and 17 octets,
      with the client id at offset 5 in the ack and 1 in the heartbeat. */
  lemma IdentitySizes()
    ensures Size(LayoutOf(ClientIdReqType)) == 5
    ensures Size(LayoutOf(ClientIdAckType)) == 21 && Offset(LayoutOf(ClientIdAckType), 2) == 5
    ensures Size(LayoutOf(HeartbeatType)) == 17 && Offset(LayoutOf(HeartbeatType), 1) == 1
  {
    SizeCons(U32, []);
    SizeCons(U8, [U32]);
    SizeCons(ClientId, []);
    SizeCons(U32, [ClientId]);
    SizeCons(U8, [U32, ClientId]);
    OffsetCons(U32, [ClientId], 0);
    OffsetCons(U8, [U32, ClientId], 1);
    SizeCons(U8, [ClientId]);
    OffsetCons(U8, [ClientId], 0);
  }

  /** The job request has a 28-octet fixed header, whose last field is the
      two-octet `cmd_len` at offset 26, then a fixed 1024-octet command. */
  lemma JobReqSize()
    ensures Offset(LayoutOf(JobReqType), 6) == 28 && Size(LayoutOf(JobReqType)) == 28 + MAX_CMD_LEN
    ensures Offset(LayoutOf(JobReqType), 5) == 26 && LayoutOf(JobReqType)[5] == Uint(2)
  {
    JobReqTotal();
    JobReqCommandOffset();
    JobReqLengthOffset();
  }

  lemma JobReqTotal()
    ensures Size(LayoutOf(JobReqType)) == 28 + MAX_CMD_LEN
  {
    var cmd := Bytes(MAX_CMD_LEN);
    SizeCons(cmd, []);
    SizeCons(U16, [cmd]);
    SizeCons(U8, [U16, cmd]);
    SizeCons(U32, [U8, U16, cmd]);
    SizeCons(ClientId, [U32, U8, U16, cmd]);
    SizeCons(U32, [ClientId, U32, U8, U16, cmd]);
    SizeCons(U8, [U32, ClientId, U32, U8, U16, cmd]);
  }

  lemma JobReqCommandOffset()
    ensures Offset(LayoutOf(JobReqType), 6) == 28
  {
    var cmd := Bytes(MAX_CMD_LEN);
    OffsetCons(U16, [cmd], 0);
    OffsetCons(U8, [U16, cmd], 1);
    OffsetCons(U32, [U8, U16, cmd], 2);
    OffsetCons(ClientId, [U32, U8, U16, cmd], 3);
    OffsetCons(U32, [ClientId, U32, U8, U16, cmd], 4);
    OffsetCons(U8, [U32, ClientId, U32, U8, U16, cmd], 5);
  }

  lemma JobReqLengthOffset()
    ensures Offset(LayoutOf(JobReqType), 5) == 26
  {
    var cmd := Bytes(MAX_CMD_LEN);
    OffsetCons(U8, [U16, cmd], 0);
    OffsetCons(U32, [U8, U16, cmd], 1);
    OffsetCons(ClientId, [U32, U8, U16, cmd], 2);
    OffsetCons(U32, [ClientId, U32, U8, U16, cmd], 3);
    OffsetCons(U8, [U32, ClientId, U32, U8, U16, cmd], 4);
  }

  /** The upload request is 34 fixed octets plus the 256-octet name field;
      the upload ack puts status after the name field, at offset 262. */
  lemma UploadSizes()
    ensures Size(LayoutOf(UploadReqType)) == 34 + MAX_FILENAME_LEN
    ensures Offset(LayoutOf(UploadAckType), 4) == 262 && Size(LayoutOf(UploadAckType)) == 269
  {
    UploadReqSize();
    UploadAckSize();
    UploadAckStatusOffset();
  }

  lemma UploadReqSize()
    ensures Size(LayoutOf(UploadReqType)) == 34 + MAX_FILENAME_LEN
  {
    var name := Bytes(MAX_FILENAME_LEN);
    SizeCons(name, []);
    SizeCons(U8, [name]);
    SizeCons(U64, [U8, name]);
    SizeCons(U32, [U64, U8, name]);
    SizeCons(ClientId, [U32, U64, U8, name]);
    SizeCons(U32, [ClientId, U32, U64, U8, name]);
    SizeCons(U8, [U32, ClientId, U32, U64, U8, name]);
  }

  lemma UploadAckSize()
    ensures Size(LayoutOf(UploadAckType)) == 269
  {
    var name := Bytes(MAX_FILENAME_LEN);
    SizeCons(U16, []);
    SizeCons(U32, [U16]);
    SizeCons(U8, [U32, U16]);
    SizeCons(name, [U8, U32, U16]);
    SizeCons(U8, [name, U8, U32, U16]);
    SizeCons(U32, [U8, name, U8, U32, U16]);
    SizeCons(U8, [U32, U8, name, U8, U32, U16]);
  }

  lemma UploadAckStatusOffset()
    ensures Offset(LayoutOf(UploadAckType), 4) == 262
  {
    var name := Bytes(MAX_FILENAME_LEN);
    OffsetCons(U8, [U32, U16], 0);
    OffsetCons(name, [U8, U32, U16], 1);
    OffsetCons(U8, [name, U8, U32, U16], 2);
    OffsetCons(U32, [U8, name, U8, U32, U16], 3);
  }

  /** Job ack and job result: a one-octet `msg_len` next to a 1024-octet
      message field; the result's fixed part before the message is 27. */
  lemma MessageFieldSizes()
    ensures Size(LayoutOf(JobAckType)) == 11 + MAX_CMD_LEN && LayoutOf(JobAckType)[4] == Uint(1)
    ensures Offset(LayoutOf(JobResultType), 6) == 27 && Size(LayoutOf(JobResultType)) == 27 + MAX_CMD_LEN
    ensures LayoutOf(JobResultType)[5] == Uint(1)
  {
    JobAckSize();
    JobResultSize();
    JobResultMessageOffset();
  }

  lemma JobAckSize()
    ensures Size(LayoutOf(JobAckType)) == 11 + MAX_CMD_LEN
  {
    var msg := Bytes(MAX_CMD_LEN);
    SizeCons(msg, []);
    SizeCons(U8, [msg]);
    SizeCons(U8, [U8, msg]);
    SizeCons(U32, [U8, U8, msg]);
    SizeCons(U32, [U32, U8, U8, msg]);
    SizeCons(U8, [U32, U32, U8, U8, msg]);
  }

  lemma JobResultSize()
    ensures Size(LayoutOf(JobResultType)) == 27 + MAX_CMD_LEN
  {
    var msg := Bytes(MAX_CMD_LEN);
    SizeCons(msg, []);
    SizeCons(U8, [msg]);
    SizeCons(U8, [U8, msg]);
    SizeCons(U32, [U8, U8, msg]);
    SizeCons(ClientId, [U32, U8, U8, msg]);
    SizeCons(U32, [ClientId, U32, U8, U8, msg]);
    SizeCons(U8, [U32, ClientId, U32, U8, U8, msg]);
  }

  lemma JobResultMessageOffset()
    ensures Offset(LayoutOf(JobResultType), 6) == 27
  {
    var msg := Bytes(MAX_CMD_LEN);
    OffsetCons(U8, [msg], 0);
    OffsetCons(U8, [U8, msg], 1);
    OffsetCons(U32, [U8, U8, msg], 2);
    OffsetCons(ClientId, [U32, U8, U8, msg], 3);
    OffsetCons(U32, [ClientId, U32, U8, U8, msg], 4);
    OffsetCons(U8, [U32, ClientId, U32, U8, U8, msg], 5);
  }

  /** A one-octet length field can declare at most 255, one less than the
      256-octet name field it describes. */
  lemma NameLenBound(v: Value)
    requires FitsField(LayoutOf(UploadReqType)[5], v)
    ensures v.n <= 255 < MAX_FILENAME_LEN
  {
  }

  // ---------------------------------------------------------------------
  // Messages

  datatype Message =
    | ClientIdReq(messageId: nat)
    | ClientIdAck(messageId: nat, clientId: seq<byte>)
    | Heartbeat(clientId: seq<byte>)
    | JobReq(messageId: nat, clientId: seq<byte>, jobId: nat, fileCount: nat,
             cmdLen: nat, jobCommand: seq<byte>)
    | JobAck(messageId: nat, jobId: nat, status: nat, msgLen: nat, message: seq<byte>)
    | UploadReq(messageId: nat, clientId: seq<byte>, jobId: nat, fileSize: nat,
                nameLen: nat, filename: seq<byte>)
    | UploadAck(messageId: nat, nameLen: nat, fileName: seq<byte>, status: nat,
                ipAddress: nat, tcpPort: nat)
    | JobResult(messageId: nat, clientId: seq<byte>, jobId: nat, status: nat,
                msgLen: nat, message: seq<byte>)

  function KindOf(m: Message): MessageType
  {
    match m
    case ClientIdReq(_) => ClientIdReqType
    case ClientIdAck(_, _) => ClientIdAckType
    case Heartbeat(_) => HeartbeatType
    case JobReq(_, _, _, _, _, _) => JobReqType
    case JobAck(_, _, _, _, _) => JobAckType
    case UploadReq(_, _, _, _, _, _) => UploadReqType
    case UploadAck(_, _, _, _, _, _) => UploadAckType
    case JobResult(_, _, _, _, _, _) => JobResultType
  }

  /** The field values of a message in layout order, tag first. */
  function FieldsOf(m: Message): seq<Value>
  {
    var tag := UintVal(TypeCode(KindOf(m)));
    match m
    case ClientIdReq(mid) => [tag, UintVal(mid)]
    case ClientIdAck(mid, cid) => [tag, UintVal(mid), BytesVal(cid)]
    case Heartbeat(cid) => [tag, BytesVal(cid)]
    case JobReq(mid, cid, jid, fc, cl, cmd) =>
      [tag, UintVal(mid), BytesVal(cid), UintVal(jid), UintVal(fc), UintVal(cl), BytesVal(cmd)]
    case JobAck(mid, jid, st, ml, msg) =>
      [tag, UintVal(mid), UintVal(jid), UintVal(st), UintVal(ml), BytesVal(msg)]
    case UploadReq(mid, cid, jid, fs, nl, name) =>
      [tag, UintVal(mid), BytesVal(cid), UintVal(jid), UintVal(fs), UintVal(nl), BytesVal(name)]
    case UploadAck(mid, nl, name, st, ip, port) =>
      [tag, UintVal(mid), UintVal(nl), BytesVal(name), UintVal(st), UintVal(ip), UintVal(port)]
    case JobResult(mid, cid, jid, st, ml, msg) =>
      [tag, UintVal(mid), BytesVal(cid), UintVal(jid), UintVal(st), UintVal(ml), BytesVal(msg)]
  }

  /** Every field fits its declared width. */
  predicate WellFormed(m: Message)
  {
    Fits(LayoutOf(KindOf(m)), FieldsOf(m))
  }

  /** Rebuilds a message of type `t` from decoded field values. */
  function FromFields(t: MessageType, vs: seq<Value>): (m: Message)
    requires Fits(LayoutOf(t), vs)
  {
    match t
    case ClientIdReqType => ClientIdReq(vs[1].n)
    case ClientIdAckType => ClientIdAck(vs[1].n, vs[2].bytes)
    case HeartbeatType => Heartbeat(vs[1].bytes)
    case JobReqType => JobReq(vs[1].n, vs[2].bytes, vs[3].n, vs[4].n, vs[5].n, vs[6].bytes)
    case JobAckType => JobAck(vs[1].n, vs[2].n, vs[3].n, vs[4].n, vs[5].bytes)
    case UploadReqType => UploadReq(vs[1].n, vs[2].bytes, vs[3].n, vs[4].n, vs[5].n, vs[6].bytes)
    case UploadAckType => UploadAck(vs[1].n, vs[2].n, vs[3].bytes, vs[4].n, vs[5].n, vs[6].n)
    case JobResultType => JobResult(vs[1].n, vs[2].bytes, vs[3].n, vs[4].n, vs[5].n, vs[6].bytes)
  }

  function EncodeMessage(o: ByteOrder, m: Message): (r: seq<byte>)
    requires WellFormed(m)
    ensures |r| == Size(LayoutOf(KindOf(m)))
  {
    Encode(o, LayoutOf(KindOf(m)), FieldsOf(m))
  }

  /** Reads the type octet, then that type's layout. An empty buffer, an
      unknown tag or a buffer shorter than the layout is malformed. */
  function DecodeMessage(o: ByteOrder, b: seq<byte>): (r: Option<Message>)
    ensures r.Some? ==> |b| >= Size(LayoutOf(KindOf(r.value)))
    ensures r.Some? ==> b[0] == TypeCode(KindOf(r.value))
  {
    if |b| == 0 then None else
      match TypeFromCode(b[0])
      case None => None
      case Some(t) =>
        match Decode(o, LayoutOf(t), b)
        case None => None
        case Some(vs) =>
          var m := FromFields(t, vs);
          assert KindOf(m) == t;
          Some(m)
  }

  lemma FromFieldsOf(m: Message)
    requires WellFormed(m)
    ensures FromFields(KindOf(m), FieldsOf(m)) == m
  {
  }

  lemma OneOctet(o: ByteOrder, v: nat)
    requires v < 256
    ensures EncodeUint(o, v, 1) == [v]
  {
  }

  /** Every layout opens with the one-octet type field, holding the tag. */
  lemma TagField(m: Message)
    ensures |LayoutOf(KindOf(m))| > 0 && LayoutOf(KindOf(m))[0] == U8
    ensures |FieldsOf(m)| > 0 && FieldsOf(m)[0] == UintVal(TypeCode(KindOf(m)))
  {
  }

  lemma FirstOctet(o: ByteOrder, l: Layout, vs: seq<Value>, c: nat)
    requires Fits(l, vs) && |l| > 0 && l[0] == U8 && vs[0] == UintVal(c) && c < 256
    ensures Encode(o, l, vs)[0] == c
  {
    OneOctet(o, c);
    assert Encode(o, l, vs) == [c] + Encode(o, l[1..], vs[1..]);
  }

  /** The tag octet of an encoding is the message's type code. */
  lemma EncodedTag(o: ByteOrder, m: Message)
    requires WellFormed(m)
    ensures |EncodeMessage(o, m)| > 0 && EncodeMessage(o, m)[0] == TypeCode(KindOf(m))
  {
    TagField(m);
    FirstOctet(o, LayoutOf(KindOf(m)), FieldsOf(m), TypeCode(KindOf(m)));
  }

  /** A buffer whose tag names `t` and whose octets decode under `t`'s
      layout decodes to the message rebuilt from those fields. */
  lemma DecodeAs(o: ByteOrder, t: MessageType, vs: seq<Value>, b: seq<byte>)
    requires |b| > 0 && b[0] == TypeCode(t)
    requires Decode(o, LayoutOf(t), b) == Some(vs)
    ensures Fits(LayoutOf(t), vs)
    ensures DecodeMessage(o, b) == Some(FromFields(t, vs))
  {
    TypeCodesConsecutive(t, t);
  }

  /** Decoding an encoded message gives it back, whatever trails it. */
  lemma MessageRoundTrip(o: ByteOrder, m: Message, rest: seq<byte>)
    requires WellFormed(m)
    ensures DecodeMessage(o, EncodeMessage(o, m) + rest) == Some(m)
  {
    var e := EncodeMessage(o, m);
    EncodedTag(o, m);
    assert (e + rest)[0] == e[0];
    DecodeEncode(o, LayoutOf(KindOf(m)), FieldsOf(m), rest);
    DecodeAs(o, KindOf(m), FieldsOf(m), e + rest);
    FromFieldsOf(m);
  }

  /** Cutting a message anywhere before its end makes it malformed. */
  lemma TruncatedIsMalformed(o: ByteOrder, m: Message, k: nat)
    requires WellFormed(m) && k < Size(LayoutOf(KindOf(m)))
    ensures DecodeMessage(o, EncodeMessage(o, m)[..k]) == None
  {
    var b := EncodeMessage(o, m)[..k];
    if |b| > 0 {
      EncodedTag(o, m);
      assert b[0] == TypeCode(KindOf(m));
      assert TypeFromCode(b[0]) == Some(KindOf(m));
    }
  }

  /** Field values that fit a layout and carry its type's tag are the
      fields of the message rebuilt from them. */
  lemma FieldsOfFromFields(t: MessageType, vs: seq<Value>)
    requires Fits(LayoutOf(t), vs) && vs[0] == UintVal(TypeCode(t))
    ensures KindOf(FromFields(t, vs)) == t && FieldsOf(FromFields(t, vs)) == vs
  {
    var l := LayoutOf(t);
    assert forall i :: 0 <= i < |l| ==> FitsField(l[i], vs[i]);
  }

  /** A buffer that decodes is, up to the end of its layout, exactly the
      encoding of the message read from it. */
  lemma MessageReencodes(o: ByteOrder, b: seq<byte>)
    requires DecodeMessage(o, b).Some?
    ensures WellFormed(DecodeMessage(o, b).value)
    ensures EncodeMessage(o, DecodeMessage(o, b).value) == b[..Size(LayoutOf(KindOf(DecodeMessage(o, b).value)))]
  {
    var m := DecodeMessage(o, b).value;
    var t := KindOf(m);
    var l := LayoutOf(t);
    assert TypeFromCode(b[0]) == Some(t);
    var vs := Decode(o, l, b).value;
    assert m == FromFields(t, vs);
    EncodeDecode(o, l, b);
    assert FitsField(l[0], vs[0]);
    FirstOctet(o, l, vs, vs[0].n);
    FieldsOfFromFields(t, vs);
  }
}
