/** The Python client's side of the UDP exchange (`VideoClient` in
    src/client/client2.py): the datagrams it packs with `struct.pack("!...")`
    (big-endian, no padding), the replies it unpacks, the bounded resend
    loop, and what it records about its own identity and jobs. The type tags
    are the client's own numbering. A Python exception is the `Raised`
    outcome of a call. */
module Client2 {
  import opened Common
  import opened Wire

  const SERVER_PORT: nat := 5555
  const HEARTBEAT_INTERVAL: nat := 15
  const UDP_RETRIES: nat := 3
  const UDP_TIMEOUT: nat := 3
  /** `recvfrom(1024)`: the longest datagram read; the rest is discarded. */
  const RECV_BUFSIZE: nat := 1024
  /** Message ids come from `random.randint(1, 1_000_000)`. */
  const MAX_MSG_ID: nat := 1000000

  const TAG_ID_REQ: byte := 1
  const TAG_ID_ACK: byte := 2
  const TAG_HEARTBEAT: byte := 2
  const TAG_JOB_REQ: byte := 3
  const TAG_UPLOAD_REQ: byte := 5
  const TAG_DOWNLOAD_REQ: byte := 6
  const TAG_JOB_RESULT: byte := 7

  /** How a Python call ends: with an exception, or returning a value. */
  datatype Call<T> = Raised | Returned(value: T)

  lemma Powers()
    ensures Pow256(1) == 256 && Pow256(2) == 65536
    ensures Pow256(4) == 4294967296 && Pow256(8) == 18446744073709551616
  {
  }

  predicate MsgIdOk(msgId: nat)
  {
    1 <= msgId <= MAX_MSG_ID
  }

  // ---------------------------------------------------------------------
  // `struct` items under "!"

  /** An unsigned `B`/`H`/`I`/`Q` item of `w` octets: reading it back gives
      the value. */
  function BE(v: nat, w: nat): (r: seq<byte>)
    requires v < Pow256(w)
    ensures |r| == w && DecodeBE(r) == v
  {
    DecodeEncodeBE(v, w);
    EncodeBE(v, w)
  }

  /** An `Ns` item: the bytes cut to `n`, or padded with NULs up to `n`. */
  function FixedBytes(s: seq<byte>, n: nat): (r: seq<byte>)
    ensures |r| == n
    ensures |s| >= n ==> r == s[..n]
    ensures |s| < n ==> r[..|s|] == s && forall i :: |s| <= i < n ==> r[i] == 0
  {
    if |s| >= n then s[..n] else s + Zeros(n - |s|)
  }

  /** `data and len(data) >= n`: a non-empty reply of at least `n` octets. */
  predicate HasAtLeast(data: Option<seq<byte>>, n: nat)
  {
    data.Some? && |data.value| > 0 && |data.value| >= n
  }

  /** Python's `data[i:j]` for `i <= len(data)`: the end is clamped to the
      length, so the slice never reads past the data. */
  function SliceFrom(d: seq<byte>, i: nat, j: nat): (r: seq<byte>)
    requires i <= |d|
    ensures |r| == Min(j, |d|) - i || (j < i && r == [])
    ensures i + |r| <= |d| && r == d[i..i + |r|]
    ensures j <= |d| && i <= j ==> |r| == j - i
  {
    if j < i then [] else d[i..Min(j, |d|)]
  }

  // ---------------------------------------------------------------------
  // Requests the client sends

  /** `struct.pack("!BI", 1, msg_id)`. */
  function IdRequest(msgId: nat): (r: seq<byte>)
    requires MsgIdOk(msgId)
    ensures |r| == 5 && r[0] == TAG_ID_REQ && DecodeBE(r[1..5]) == msgId
  {
    Powers();
    var m := BE(msgId, 4);
    assert ([TAG_ID_REQ] + m)[1..5] == m;
    [TAG_ID_REQ] + m
  }

  /** `struct.pack("!B16s", 2, client_id)`. */
  function Heartbeat(clientId: seq<byte>): (r: seq<byte>)
    ensures |r| == 17 && r[0] == TAG_HEARTBEAT && r[1..] == FixedBytes(clientId, 16)
  {
    [TAG_HEARTBEAT] + FixedBytes(clientId, 16)
  }

  /** The integer items of a job request are in range for `I`, `B`, `H`. */
  predicate JobRequestPackable(jobId: int, cmd: seq<byte>, fileCount: int)
  {
    0 <= jobId < 4294967296 && 0 <= fileCount < 256 && |cmd| < 65536
  }

  /** `struct.pack(f"!BI16sIBH{n}s", 3, msg_id, client_id, job_id,
      file_count, n, cmd)`; `struct.error` (None here) when an integer item
      is out of range. */
  function JobRequest(msgId: nat, clientId: seq<byte>, jobId: int, cmd: seq<byte>, fileCount: int)
    : (r: Option<seq<byte>>)
    requires MsgIdOk(msgId)
    ensures r.Some? <==> JobRequestPackable(jobId, cmd, fileCount)
    ensures r.Some? ==> |r.value| == 28 + |cmd|
  {
    Powers();
    if !JobRequestPackable(jobId, cmd, fileCount) then None
    else Some([TAG_JOB_REQ] + BE(msgId, 4) + FixedBytes(clientId, 16) + BE(jobId, 4)
              + [fileCount as byte] + BE(|cmd|, 2) + cmd)
  }

  /** Where each item of a job request sits: tag 3, message id at 1, client
      id at 5, job id at 21, file count at 25, `cmd_len` = the command's
      length at 26, and the command itself from 28 to the end. */
  lemma JobRequestFields(msgId: nat, clientId: seq<byte>, jobId: int, cmd: seq<byte>, fileCount: int)
    requires MsgIdOk(msgId) && JobRequest(msgId, clientId, jobId, cmd, fileCount).Some?
    ensures var r := JobRequest(msgId, clientId, jobId, cmd, fileCount).value;
      && r[0] == TAG_JOB_REQ && DecodeBE(r[1..5]) == msgId && r[5..21] == FixedBytes(clientId, 16)
      && DecodeBE(r[21..25]) == jobId && r[25] == fileCount && DecodeBE(r[26..28]) == |cmd|
      && r[28..] == cmd
  {
    Powers();
    var r := JobRequest(msgId, clientId, jobId, cmd, fileCount).value;
    var m, c, j, l := BE(msgId, 4), FixedBytes(clientId, 16), BE(jobId, 4), BE(|cmd|, 2);
    assert r == [TAG_JOB_REQ] + m + c + j + [fileCount as byte] + l + cmd;
    assert r[1..5] == m;
    assert r[5..21] == c;
    assert r[21..25] == j;
    assert r[26..28] == l;
    assert r[28..] == cmd;
  }

  /** The integer items of an upload request are in range for `I`, `Q`, `B`. */
  predicate UploadRequestPackable(jobId: int, fileSize: nat, name: seq<byte>)
  {
    0 <= jobId < 4294967296 && fileSize < 18446744073709551616 && |name| < 256
  }

  /** `struct.pack(f"!BI16sIQB{n}s", 5, msg_id, client_id, job_id,
      file_size, n, filename)`. */
  function UploadRequest(msgId: nat, clientId: seq<byte>, jobId: int, fileSize: nat, name: seq<byte>)
    : (r: Option<seq<byte>>)
    requires MsgIdOk(msgId)
    ensures r.Some? <==> UploadRequestPackable(jobId, fileSize, name)
    ensures r.Some? ==> |r.value| == 34 + |name|
  {
    Powers();
    if !UploadRequestPackable(jobId, fileSize, name) then None
    else Some([TAG_UPLOAD_REQ] + BE(msgId, 4) + FixedBytes(clientId, 16) + BE(jobId, 4)
              + BE(fileSize, 8) + [|name| as byte] + name)
  }

  /** Tag 5, message id at 1, client id at 5, job id at 21, the 8-octet
      file size at 25, the name length at 33 and the name from 34. */
  lemma UploadRequestFields(msgId: nat, clientId: seq<byte>, jobId: int, fileSize: nat, name: seq<byte>)
    requires MsgIdOk(msgId) && UploadRequest(msgId, clientId, jobId, fileSize, name).Some?
    ensures var r := UploadRequest(msgId, clientId, jobId, fileSize, name).value;
      && r[0] == TAG_UPLOAD_REQ && DecodeBE(r[1..5]) == msgId && r[5..21] == FixedBytes(clientId, 16)
      && DecodeBE(r[21..25]) == jobId && DecodeBE(r[25..33]) == fileSize && r[33] == |name|
      && r[34..] == name
  {
    Powers();
    var m, c, j, s := BE(msgId, 4), FixedBytes(clientId, 16), BE(jobId, 4), BE(fileSize, 8);
    UploadRequestSlices(TAG_UPLOAD_REQ, m, c, j, s, |name| as byte, name);
  }

  /** Where each packed item of an upload request lands. */
  lemma UploadRequestSlices(t: byte, m: seq<byte>, c: seq<byte>, j: seq<byte>, s: seq<byte>,
                            n: byte, name: seq<byte>)
    requires |m| == 4 && |c| == 16 && |j| == 4 && |s| == 8
    ensures var r := [t] + m + c + j + s + [n] + name;
      && r[0] == t && r[1..5] == m && r[5..21] == c && r[21..25] == j
      && r[25..33] == s && r[33] == n && r[34..] == name
  {
    var r := [t] + m + c + j + s + [n] + name;
    assert r[1..5] == m;
    assert r[5..21] == c;
    assert r[21..25] == j;
    assert r[25..33] == s;
    assert r[34..] == name;
  }

  predicate DownloadRequestPackable(jobId: int, name: seq<byte>)
  {
    0 <= jobId < 4294967296 && |name| < 256
  }

  /** `struct.pack(f"!BI16sI B{n}s", 6, msg_id, client_id, job_id, n,
      fname)`. */
  function DownloadRequest(msgId: nat, clientId: seq<byte>, jobId: int, name: seq<byte>)
    : (r: Option<seq<byte>>)
    requires MsgIdOk(msgId)
    ensures r.Some? <==> DownloadRequestPackable(jobId, name)
    ensures r.Some? ==> |r.value| == 26 + |name|
  {
    Powers();
    if !DownloadRequestPackable(jobId, name) then None
    else Some([TAG_DOWNLOAD_REQ] + BE(msgId, 4) + FixedBytes(clientId, 16) + BE(jobId, 4)
              + [|name| as byte] + name)
  }

  /** Tag 6, message id at 1, client id at 5, job id at 21, the name length
      at 25 and the name from 26. */
  lemma DownloadRequestFields(msgId: nat, clientId: seq<byte>, jobId: int, name: seq<byte>)
    requires MsgIdOk(msgId) && DownloadRequest(msgId, clientId, jobId, name).Some?
    ensures var r := DownloadRequest(msgId, clientId, jobId, name).value;
      && r[0] == TAG_DOWNLOAD_REQ && DecodeBE(r[1..5]) == msgId && r[5..21] == FixedBytes(clientId, 16)
      && DecodeBE(r[21..25]) == jobId && r[25] == |name| && r[26..] == name
  {
    Powers();
    var r := DownloadRequest(msgId, clientId, jobId, name).value;
    var m, c, j := BE(msgId, 4), FixedBytes(clientId, 16), BE(jobId, 4);
    assert r == [TAG_DOWNLOAD_REQ] + m + c + j + [|name| as byte] + name;
    assert r[1..5] == m;
    assert r[5..21] == c;
    assert r[21..25] == j;
    assert r[26..] == name;
  }

  // ---------------------------------------------------------------------
  // Replies the client reads

  /** `send_client_id_req`'s test: at least 21 octets with type 2; the id is
      octets 5 to 20. */
  function ParseIdAck(data: Option<seq<byte>>): (r: Option<seq<byte>>)
    ensures r.Some? <==> HasAtLeast(data, 21) && data.value[0] == TAG_ID_ACK
    ensures r.Some? ==> |r.value| == 16
  {
    if HasAtLeast(data, 21) && data.value[0] == TAG_ID_ACK then Some(data.value[5..21]) else None
  }

  /** The identity ack the client expects: type 2, a message id, the id. */
  function IdAck(msgId: nat, id: seq<byte>): (r: seq<byte>)
    requires msgId < Pow256(4) && |id| == 16
    ensures |r| == 21
  {
    [TAG_ID_ACK] + BE(msgId, 4) + id
  }

  /** An identity ack, whatever follows it, yields its id. */
  lemma IdAckRoundTrip(msgId: nat, id: seq<byte>, rest: seq<byte>)
    requires msgId < Pow256(4) && |id| == 16
    ensures ParseIdAck(Some(IdAck(msgId, id) + rest)) == Some(id)
  {
    var b := IdAck(msgId, id) + rest;
    assert b[5..21] == id;
  }

  /** An accepted reply starts with an identity ack for the id read. */
  lemma IdAckAccepted(data: Option<seq<byte>>)
    requires ParseIdAck(data).Some?
    ensures data.value[..21] == IdAck(DecodeBE(data.value[1..5]), ParseIdAck(data).value)
  {
    var d := data.value;
    EncodeDecodeBE(d[1..5]);
    assert d[..21] == [d[0]] + d[1..5] + d[5..21];
  }

  /** What `create_job` uses of its ack: the status and the message. */
  datatype JobAck = JobAck(status: byte, message: seq<byte>)

  /** `create_job`'s parse: at least 11 octets, `!BIIBB` from the front, and
      the message `data[11:11+msg_len]`. */
  function ParseJobAck(data: Option<seq<byte>>): (r: Option<JobAck>)
    ensures r.Some? <==> HasAtLeast(data, 11)
    ensures r.Some? ==> r.value.status == data.value[9]
    ensures r.Some? ==> (
      && |r.value.message| <= data.value[10] && 11 + |r.value.message| <= |data.value|
      && r.value.message == data.value[11..11 + |r.value.message|]
      && (|r.value.message| == data.value[10] as int || 11 + |r.value.message| == |data.value|))
  {
    if !HasAtLeast(data, 11) then None
    else
      var d := data.value;
      Some(JobAck(d[9], SliceFrom(d, 11, 11 + d[10] as int)))
  }

  /** A job ack as the client reads it: type, message id, job id, status,
      message length, message. */
  function JobAckReply(tag: byte, msgId: nat, jobId: nat, status: byte, msg: seq<byte>): (r: seq<byte>)
    requires msgId < Pow256(4) && jobId < Pow256(4) && |msg| < 256
    ensures |r| == 11 + |msg|
  {
    [tag] + BE(msgId, 4) + BE(jobId, 4) + [status] + [|msg| as byte] + msg
  }

  /** A job ack, whatever follows it, yields its status and exactly its
      message. */
  lemma JobAckRoundTrip(tag: byte, msgId: nat, jobId: nat, status: byte, msg: seq<byte>, rest: seq<byte>)
    requires msgId < Pow256(4) && jobId < Pow256(4) && |msg| < 256
    ensures ParseJobAck(Some(JobAckReply(tag, msgId, jobId, status, msg) + rest)) == Some(JobAck(status, msg))
  {
    var b := JobAckReply(tag, msgId, jobId, status, msg) + rest;
    assert b[9] == status && b[10] == |msg|;
    assert b[11..11 + |msg|] == msg;
  }

  /** The status, IP address and port of an upload or download ack, and the
      file name before them. */
  datatype TransferAck = TransferAck(ok: bool, server: Endpoint, name: seq<byte>)

  /** The ack parse of `send_upload_request` and `send_download_request` as
      written: the guard asks for 10 octets, but the seven status/ip/port
      octets are unpacked from offset `6 + name_len`, and `struct.unpack`
      raises when fewer than seven are there. */
  function ParseTransferAckAsWritten(data: Option<seq<byte>>): (r: Call<Option<TransferAck>>)
    ensures r.Raised? <==> HasAtLeast(data, 10) && |data.value| < 13 + data.value[5] as int
    ensures r == Returned(None) <==> !HasAtLeast(data, 10)
  {
    if !HasAtLeast(data, 10) then Returned(None)
    else
      var d := data.value;
      var off := 6 + d[5] as int;
      if |d| < off + 7 then Raised
      else Returned(Some(TransferAck(d[off] == 1, Endpoint(DecodeBE(d[off + 1..off + 5]), DecodeBE(d[off + 5..off + 7])),
                                     d[6..off])))
  }

  /** The parse with the guard the unpacking needs: the name and the seven
      octets after it must all be there, or the reply counts as no ack. */
  function ParseTransferAck(data: Option<seq<byte>>): (r: Option<TransferAck>)
    ensures r.Some? <==> HasAtLeast(data, 6) && |data.value| >= 13 + data.value[5] as int
    ensures r.Some? ==> |r.value.name| == data.value[5] && r.value.name == data.value[6..6 + data.value[5] as int]
    ensures r.Some? ==> (r.value.ok <==> data.value[6 + data.value[5] as int] == 1)
  {
    if !(HasAtLeast(data, 6) && |data.value| >= 13 + data.value[5] as int) then None
    else
      var d := data.value;
      var off := 6 + d[5] as int;
      Some(TransferAck(d[off] == 1, Endpoint(DecodeBE(d[off + 1..off + 5]), DecodeBE(d[off + 5..off + 7])), d[6..off]))
  }

  /** Ten zero octets pass the guard, declare an empty name, and leave only
      four octets where seven are unpacked. */
  lemma ShortAckRaises()
    ensures ParseTransferAckAsWritten(Some(Zeros(10))) == Raised
    ensures ParseTransferAck(Some(Zeros(10))) == None
  {
    assert Zeros(10)[5] == 0;
  }

  /** Where the code as written returns, the corrected parse returns the
      same; where it raises, the corrected parse reports no ack. */
  lemma TransferAckAgrees(data: Option<seq<byte>>)
    ensures ParseTransferAckAsWritten(data).Returned? ==> ParseTransferAckAsWritten(data).value == ParseTransferAck(data)
    ensures ParseTransferAckAsWritten(data).Raised? ==> ParseTransferAck(data) == None
  {
  }

  /** An upload or download ack as the client reads it: type, message id,
      name length, name, status, IPv4 address, port. */
  function TransferAckReply(tag: byte, msgId: nat, name: seq<byte>, status: byte, server: Endpoint): (r: seq<byte>)
    requires msgId < Pow256(4) && |name| < 256 && server.ip < Pow256(4) && server.port < Pow256(2)
    ensures |r| == 13 + |name|
  {
    [tag] + BE(msgId, 4) + [|name| as byte] + name + [status] + BE(server.ip, 4) + BE(server.port, 2)
  }

  /** A transfer ack, whatever follows it, yields its status, address and
      name. */
  lemma {:induction false} TransferAckRoundTrip(tag: byte, msgId: nat, name: seq<byte>, status: byte, server: Endpoint,
                                                rest: seq<byte>)
    requires msgId < Pow256(4) && |name| < 256 && server.ip < Pow256(4) && server.port < Pow256(2)
    ensures ParseTransferAck(Some(TransferAckReply(tag, msgId, name, status, server) + rest))
      == Some(TransferAck(status == 1, server, name))
  {
    var n := |name|;
    var a, b := BE(server.ip, 4), BE(server.port, 2);
    var e := [tag] + BE(msgId, 4) + [n as byte] + name + [status] + a + b;
    var d := e + rest;
    assert d[5] == n;
    assert d[6..6 + n] == name;
    assert d[6 + n] == status;
    assert d[7 + n..11 + n] == a;
    assert d[11 + n..13 + n] == b;
  }

  /** An accepted reply starts with a transfer ack for what was read. */
  lemma TransferAckAccepted(data: Option<seq<byte>>)
    requires ParseTransferAck(data).Some?
    ensures var d, a := data.value, ParseTransferAck(data).value;
      13 + |a.name| <= |d| && a.server.ip < Pow256(4) && a.server.port < Pow256(2)
      && d[..13 + |a.name|] == TransferAckReply(d[0], DecodeBE(d[1..5]), a.name, d[6 + |a.name|], a.server)
  {
    var d, a := data.value, ParseTransferAck(data).value;
    var n := |a.name|;
    EncodeDecodeBE(d[1..5]);
    EncodeDecodeBE(d[7 + n..11 + n]);
    EncodeDecodeBE(d[11 + n..13 + n]);
    assert d[..13 + n] == [d[0]] + d[1..5] + [d[5]] + d[6..6 + n] + [d[6 + n]] + d[7 + n..11 + n] + d[11 + n..13 + n];
  }

  /** A job result as the listener reports it. */
  datatype JobResult = JobResult(jobId: nat, status: byte, message: seq<byte>)

  /** `listen_for_results` as written: `data[0]` is read before the length
      test, so an empty datagram raises `IndexError`, which the loop does not
      catch; otherwise type 7 and at least 27 octets make a result. */
  function ParseJobResultAsWritten(d: seq<byte>): (r: Call<Option<JobResult>>)
    ensures r.Raised? <==> d == []
  {
    if d == [] then Raised
    else if d[0] == TAG_JOB_RESULT && |d| >= 27 then
      Returned(Some(JobResult(DecodeBE(d[21..25]), d[25], SliceFrom(d, 27, 27 + d[26] as int))))
    else Returned(None)
  }

  /** The listener's parse with an empty datagram ignored like any other
      datagram that is not a result. */
  function ParseJobResult(d: seq<byte>): (r: Option<JobResult>)
    ensures r.Some? <==> |d| >= 27 && d[0] == TAG_JOB_RESULT
    ensures r.Some? ==> r.value.jobId < Pow256(4) && r.value.status == d[25]
    ensures r.Some? ==> (
      && |r.value.message| <= d[26] && 27 + |r.value.message| <= |d|
      && r.value.message == d[27..27 + |r.value.message|]
      && (|r.value.message| == d[26] as int || 27 + |r.value.message| == |d|))
  {
    if |d| >= 27 && d[0] == TAG_JOB_RESULT then
      Some(JobResult(DecodeBE(d[21..25]), d[25], SliceFrom(d, 27, 27 + d[26] as int)))
    else None
  }

  lemma EmptyDatagramRaises()
    ensures ParseJobResultAsWritten([]) == Raised
    ensures ParseJobResult([]) == None
  {
  }

  lemma JobResultAgrees(d: seq<byte>)
    requires d != []
    ensures ParseJobResultAsWritten(d) == Returned(ParseJobResult(d))
  {
  }

  /** A job result as the listener reads it: type 7, message id, client id,
      job id, status, message length, message. */
  function JobResultReply(msgId: nat, clientId: seq<byte>, jobId: nat, status: byte, msg: seq<byte>): (r: seq<byte>)
    requires msgId < Pow256(4) && |clientId| == 16 && jobId < Pow256(4) && |msg| < 256
    ensures |r| == 27 + |msg|
  {
    [TAG_JOB_RESULT] + BE(msgId, 4) + clientId + BE(jobId, 4) + [status] + [|msg| as byte] + msg
  }

  /** A job result, whatever follows it, yields its job id, status and
      exactly its message. */
  lemma JobResultRoundTrip(msgId: nat, clientId: seq<byte>, jobId: nat, status: byte, msg: seq<byte>, rest: seq<byte>)
    requires msgId < Pow256(4) && |clientId| == 16 && jobId < Pow256(4) && |msg| < 256
    ensures ParseJobResult(JobResultReply(msgId, clientId, jobId, status, msg) + rest) == Some(JobResult(jobId, status, msg))
  {
    var j := BE(jobId, 4);
    var d := JobResultReply(msgId, clientId, jobId, status, msg) + rest;
    assert d[21..25] == j;
    assert d[25] == status && d[26] == |msg|;
    assert d[27..27 + |msg|] == msg;
  }

  // ---------------------------------------------------------------------
  // `send_with_retry`

  /** What one `recvfrom` after a send does: time out, deliver a datagram,
      or fail with another socket error. */
  datatype Recv = Timeout | Datagram(data: seq<byte>) | SocketError

  /** The reply `send_with_retry` returns and how many times it sent. */
  datatype Exchange = Exchange(reply: Option<seq<byte>>, sends: nat)

  /** The exchange once `i` attempts have timed out; `net[k]` is what the
      receive after send `k` does. */
  function RetryFrom(net: seq<Recv>, i: nat): (r: Exchange)
    requires i <= UDP_RETRIES <= |net|
    ensures i <= r.sends <= UDP_RETRIES && (i < UDP_RETRIES ==> i < r.sends)
    ensures forall k :: i <= k < r.sends - 1 ==> net[k].Timeout?
    ensures r.reply.Some? ==> net[r.sends - 1].Datagram? && r.reply.value == Truncate(net[r.sends - 1].data, RECV_BUFSIZE)
    ensures r.reply.None? && i < UDP_RETRIES ==> net[r.sends - 1].SocketError? || r.sends == UDP_RETRIES
    decreases UDP_RETRIES - i
  {
    if i == UDP_RETRIES then Exchange(None, i)
    else
      match net[i]
      case Timeout => RetryFrom(net, i + 1)
      case Datagram(d) => Exchange(Some(Truncate(d, RECV_BUFSIZE)), i + 1)
      case SocketError => Exchange(None, i + 1)
  }

  function Retry(net: seq<Recv>): (r: Exchange)
    requires UDP_RETRIES <= |net|
    ensures 1 <= r.sends <= UDP_RETRIES
  {
    RetryFrom(net, 0)
  }

  /** After `k` timeouts, the outcome of attempt `k` decides the exchange. */
  lemma {:induction false} RetryAfterTimeouts(net: seq<Recv>, i: nat, k: nat)
    requires i <= k < UDP_RETRIES <= |net|
    requires forall j :: i <= j < k ==> net[j] == Timeout
    ensures net[k].Datagram? ==> RetryFrom(net, i) == Exchange(Some(Truncate(net[k].data, RECV_BUFSIZE)), k + 1)
    ensures net[k].SocketError? ==> RetryFrom(net, i) == Exchange(None, k + 1)
    decreases k - i
  {
    if i < k {
      RetryAfterTimeouts(net, i + 1, k);
    }
  }

  /** Three timeouts in a row: no reply, after sending three times. */
  lemma AllTimeouts(net: seq<Recv>)
    requires UDP_RETRIES <= |net| && net[0] == Timeout && net[1] == Timeout && net[2] == Timeout
    ensures Retry(net) == Exchange(None, UDP_RETRIES)
  {
  }

  function Copies(p: seq<byte>, n: nat): (r: seq<seq<byte>>)
    ensures |r| == n && forall i :: 0 <= i < n ==> r[i] == p
  {
    if n == 0 then [] else Copies(p, n - 1) + [p]
  }

  /** `send_with_retry`: send the packet, wait for one reply; on a timeout
      send again, up to UDP_RETRIES times; on another error give up.
      `sent` is the datagrams that went out. */
  method SendWithRetry(packet: seq<byte>, net: seq<Recv>) returns (data: Option<seq<byte>>, sent: seq<seq<byte>>)
    requires UDP_RETRIES <= |net|
    ensures data == Retry(net).reply && sent == Copies(packet, Retry(net).sends)
  {
    sent := [];
    for attempt := 0 to UDP_RETRIES
      invariant sent == Copies(packet, attempt)
      invariant RetryFrom(net, attempt) == Retry(net)
    {
      sent := sent + [packet];
      match net[attempt]
      case Datagram(d) =>
        return Some(Truncate(d, RECV_BUFSIZE)), sent;
      case Timeout =>
      case SocketError =>
        return None, sent;
    }
    data := None;
  }

  // ---------------------------------------------------------------------
  // The client object

  datatype JobStatus = Pending | Done
  /** `self.jobs[job_id]`: `{"command": ..., "status": ...}`. */
  datatype JobEntry = JobEntry(command: seq<byte>, status: JobStatus)

  class VideoClient {
    const serverIp: string
    const serverPort: nat
    var clientId: Option<seq<byte>>
    var jobs: map<int, JobEntry>
    var running: bool

    constructor (serverIp: string, serverPort: nat)
      ensures this.serverIp == serverIp && this.serverPort == serverPort
      ensures clientId == None && jobs == map[] && running
    {
      this.serverIp := serverIp;
      this.serverPort := serverPort;
      clientId := None;
      jobs := map[];
      running := true;
    }

    /** `send_client_id_req`: ask for an id and keep the one an accepted ack
        carries. */
    method SendClientIdReq(msgId: nat, net: seq<Recv>) returns (ok: bool, sent: seq<seq<byte>>)
      requires MsgIdOk(msgId) && UDP_RETRIES <= |net|
      modifies this
      ensures sent == Copies(IdRequest(msgId), Retry(net).sends)
      ensures ok <==> ParseIdAck(Retry(net).reply).Some?
      ensures clientId == (if ok then ParseIdAck(Retry(net).reply) else old(clientId))
      ensures jobs == old(jobs) && running == old(running)
    {
      var data;
      data, sent := SendWithRetry(IdRequest(msgId), net);
      var id := ParseIdAck(data);
      if id.Some? {
        clientId := id;
        return true, sent;
      }
      ok := false;
    }

    /** `create_job`: without a client id, or with an item out of range,
        `struct.pack` raises before anything is sent. Otherwise the job is
        recorded as pending, under the job id the caller gave, exactly when
        an ack with status 1 comes back. */
    method CreateJob(jobId: int, command: seq<byte>, fileCount: int, msgId: nat, net: seq<Recv>)
      returns (r: Call<bool>, sent: seq<seq<byte>>)
      requires MsgIdOk(msgId) && UDP_RETRIES <= |net|
      modifies this
      ensures clientId.None? || !JobRequestPackable(jobId, command, fileCount) ==>
        r == Raised && sent == [] && jobs == old(jobs)
      ensures clientId.Some? && JobRequestPackable(jobId, command, fileCount) ==>
        var ack := ParseJobAck(Retry(net).reply);
        && sent == Copies(JobRequest(msgId, clientId.value, jobId, command, fileCount).value, Retry(net).sends)
        && r == Returned(ack.Some? && ack.value.status == 1)
        && jobs == if r == Returned(true) then old(jobs)[jobId := JobEntry(command, Pending)] else old(jobs)
      ensures clientId == old(clientId) && running == old(running)
    {
      if clientId.None? {
        return Raised, [];
      }
      var packet := JobRequest(msgId, clientId.value, jobId, command, fileCount);
      if packet.None? {
        return Raised, [];
      }
      var data;
      data, sent := SendWithRetry(packet.value, net);
      var ack := ParseJobAck(data);
      if ack.Some? && ack.value.status == 1 {
        jobs := jobs[jobId := JobEntry(command, Pending)];
        return Returned(true), sent;
      }
      r := Returned(false);
    }

    /** `send_upload_request` for a file of `fileSize` octets named `name`,
        with the corrected ack parse: (status == 1, server address) for an
        ack, (False, None) otherwise. */
    method SendUploadRequest(jobId: int, fileSize: nat, name: seq<byte>, msgId: nat, net: seq<Recv>)
      returns (r: Call<(bool, Option<Endpoint>)>, sent: seq<seq<byte>>)
      requires MsgIdOk(msgId) && UDP_RETRIES <= |net|
      ensures clientId.None? || !UploadRequestPackable(jobId, fileSize, name) ==> r == Raised && sent == []
      ensures clientId.Some? && UploadRequestPackable(jobId, fileSize, name) ==>
        var ack := ParseTransferAck(Retry(net).reply);
        && sent == Copies(UploadRequest(msgId, clientId.value, jobId, fileSize, name).value, Retry(net).sends)
        && r == Returned(if ack.Some? then (ack.value.ok, Some(ack.value.server)) else (false, None))
    {
      if clientId.None? {
        return Raised, [];
      }
      var packet := UploadRequest(msgId, clientId.value, jobId, fileSize, name);
      if packet.None? {
        return Raised, [];
      }
      var data;
      data, sent := SendWithRetry(packet.value, net);
      var ack := ParseTransferAck(data);
      if ack.Some? {
        return Returned((ack.value.ok, Some(ack.value.server))), sent;
      }
      r := Returned((false, None));
    }

    /** `send_download_request`: as the upload request, and also the file
        name the ack carries. */
    method SendDownloadRequest(jobId: int, name: seq<byte>, msgId: nat, net: seq<Recv>)
      returns (r: Call<(bool, Option<Endpoint>, Option<seq<byte>>)>, sent: seq<seq<byte>>)
      requires MsgIdOk(msgId) && UDP_RETRIES <= |net|
      ensures clientId.None? || !DownloadRequestPackable(jobId, name) ==> r == Raised && sent == []
      ensures clientId.Some? && DownloadRequestPackable(jobId, name) ==>
        var ack := ParseTransferAck(Retry(net).reply);
        && sent == Copies(DownloadRequest(msgId, clientId.value, jobId, name).value, Retry(net).sends)
        && r == Returned(if ack.Some? then (ack.value.ok, Some(ack.value.server), Some(ack.value.name))
                         else (false, None, None))
    {
      if clientId.None? {
        return Raised, [];
      }
      var packet := DownloadRequest(msgId, clientId.value, jobId, name);
      if packet.None? {
        return Raised, [];
      }
      var data;
      data, sent := SendWithRetry(packet.value, net);
      var ack := ParseTransferAck(data);
      if ack.Some? {
        return Returned((ack.value.ok, Some(ack.value.server), Some(ack.value.name))), sent;
      }
      r := Returned((false, None, None));
    }

    /** One pass of `listen_for_results` for datagram `d`: a result for a
        job the client knows marks it done; no job is added or dropped, and
        no other job changes. */
    method ReceiveResult(d: seq<byte>) returns (result: Option<JobResult>)
      modifies this
      ensures result == ParseJobResult(d)
      ensures jobs.Keys == old(jobs).Keys
      ensures forall k :: k in jobs ==>
        (jobs[k] == if result.Some? && k == result.value.jobId then old(jobs)[k].(status := Done) else old(jobs)[k])
      ensures clientId == old(clientId) && running == old(running)
    {
      result := ParseJobResult(d);
      if result.Some? && result.value.jobId in jobs {
        var k := result.value.jobId;
        jobs := jobs[k := jobs[k].(status := Done)];
      }
    }
  }
}
