/** File uploads and downloads on the server: the priority-ordered upload
    queue that `handle_upload_request` fills and the upload threads drain,
    `process_upload` receiving one file into its job directory, and
    `handle_download_request` answering a download and queueing it. */
module UploadHandler {
  import opened Common
  import opened Protocol
  import opened JobHandler

  /** Size of `process_upload`'s receive buffer. */
  const RECV_BUFFER_SIZE: nat := 4096
  /** Capacity `init_upload_handler` gives the upload queue. */
  const UPLOAD_QUEUE_INITIAL_CAPACITY: nat := 10
  /** The message tags for downloads in `src/shared/protocol.h`, after
      JOB_RESULT = 8. */
  const DOWNLOAD_REQ: nat := 9
  const DOWNLOAD_ACK: nat := 10
  /** `char file_path[512]` holds at most 511 characters. */
  const MAX_PATH_LEN: nat := 511

  /** A queued upload. The source also keeps `priority = 1.0 / file_size`;
      it is a function of `fileSize` and so is not stored here. */
  datatype UploadJob = UploadJob(clientId: seq<byte>, jobId: nat, filename: string,
                                 fileSize: nat, arrivalTime: int)

  /** `a.priority > b.priority` with `priority = 1.0 / file_size`. For
      sizes that are not negative, and `1.0 / 0` being positive infinity,
      the reciprocal is strictly larger exactly when the size is strictly
      smaller: smaller files go first. */
  predicate PriorityAbove(a: UploadJob, b: UploadJob)
  {
    a.fileSize < b.fileSize
  }

  /** No job is queued behind one of strictly lower priority. */
  ghost predicate Ordered(q: seq<UploadJob>)
  {
    forall i, j :: 0 <= i < j < |q| ==> !PriorityAbove(q[j], q[i])
  }

  /** Where `handle_upload_request`'s backward scan puts `x`: just after the
      last job (from the back) that `x` does not outrank. */
  function InsertPos(q: seq<UploadJob>, x: UploadJob): (k: nat)
    ensures k <= |q|
    ensures forall m :: k <= m < |q| ==> PriorityAbove(x, q[m])
    ensures k == 0 || !PriorityAbove(x, q[k - 1])
  {
    if q == [] then 0
    else if PriorityAbove(x, q[|q| - 1]) then InsertPos(q[..|q| - 1], x)
    else |q|
  }

  /** The queue after inserting `x` at `InsertPos`. */
  function Inserted(q: seq<UploadJob>, x: UploadJob): seq<UploadJob>
  {
    var k := InsertPos(q, x);
    q[..k] + [x] + q[k..]
  }

  /** The scan position only depends on the part of the queue before a tail
      that `x` outranks throughout. */
  lemma {:induction false} InsertPosPrefix(q: seq<UploadJob>, x: UploadJob, m: nat)
    requires m <= |q|
    requires forall j :: m <= j < |q| ==> PriorityAbove(x, q[j])
    ensures InsertPos(q, x) == InsertPos(q[..m], x)
    decreases |q| - m
  {
    if m < |q| {
      var init := q[..|q| - 1];
      assert forall j :: m <= j < |init| ==> init[j] == q[j];
      InsertPosPrefix(init, x, m);
      assert init[..m] == q[..m];
    } else {
      assert q[..m] == q;
    }
  }

  /** The scan stops at `k` when `x` outranks everything from `k` on but
      not the job just before `k`. */
  lemma InsertPosAt(q: seq<UploadJob>, x: UploadJob, k: nat)
    requires k <= |q|
    requires forall j :: k <= j < |q| ==> PriorityAbove(x, q[j])
    requires k == 0 || !PriorityAbove(x, q[k - 1])
    ensures InsertPos(q, x) == k
  {
    InsertPosPrefix(q, x, k);
    assert k == 0 || q[..k][k - 1] == q[k - 1];
  }

  lemma Spliced<T>(r: seq<T>, q: seq<T>, x: T, k: nat)
    requires k <= |q| && |r| == |q| + 1
    requires forall m :: 0 <= m < k ==> r[m] == q[m]
    requires r[k] == x
    requires forall m :: k < m < |r| ==> r[m] == q[m - 1]
    ensures r == q[..k] + [x] + q[k..]
  {
  }

  /** Inserting adds exactly `x`: the result is a permutation of the queue
      plus the new job. */
  lemma InsertedPermutation(q: seq<UploadJob>, x: UploadJob)
    ensures multiset(Inserted(q, x)) == multiset(q) + multiset{x}
    ensures |Inserted(q, x)| == |q| + 1
  {
    var k := InsertPos(q, x);
    assert q == q[..k] + q[k..];
  }

  /** Insertion keeps an ordered queue ordered, and among jobs of equal
      priority the new one goes last (first come, first served). */
  lemma InsertedOrdered(q: seq<UploadJob>, x: UploadJob)
    requires Ordered(q)
    ensures Ordered(Inserted(q, x))
    ensures forall m :: 0 <= m < InsertPos(q, x) ==> !PriorityAbove(x, q[m])
  {
    var k := InsertPos(q, x);
    var r := Inserted(q, x);
    assert forall m :: 0 <= m < k ==> r[m] == q[m];
    assert r[k] == x;
    assert forall m :: k < m < |r| ==> r[m] == q[m - 1];
    forall m | 0 <= m < k ensures !PriorityAbove(x, q[m]) {
      assert !PriorityAbove(q[k - 1], q[m]) || m == k - 1;
    }
  }

  /** Taking the front of an ordered queue serves a job no queued job
      outranks, and leaves the rest ordered. */
  lemma DequeuedOrdered(q: seq<UploadJob>)
    requires Ordered(q) && q != []
    ensures Ordered(q[1..])
    ensures forall m :: 0 <= m < |q| ==> !PriorityAbove(q[m], q[0])
  {
    forall i, j | 0 <= i < j < |q| - 1
      ensures !PriorityAbove(q[1..][j], q[1..][i])
    {
      assert q[1..][j] == q[j + 1] && q[1..][i] == q[i + 1];
    }
  }

  /** The path `process_upload` writes and `handle_download_request` looks
      up: the job directory, a slash and the file name, within 511
      characters. */
  function FilePath(clientId: seq<byte>, jobId: nat, filename: string): (r: string)
    requires |clientId| == 16 && jobId < Pow16(8)
    ensures |filename| <= MAX_FILENAME_LEN - 1 ==> r == JobDirPath(clientId, jobId) + "/" + filename
    ensures |r| <= MAX_PATH_LEN
  {
    Truncate(JobDirPath(clientId, jobId) + "/" + filename, MAX_PATH_LEN)
  }

  /** `strlen(filename)` stored in the `uint16_t name_len` of
      `src/shared/protocol.h`. */
  function NameLen(filename: string): (r: nat)
    ensures r < 0x1_0000 && r <= |filename|
    ensures |filename| < 0x1_0000 ==> r == |filename|
  {
    |filename| % 0x1_0000
  }

  // ---------------------------------------------------------------------
  // The upload queue

  /** `UploadQueue`: `size` jobs kept in priority order in an array of
      `capacity` slots. */
  class UploadQueue {
    var jobs: array<UploadJob>
    var size: int
    var capacity: int

    ghost predicate Valid()
      reads this
    {
      jobs.Length == capacity && 0 <= size <= capacity && capacity > 0
    }

    /** The queued jobs, next to be served first. */
    ghost function Queued(): seq<UploadJob>
      reads this, jobs
      requires Valid()
    {
      jobs[..size]
    }

    /** `init_upload_handler`'s queue: empty, room for ten. */
    constructor Init()
      ensures Valid() && fresh(jobs)
      ensures size == 0 && capacity == UPLOAD_QUEUE_INITIAL_CAPACITY && Queued() == []
    {
      jobs := new UploadJob[UPLOAD_QUEUE_INITIAL_CAPACITY](_ => UploadJob([], 0, "", 0, 0));
      size := 0;
      capacity := UPLOAD_QUEUE_INITIAL_CAPACITY;
    }

    /** The queue part of `handle_upload_request`: double a full array,
        then insert by priority. */
    method Enqueue(job: UploadJob)
      requires Valid()
      modifies this, jobs
      ensures Valid()
      ensures Queued() == Inserted(old(Queued()), job)
      ensures size == old(size) + 1
      ensures capacity == if old(size) == old(capacity) then 2 * old(capacity) else old(capacity)
    {
      if size == capacity {
        Grow();
      }
      Insert(job);
    }

    /** `capacity *= 2` and `realloc`: the same jobs in an array twice as
        large. */
    method Grow()
      requires Valid()
      modifies this
      ensures Valid() && fresh(jobs)
      ensures size == old(size) && capacity == 2 * old(capacity)
      ensures Queued() == old(Queued())
    {
      var a := new UploadJob[2 * capacity](_ => UploadJob([], 0, "", 0, 0));
      forall m | 0 <= m < size {
        a[m] := jobs[m];
      }
      jobs := a;
      capacity := 2 * capacity;
    }

    /** Shift the jobs `job` outranks one slot back, from the end, and put
        `job` in the gap. */
    method Insert(job: UploadJob)
      requires Valid() && size < capacity
      modifies this, jobs
      ensures Valid() && jobs == old(jobs) && capacity == old(capacity)
      ensures size == old(size) + 1
      ensures Queued() == Inserted(old(Queued()), job)
    {
      ghost var q := jobs[..size];
      var k := OpenSlot(job);
      jobs[k] := job;
      size := size + 1;
      InsertPosAt(q, job, k);
      Spliced(jobs[..size], q, job, k);
    }

    /** The shifting loop of the insertion: moves every job at the end that
        `job` outranks one slot back and returns the slot left free. */
    method OpenSlot(job: UploadJob) returns (k: int)
      requires Valid() && size < capacity
      modifies jobs
      ensures 0 <= k <= size
      ensures forall m :: 0 <= m < k ==> jobs[m] == old(jobs[m])
      ensures forall m :: k < m <= size ==> jobs[m] == old(jobs[m - 1])
      ensures forall m :: k <= m < size ==> PriorityAbove(job, old(jobs[m]))
      ensures k == 0 || !PriorityAbove(job, old(jobs[k - 1]))
    {
      var i := size - 1;
      while i >= 0
        invariant -1 <= i < size
        invariant forall m :: 0 <= m <= i ==> jobs[m] == old(jobs[m])
        invariant forall m :: i + 1 < m <= size ==> jobs[m] == old(jobs[m - 1])
        invariant forall m :: i < m < size ==> PriorityAbove(job, old(jobs[m]))
        decreases i + 1
      {
        if PriorityAbove(job, jobs[i]) {
          jobs[i + 1] := jobs[i];
        } else {
          break;
        }
        i := i - 1;
      }
      k := i + 1;
    }

    /** What an upload thread takes once the queue is not empty: the front
        job, the rest moving up one slot (`memmove`). */
    method Dequeue() returns (job: UploadJob)
      requires Valid() && size > 0
      modifies this, jobs
      ensures Valid() && jobs == old(jobs) && capacity == old(capacity)
      ensures job == old(Queued())[0]
      ensures Queued() == old(Queued())[1..]
    {
      job := jobs[0];
      forall m | 0 <= m < size - 1 {
        jobs[m] := jobs[m + 1];
      }
      size := size - 1;
    }
  }

  /** `handle_upload_request`'s reply. */
  datatype UploadResponse = UploadResponse(msgType: nat, messageId: nat, nameLen: nat,
                                           status: nat, ipAddress: nat, tcpPort: nat)

  /** `handle_upload_request`: queue the upload (file name cut to 255
      characters, stamped `now`) and acknowledge it with STATUS_OK, the
      client's address and the server port; the acknowledgement is followed
      by the first `name_len` characters of the name. No check is made that
      a pending job with this client and id exists. */
  method HandleUploadRequest(queue: UploadQueue, messageId: nat, clientId: seq<byte>, jobId: nat,
                             fileSize: nat, filename: string, clientAddr: Endpoint, now: int)
    returns (resp: UploadResponse, payload: string)
    requires queue.Valid()
    modifies queue, queue.jobs
    ensures queue.Valid()
    ensures queue.Queued() == Inserted(old(queue.Queued()),
      UploadJob(clientId, jobId, Truncate(filename, MAX_FILENAME_LEN - 1), fileSize, now))
    ensures resp == UploadResponse(TypeCode(UploadAckType), messageId, NameLen(filename),
                                   STATUS_OK, clientAddr.ip, SERVER_PORT)
    ensures payload == filename[..resp.nameLen]
  {
    var job := UploadJob(clientId, jobId, Truncate(filename, MAX_FILENAME_LEN - 1), fileSize, now);
    queue.Enqueue(job);
    resp := UploadResponse(TypeCode(UploadAckType), messageId, NameLen(filename),
                           STATUS_OK, clientAddr.ip, SERVER_PORT);
    payload := filename[..resp.nameLen];
  }

  // ---------------------------------------------------------------------
  // Receiving one file

  predicate Matches(p: PendingJob, clientId: seq<byte>, jobId: nat)
  {
    p.clientId == clientId && p.jobId == jobId
  }

  /** The first pending job for this client and job id, if any. */
  function FirstMatch(jobs: seq<PendingJob>, clientId: seq<byte>, jobId: nat): (r: Option<nat>)
    ensures r.Some? ==> r.value < |jobs| && Matches(jobs[r.value], clientId, jobId)
    ensures r.Some? ==> forall m :: 0 <= m < r.value ==> !Matches(jobs[m], clientId, jobId)
    ensures r.None? ==> forall m :: 0 <= m < |jobs| ==> !Matches(jobs[m], clientId, jobId)
  {
    if jobs == [] then None
    else if Matches(jobs[0], clientId, jobId) then Some(0)
    else match FirstMatch(jobs[1..], clientId, jobId)
      case None => None
      case Some(i) => Some(i + 1)
  }

  /** The scan of `pending_jobs` that `process_upload` makes before and after
      receiving: the index of the first record with this client id and job
      id. */
  method FindPendingJob(jobs: seq<PendingJob>, clientId: seq<byte>, jobId: nat)
    returns (found: bool, index: nat)
    ensures found <==> FirstMatch(jobs, clientId, jobId).Some?
    ensures found ==> index == FirstMatch(jobs, clientId, jobId).value
  {
    var i := 0;
    while i < |jobs|
      invariant 0 <= i <= |jobs|
      invariant forall m :: 0 <= m < i ==> !Matches(jobs[m], clientId, jobId)
    {
      if jobs[i].clientId == clientId && jobs[i].jobId == jobId {
        return true, i;
      }
      i := i + 1;
    }
    return false, 0;
  }

  /** A job just created by `create_job` is the one an upload for it finds,
      unless an older record with the same client and id is in the table;
      then that older record keeps being found and the new one never
      counts a file. */
  lemma CreatedJobIsFound(jobs: seq<PendingJob>, j: PendingJob)
    ensures FirstMatch(jobs, j.clientId, j.jobId).None? ==>
      FirstMatch(jobs + [j], j.clientId, j.jobId) == Some(|jobs|)
    ensures FirstMatch(jobs, j.clientId, j.jobId).Some? ==>
      FirstMatch(jobs + [j], j.clientId, j.jobId) == FirstMatch(jobs, j.clientId, j.jobId)
  {
    var all := jobs + [j];
    assert forall m :: 0 <= m < |jobs| ==> all[m] == jobs[m];
    match FirstMatch(jobs, j.clientId, j.jobId)
    case None =>
      assert all[|jobs|] == j;
      FirstMatchIs(all, j.clientId, j.jobId, |jobs|);
    case Some(k) =>
      FirstMatchIs(all, j.clientId, j.jobId, k);
  }

  /** The first match is the matching index before which nothing matches. */
  lemma FirstMatchIs(jobs: seq<PendingJob>, clientId: seq<byte>, jobId: nat, k: nat)
    requires k < |jobs| && Matches(jobs[k], clientId, jobId)
    requires forall m :: 0 <= m < k ==> !Matches(jobs[m], clientId, jobId)
    ensures FirstMatch(jobs, clientId, jobId) == Some(k)
  {
  }

  /** The bytes `process_upload`'s receive loop counts, with `remaining`
      still expected and `recvs[k..]` what the following `recv` calls
      return when asked for up to 4096 octets (a value of at most zero:
      closed or failed; past the end: closed). `writes[k]` is what the
      `write` of chunk `k` returns (past the end: the whole chunk). A
      closed connection, or a write that returns anything but the chunk's
      length, ends the transfer early without counting that chunk. */
  function Transfer(remaining: nat, recvs: seq<int>, writes: seq<int>, k: nat): (r: nat)
    ensures r <= remaining
    decreases remaining
  {
    if remaining == 0 || k >= |recvs| || recvs[k] <= 0 then 0
    else
      var got := Min(recvs[k], Min(remaining, RECV_BUFFER_SIZE));
      if !WroteAll(writes, k, got) then 0
      else got + Transfer(remaining - got, recvs, writes, k + 1)
  }

  /** Whether the write of chunk `k` (of `got` octets) reports all of them. */
  predicate WroteAll(writes: seq<int>, k: nat, got: nat)
  {
    k >= |writes| || writes[k] == got
  }

  /** The octets a `write` asked for `got` of leaves in the file when it
      returns `w`: none on an error, otherwise the `w` it reports. */
  function Wrote(w: int, got: nat): (r: nat)
    ensures r <= got
  {
    if w <= 0 then 0 else Min(w, got)
  }

  /** The octets the receive loop leaves in the file: what it counts, plus
      the part of a short write that ended it. */
  function Landed(remaining: nat, recvs: seq<int>, writes: seq<int>, k: nat): (r: nat)
    ensures r <= remaining
    decreases remaining
  {
    if remaining == 0 || k >= |recvs| || recvs[k] <= 0 then 0
    else
      var got := Min(recvs[k], Min(remaining, RECV_BUFFER_SIZE));
      if !WroteAll(writes, k, got) then Wrote(writes[k], got)
      else got + Landed(remaining - got, recvs, writes, k + 1)
  }

  /** The file holds what the loop counts and at most one chunk more: no
      more than a buffer beyond the count. */
  lemma {:induction false} LandedBound(remaining: nat, recvs: seq<int>, writes: seq<int>, k: nat)
    ensures Transfer(remaining, recvs, writes, k) <= Landed(remaining, recvs, writes, k)
    ensures Landed(remaining, recvs, writes, k) <= Transfer(remaining, recvs, writes, k) + RECV_BUFFER_SIZE
    decreases remaining
  {
    if remaining > 0 && k < |recvs| && recvs[k] > 0 {
      var got := Min(recvs[k], Min(remaining, RECV_BUFFER_SIZE));
      if WroteAll(writes, k, got) {
        LandedBound(remaining - got, recvs, writes, k + 1);
      }
    }
  }

  /** A ten-octet file whose one write stores only four: the loop counts
      nothing, yet the truncated file keeps those four octets. */
  lemma ShortWriteStays()
    ensures Transfer(10, [10], [4], 0) == 0 && Landed(10, [10], [4], 0) == 4
  {
    assert Min(10, Min(10, RECV_BUFFER_SIZE)) == 10;
  }

  /** When every `recv` delivers a full buffer and no write falls short
      (an oracle with no entries left, since past its end every write is
      whole), enough calls bring in the whole file, and the file holds it
      all. */
  lemma {:induction false} TransferComplete(remaining: nat, recvs: seq<int>, writes: seq<int>, k: nat)
    requires |writes| <= k <= |recvs|
    requires forall j :: k <= j < |recvs| ==> recvs[j] >= RECV_BUFFER_SIZE
    requires remaining <= (|recvs| - k) * RECV_BUFFER_SIZE
    ensures Transfer(remaining, recvs, writes, k) == remaining
    ensures Landed(remaining, recvs, writes, k) == remaining
    decreases remaining
  {
    if remaining > 0 {
      var got := Min(recvs[k], Min(remaining, RECV_BUFFER_SIZE));
      assert got == Min(remaining, RECV_BUFFER_SIZE);
      TransferComplete(remaining - got, recvs, writes, k + 1);
    }
  }

  /** A pending job after one more file has arrived at time `now`. */
  function Arrived(p: PendingJob, now: int): (r: PendingJob)
    ensures r.filesReceived == p.filesReceived + 1 && r.lastUpdate == now
    ensures r.(filesReceived := p.filesReceived, lastUpdate := p.lastUpdate) == p
  {
    p.(filesReceived := p.filesReceived + 1, lastUpdate := now)
  }

  /** The receive loop of `process_upload` for a file of `size` octets:
      `received` is what it counts (`total_received`), `stored` what it
      leaves in the file. */
  method ReceiveFile(size: nat, recvs: seq<int>, writes: seq<int>) returns (received: nat, stored: nat)
    ensures received == Transfer(size, recvs, writes, 0)
    ensures stored == Landed(size, recvs, writes, 0)
  {
    received := 0;
    var remaining: nat := size;
    var k: nat := 0;
    while remaining > 0
      invariant received + remaining == size
      invariant received + Transfer(remaining, recvs, writes, k) == Transfer(size, recvs, writes, 0)
      invariant received + Landed(remaining, recvs, writes, k) == Landed(size, recvs, writes, 0)
      decreases remaining
    {
      var toRead := Min(remaining, RECV_BUFFER_SIZE);
      var got := if k < |recvs| then Min(recvs[k], toRead) else 0;
      if got <= 0 {
        break;
      }
      var wrote := if k < |writes| then writes[k] else got;
      if wrote != got {
        return received, received + Wrote(wrote, got);
      }
      remaining := remaining - got;
      received := received + got;
      k := k + 1;
    }
    stored := received;
  }

  /** `process_upload`. Without a pending job for the upload, or when
      `accept` (`acceptOk`) or `open` (`openOk`) fails, nothing changes.
      Otherwise the file is (re)created (`O_TRUNC`) in the job directory
      holding what the receive loop wrote, a short final write included;
      `received` is what the loop counted; and the first matching pending
      job counts one more file — even when the transfer ended early. */
  method ProcessUpload(table: JobTable, job: UploadJob, fs: FileSystem, acceptOk: bool, openOk: bool,
                       recvs: seq<int>, writes: seq<int>, now: int)
    returns (received: nat, fs': FileSystem)
    requires |job.clientId| == 16 && job.jobId < Pow16(8)
    modifies table
    ensures var i := FirstMatch(old(table.jobs), job.clientId, job.jobId);
      if i.None? || !acceptOk || !openOk then
        table.jobs == old(table.jobs) && fs' == fs && received == 0
      else
        && received == Transfer(job.fileSize, recvs, writes, 0)
        && fs' == fs[FilePath(job.clientId, job.jobId, job.filename) := File(Landed(job.fileSize, recvs, writes, 0))]
        && table.jobs == old(table.jobs)[i.value := Arrived(old(table.jobs)[i.value], now)]
  {
    received, fs' := 0, fs;
    var found, index := FindPendingJob(table.jobs, job.clientId, job.jobId);
    if !found || !acceptOk || !openOk {
      return;
    }
    var path := FilePath(job.clientId, job.jobId, job.filename);
    var stored;
    received, stored := ReceiveFile(job.fileSize, recvs, writes);
    fs' := fs[path := File(stored)];
    found, index := FindPendingJob(table.jobs, job.clientId, job.jobId);
    if found {
      table.jobs := table.jobs[index := Arrived(table.jobs[index], now)];
    }
  }

  // ---------------------------------------------------------------------
  // Downloads

  /** A queued download. */
  datatype DownloadJob = DownloadJob(clientId: seq<byte>, jobId: nat, filename: string,
                                     messageId: nat, clientAddr: Endpoint)

  /** `handle_download_request`'s reply. */
  datatype DownloadResponse = DownloadResponse(msgType: nat, messageId: nat, status: nat,
                                               fileSize: nat, nameLen: nat)

  /** The reply to a download of `filename` from a job's directory: the size
      `stat` reports (`dirSize` for a directory) with STATUS_OK, or
      STATUS_FILE_NOT_FOUND with size 0 when nothing is at the path. */
  function DownloadAck(fs: FileSystem, dirSize: nat, messageId: nat, clientId: seq<byte>,
                       jobId: nat, filename: string): (r: DownloadResponse)
    requires |clientId| == 16 && jobId < Pow16(8)
    ensures r.msgType == DOWNLOAD_ACK && r.messageId == messageId && r.nameLen == NameLen(filename)
    ensures r.status == STATUS_OK <==> FilePath(clientId, jobId, filename) in fs
    ensures r.status != STATUS_OK ==> r.status == STATUS_FILE_NOT_FOUND && r.fileSize == 0
    ensures r.status == STATUS_OK && fs[FilePath(clientId, jobId, filename)].File? ==>
      r.fileSize == fs[FilePath(clientId, jobId, filename)].size
  {
    var path := FilePath(clientId, jobId, filename);
    if path !in fs then
      DownloadResponse(DOWNLOAD_ACK, messageId, STATUS_FILE_NOT_FOUND, 0, NameLen(filename))
    else
      var size := match fs[path] case File(n) => n case Dir => dirSize;
      DownloadResponse(DOWNLOAD_ACK, messageId, STATUS_OK, size, NameLen(filename))
  }

  /** A file an upload wrote is offered for download with the size that was
      written, as long as its name fitted the 255-character field. */
  lemma DownloadSeesUpload(fs: FileSystem, dirSize: nat, messageId: nat, job: UploadJob, written: nat)
    requires |job.clientId| == 16 && job.jobId < Pow16(8) && |job.filename| < MAX_FILENAME_LEN
    ensures var fs' := fs[FilePath(job.clientId, job.jobId, Truncate(job.filename, MAX_FILENAME_LEN - 1)) := File(written)];
      DownloadAck(fs', dirSize, messageId, job.clientId, job.jobId, job.filename)
        == DownloadResponse(DOWNLOAD_ACK, messageId, STATUS_OK, written, |job.filename|)
  {
  }

  /** The server's download queue: `size` jobs in arrival order in an array
      of `capacity` slots, doubled when full. */
  class DownloadQueue {
    var jobs: array<DownloadJob>
    var size: int
    var capacity: int

    ghost predicate Valid()
      reads this
    {
      jobs.Length == capacity && 0 <= size <= capacity && capacity > 0
    }

    ghost function Queued(): seq<DownloadJob>
      reads this, jobs
      requires Valid()
    {
      jobs[..size]
    }

    constructor Init(capacity: nat)
      requires capacity > 0
      ensures Valid() && fresh(jobs) && this.capacity == capacity && Queued() == []
    {
      jobs := new DownloadJob[capacity](_ => DownloadJob([], 0, "", 0, Endpoint(0, 0)));
      size := 0;
      this.capacity := capacity;
    }

    /** `download_queue.jobs[download_queue.size++] = job`, doubling a full
        array first. */
    method Append(job: DownloadJob)
      requires Valid()
      modifies this, jobs
      ensures Valid()
      ensures Queued() == old(Queued()) + [job]
      ensures capacity == if old(size) == old(capacity) then 2 * old(capacity) else old(capacity)
    {
      if size == capacity {
        var a := new DownloadJob[2 * capacity](_ => job);
        forall m | 0 <= m < size {
          a[m] := jobs[m];
        }
        jobs := a;
        capacity := 2 * capacity;
      }
      ghost var q := jobs[..size];
      assert q == old(Queued());
      jobs[size] := job;
      size := size + 1;
      assert jobs[..size] == q + [job];
    }
  }

  /** `handle_download_request`: reply with `DownloadAck` and the first
      `name_len` characters of the name; when the file exists, also queue a
      download of it (name cut to 255 characters) for this client. */
  method HandleDownloadRequest(queue: DownloadQueue, fs: FileSystem, dirSize: nat, messageId: nat,
                               clientId: seq<byte>, jobId: nat, filename: string, clientAddr: Endpoint)
    returns (resp: DownloadResponse, payload: string)
    requires |clientId| == 16 && jobId < Pow16(8)
    requires queue.Valid()
    modifies queue, queue.jobs
    ensures queue.Valid()
    ensures resp == DownloadAck(fs, dirSize, messageId, clientId, jobId, filename)
    ensures payload == filename[..resp.nameLen]
    ensures resp.status == STATUS_OK ==>
      queue.Queued() == old(queue.Queued()) +
        [DownloadJob(clientId, jobId, Truncate(filename, MAX_FILENAME_LEN - 1), messageId, clientAddr)]
    ensures resp.status != STATUS_OK ==> queue.Queued() == old(queue.Queued()) && queue.jobs == old(queue.jobs)
  {
    resp := DownloadAck(fs, dirSize, messageId, clientId, jobId, filename);
    payload := filename[..resp.nameLen];
    if resp.status != STATUS_OK {
      return;
    }
    queue.Append(DownloadJob(clientId, jobId, Truncate(filename, MAX_FILENAME_LEN - 1), messageId, clientAddr));
  }
}
