/** The pending-job table: one record per accepted job request, each with a
    working directory `processing/<c0><c1>_<job id>` named after the first
    two octets of the client id and the job id in lower-case hex. */
module JobHandler {
  import opened Common
  import opened Protocol

  /** One pending job: who asked, where to answer, the command to run once
      `fileCount` files have arrived, and how many have. */
  datatype PendingJob = PendingJob(
    clientId: seq<byte>,
    clientAddr: Endpoint,
    jobId: nat,
    command: string,
    fileCount: int,
    filesReceived: int,
    lastUpdate: int)

  // ---------------------------------------------------------------------
  // Lower-case hexadecimal, as `printf("%0Nx")` writes it

  function Pow16(n: nat): (r: nat)
    ensures r >= 1
  {
    if n == 0 then 1 else 16 * Pow16(n - 1)
  }

  function HexDigit(d: nat): (c: char)
    requires d < 16
    ensures '0' <= c <= '9' || 'a' <= c <= 'f'
  {
    if d < 10 then ('0' as int + d) as char else ('a' as int + d - 10) as char
  }

  /** The value of one lower-case hex digit; anything else is not one. */
  function DigitValue(c: char): (r: Option<nat>)
    ensures r.Some? <==> '0' <= c <= '9' || 'a' <= c <= 'f'
    ensures r.Some? ==> r.value < 16 && HexDigit(r.value) == c
  {
    if '0' <= c <= '9' then Some(c as int - '0' as int)
    else if 'a' <= c <= 'f' then Some(c as int - 'a' as int + 10)
    else None
  }

  lemma DigitRoundTrip(d: nat)
    requires d < 16
    ensures DigitValue(HexDigit(d)) == Some(d)
  {
  }

  /** `v` as exactly `n` hex digits, zero-padded, most significant first. */
  function Hex(v: nat, n: nat): (s: string)
    requires v < Pow16(n)
    ensures |s| == n
  {
    if n == 0 then "" else Hex(v / 16, n - 1) + [HexDigit(v % 16)]
  }

  /** Reads a string of lower-case hex digits; any other character makes
      it unreadable. */
  function UnHex(s: string): (r: Option<nat>)
    ensures r.Some? ==> r.value < Pow16(|s|)
  {
    if s == [] then Some(0) else
      match (UnHex(s[..|s| - 1]), DigitValue(s[|s| - 1]))
      case (Some(hi), Some(d)) =>
        assert hi <= Pow16(|s| - 1) - 1;
        Some(hi * 16 + d)
      case _ => None
  }

  lemma {:induction false} UnHexHex(v: nat, n: nat)
    requires v < Pow16(n)
    ensures UnHex(Hex(v, n)) == Some(v)
  {
    if n > 0 {
      var s := Hex(v, n);
      assert s[..n - 1] == Hex(v / 16, n - 1);
      UnHexHex(v / 16, n - 1);
      DigitRoundTrip(v % 16);
    }
  }

  lemma {:induction false} HexUnHex(s: string)
    requires UnHex(s).Some?
    ensures Hex(UnHex(s).value, |s|) == s
  {
    if s != [] {
      var init := s[..|s| - 1];
      HexUnHex(init);
      var v := UnHex(s).value;
      var d := DigitValue(s[|s| - 1]).value;
      assert v == UnHex(init).value * 16 + d;
      assert v / 16 == UnHex(init).value && v % 16 == d;
      assert s == init + [s[|s| - 1]];
    }
  }

  // ---------------------------------------------------------------------
  // The job directory

  const JOB_DIR_PREFIX: string := "processing/"

  /** `snprintf(dir_path, 256, "processing/%02x%02x_%08x", c[0], c[1], id)`:
      24 characters, well inside the buffer, so never truncated. */
  function JobDirPath(clientId: seq<byte>, jobId: nat): (r: string)
    requires |clientId| == 16 && jobId < Pow16(8)
    ensures |r| == 24 && r[..11] == JOB_DIR_PREFIX && r[15] == '_'
  {
    assert Pow16(2) == 256;
    JOB_DIR_PREFIX + Hex(clientId[0], 2) + Hex(clientId[1], 2) + "_" + Hex(jobId, 8)
  }

  /** Reads a job directory name back into the two client-id octets and the
      job id it was made from. */
  function ParseJobDir(p: string): (r: Option<(byte, byte, nat)>)
    ensures r.Some? ==> r.value.2 < Pow16(8)
  {
    if |p| != 24 || p[..11] != JOB_DIR_PREFIX || p[15] != '_' then None
    else
      match (UnHex(p[11..13]), UnHex(p[13..15]), UnHex(p[16..]))
      case (Some(a), Some(b), Some(j)) =>
        assert Pow16(2) == 256;
        Some((a, b, j))
      case _ => None
  }

  /** The directory name records the first two client-id octets and the job
      id, and nothing else. */
  lemma ParseJobDirPath(clientId: seq<byte>, jobId: nat)
    requires |clientId| == 16 && jobId < Pow16(8)
    ensures ParseJobDir(JobDirPath(clientId, jobId)) == Some((clientId[0], clientId[1], jobId))
  {
    assert Pow16(2) == 256;
    var p := JobDirPath(clientId, jobId);
    assert p[11..13] == Hex(clientId[0], 2);
    assert p[13..15] == Hex(clientId[1], 2);
    assert p[16..] == Hex(jobId, 8);
    UnHexHex(clientId[0], 2);
    UnHexHex(clientId[1], 2);
    UnHexHex(jobId, 8);
  }

  /** Every name the parser accepts is the directory of the job it names. */
  lemma JobDirPathParse(p: string, clientId: seq<byte>)
    requires ParseJobDir(p).Some? && |clientId| == 16
    requires clientId[0] == ParseJobDir(p).value.0 && clientId[1] == ParseJobDir(p).value.1
    ensures JobDirPath(clientId, ParseJobDir(p).value.2) == p
  {
    HexUnHex(p[11..13]);
    HexUnHex(p[13..15]);
    HexUnHex(p[16..]);
    assert p == p[..11] + p[11..13] + p[13..15] + [p[15]] + p[16..];
  }

  /** Two jobs share a directory exactly when they agree on the job id and on
      the first two client-id octets; the other fourteen octets play no
      part, so distinct clients can share one. */
  lemma JobDirSharing(c1: seq<byte>, j1: nat, c2: seq<byte>, j2: nat)
    requires |c1| == 16 && j1 < Pow16(8) && |c2| == 16 && j2 < Pow16(8)
    ensures JobDirPath(c1, j1) == JobDirPath(c2, j2) <==> c1[..2] == c2[..2] && j1 == j2
  {
    if JobDirPath(c1, j1) == JobDirPath(c2, j2) {
      ParseJobDirPath(c1, j1);
      ParseJobDirPath(c2, j2);
      assert c1[..2] == [c1[0], c1[1]] && c2[..2] == [c2[0], c2[1]];
    }
    if c1[..2] == c2[..2] && j1 == j2 {
      assert c1[0] == c1[..2][0] && c1[1] == c1[..2][1];
      SameOctetsSameDir(c1, c2, j1);
    }
  }

  lemma SameOctetsSameDir(c1: seq<byte>, c2: seq<byte>, j: nat)
    requires |c1| == 16 && |c2| == 16 && j < Pow16(8)
    requires c1[0] == c2[0] && c1[1] == c2[1]
    ensures JobDirPath(c1, j) == JobDirPath(c2, j)
  {
  }

  /** The record `create_job` appends: the command cut to MAX_CMD_LEN - 1
      characters, no files received yet, stamped with the current time. */
  function NewJob(clientId: seq<byte>, addr: Endpoint, jobId: nat, command: string,
                  fileCount: int, now: int): (r: PendingJob)
    ensures r.clientId == clientId && r.clientAddr == addr && r.jobId == jobId
    ensures |r.command| < MAX_CMD_LEN && |r.command| <= |command| && r.command == command[..|r.command|]
    ensures |command| < MAX_CMD_LEN ==> r.command == command
    ensures r.fileCount == fileCount && r.filesReceived == 0 && r.lastUpdate == now
  {
    PendingJob(clientId, addr, jobId, Truncate(command, MAX_CMD_LEN - 1), fileCount, 0, now)
  }

  /** Whether `create_job` can go ahead on file system `fs`: the job
      directory is already a directory, or it is absent and `mkdir`
      succeeds. A non-directory in the way stops it. */
  predicate DirReady(fs: FileSystem, dir: string, mkdirOk: bool)
  {
    if dir in fs then fs[dir] == Dir else mkdirOk
  }

  /** The file system after `create_job`'s directory step. */
  function AfterMkdir(fs: FileSystem, dir: string, mkdirOk: bool): (r: FileSystem)
    ensures DirReady(fs, dir, mkdirOk) <==> dir in r && r[dir] == Dir
    ensures forall p :: p in fs && p != dir ==> p in r && r[p] == fs[p]
    ensures forall p :: p in r && p != dir ==> p in fs
  {
    if dir !in fs && mkdirOk then fs[dir := Dir] else fs
  }

  /** The server's `pending_jobs` array and `job_count`, grown by one
      record per created job. */
  class JobTable {
    var jobs: seq<PendingJob>

    constructor Init()
      ensures jobs == []
    {
      jobs := [];
    }

    /** `create_job`. `fs` is the file system `stat` and `mkdir` see (and
        `mkdirOk` whether `mkdir` would succeed), `reallocOk` whether growing
        the array succeeds, `now` the value of `time(NULL)`. Returns 1 and
        appends the new record on success; returns 0 and leaves the table
        alone when the directory path holds something other than a
        directory, `mkdir` fails or `realloc` fails. No check is made for a
        job with the same client and id already in the table. */
    method CreateJob(clientId: seq<byte>, clientAddr: Endpoint, jobId: nat, command: string,
                     fileCount: int, fs: FileSystem, mkdirOk: bool, reallocOk: bool, now: int)
      returns (ret: int, fs': FileSystem)
      requires |clientId| == 16 && jobId < Pow16(8)
      modifies this
      ensures fs' == AfterMkdir(fs, JobDirPath(clientId, jobId), mkdirOk)
      ensures ret == 1 <==> DirReady(fs, JobDirPath(clientId, jobId), mkdirOk) && reallocOk
      ensures ret == 0 || ret == 1
      ensures ret == 1 ==> jobs == old(jobs) + [NewJob(clientId, clientAddr, jobId, command, fileCount, now)]
      ensures ret == 0 ==> jobs == old(jobs)
    {
      var dir := JobDirPath(clientId, jobId);
      fs' := fs;
      if dir in fs {
        if fs[dir] != Dir {
          return 0, fs';
        }
      } else {
        if !mkdirOk {
          return 0, fs';
        }
        fs' := fs[dir := Dir];
      }
      if !reallocOk {
        return 0, fs';
      }
      jobs := jobs + [NewJob(clientId, clientAddr, jobId, command, fileCount, now)];
      ret := 1;
    }
  }
}
