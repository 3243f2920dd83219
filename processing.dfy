/** One pass of `process_pending_jobs` over the pending-job table: every
    job whose files have all arrived is run in its job directory, its
    result is sent to the client, and it leaves the table. */
module Processing {
  import opened Common
  import opened Protocol
  import opened JobHandler

  const JOB_DONE_MSG: string := "Job completed successfully"
  const JOB_FAILED_MSG: string := "Job execution failed"

  /** What the environment does when the pass reaches a ready job: whether
      `chdir` into its directory succeeds, the value `system` returns for its
      command, and whether `malloc` for the result datagram succeeds. */
  datatype Attempt = Attempt(chdirOk: bool, exitCode: int, mallocOk: bool)

  /** The fields of JOB_RESULT the pass sets (it leaves `message_id` and
      `client_id` unset), with the message text that follows it. */
  datatype JobResultMsg = JobResultMsg(msgType: nat, jobId: nat, status: nat, msgLen: nat, message: string)

  /** A datagram sent to a client's address. */
  datatype Notice = Notice(to: Endpoint, result: JobResultMsg)

  /** The arguments of one `log_append("[PROCESSING]", ...)` call: the
      announcement before a ready job's `chdir`, and the report after its
      command returned, whose status text is "OK" when `ok` holds and
      "ERROR" otherwise. The message shows the job id and the first two
      client-id octets; the formatting itself happens inside `log_append`,
      which is not part of this model. */
  datatype LogLine =
    | Starting(jobId: nat, clientId: seq<byte>, command: string)
    | Completed(jobId: nat, clientId: seq<byte>, ok: bool)

  function StartLine(j: PendingJob): LogLine
  {
    Starting(j.jobId, j.clientId, j.command)
  }

  function EndLine(j: PendingJob, exitCode: int): LogLine
  {
    Completed(j.jobId, j.clientId, exitCode == 0)
  }

  /** What a pass did: the jobs left in the table, the jobs removed, the
      results sent, the commands run and the lines logged, each in order. */
  datatype PassResult = PassResult(kept: seq<PendingJob>, done: seq<PendingJob>,
                                   sent: seq<Notice>, ran: seq<string>, logged: seq<LogLine>)

  /** A job is ready once as many files have arrived as it expects. */
  predicate Ready(j: PendingJob)
  {
    j.filesReceived >= j.fileCount
  }

  /** The result for a job whose command returned `exitCode`: STATUS_OK and
      the success text exactly when it returned 0. */
  function ResultFor(j: PendingJob, exitCode: int): (r: JobResultMsg)
    ensures r.msgType == TypeCode(JobResultType) && r.jobId == j.jobId
    ensures r.status == STATUS_OK <==> exitCode == 0
    ensures r.status == STATUS_OK || r.status == STATUS_ERROR
    ensures r.msgLen == |r.message| && r.message == (if exitCode == 0 then JOB_DONE_MSG else JOB_FAILED_MSG)
  {
    var msg := if exitCode == 0 then JOB_DONE_MSG else JOB_FAILED_MSG;
    JobResultMsg(TypeCode(JobResultType), j.jobId, if exitCode == 0 then STATUS_OK else STATUS_ERROR, |msg|, msg)
  }

  function Then(a: PassResult, b: PassResult): PassResult
  {
    PassResult(a.kept + b.kept, a.done + b.done, a.sent + b.sent, a.ran + b.ran, a.logged + b.logged)
  }

  lemma ThenAssoc(a: PassResult, b: PassResult, c: PassResult)
    ensures Then(Then(a, b), c) == Then(a, Then(b, c))
  {
    ConcatAssoc(a.kept, b.kept, c.kept);
    ConcatAssoc(a.done, b.done, c.done);
    ConcatAssoc(a.sent, b.sent, c.sent);
    ConcatAssoc(a.ran, b.ran, c.ran);
    ConcatAssoc(a.logged, b.logged, c.logged);
  }

  const Nothing := PassResult([], [], [], [], [])

  /** A job that stays without being looked at. */
  function Kept(j: PendingJob): PassResult
  {
    PassResult([j], [], [], [], [])
  }

  /** A job the pass looks at that stays without its command running: it is
      not ready, or it is (and is announced) but `chdir` fails. */
  function Unrun(j: PendingJob): PassResult
  {
    PassResult([j], [], [], [], if Ready(j) then [StartLine(j)] else [])
  }

  /** A job that stays although its command ran (the result buffer could
      not be allocated). */
  function RanKept(j: PendingJob, exitCode: int): PassResult
  {
    PassResult([j], [], [], [j.command], [StartLine(j), EndLine(j, exitCode)])
  }

  function Finished(j: PendingJob, exitCode: int): PassResult
  {
    PassResult([], [j], [Notice(j.clientAddr, ResultFor(j, exitCode))], [j.command],
               [StartLine(j), EndLine(j, exitCode)])
  }

  /** How many lines announce a job. */
  function Starts(ls: seq<LogLine>): nat
  {
    if ls == [] then 0 else (if ls[0].Starting? then 1 else 0) + Starts(ls[1..])
  }

  /** How many lines report a job's status. */
  function Reports(ls: seq<LogLine>): nat
  {
    if ls == [] then 0 else (if ls[0].Completed? then 1 else 0) + Reports(ls[1..])
  }

  lemma {:induction false} CountsAppend(a: seq<LogLine>, b: seq<LogLine>)
    ensures Starts(a + b) == Starts(a) + Starts(b) && Reports(a + b) == Reports(a) + Reports(b)
  {
    if a == [] {
      assert a + b == b;
    } else {
      assert (a + b)[1..] == a[1..] + b;
      CountsAppend(a[1..], b);
    }
  }

  /** What one pass does to consecutive relations between a result and the
      table it came from: kept and removed jobs together are the table,
      every removed job was ready and its result went to its own client,
      every removed job's command ran, every command run is reported in
      the log once, and at least as many jobs were announced. */
  ghost predicate Accounts(js: seq<PendingJob>, r: PassResult)
  {
    && multiset(r.kept) + multiset(r.done) == multiset(js)
    && |r.sent| == |r.done| <= |r.ran|
    && Reports(r.logged) == |r.ran| <= Starts(r.logged)
    && (forall i :: 0 <= i < |r.done| ==> Ready(r.done[i]))
    && (forall i :: 0 <= i < |r.done| ==>
          r.sent[i].to == r.done[i].clientAddr && r.sent[i].result.jobId == r.done[i].jobId)
  }

  lemma ThenAccounts(a: seq<PendingJob>, ra: PassResult, b: seq<PendingJob>, rb: PassResult)
    requires Accounts(a, ra) && Accounts(b, rb)
    ensures Accounts(a + b, Then(ra, rb))
  {
    var r := Then(ra, rb);
    CountsAppend(ra.logged, rb.logged);
    forall i | 0 <= i < |r.done|
      ensures Ready(r.done[i])
      ensures r.sent[i].to == r.done[i].clientAddr && r.sent[i].result.jobId == r.done[i].jobId
    {
      if i >= |ra.done| {
        assert r.done[i] == rb.done[i - |ra.done|] && r.sent[i] == rb.sent[i - |ra.sent|];
      }
    }
  }

  /** What the pass as written does on reaching the job at the front of
      `js`: keep it, run it and keep it, or finish it and pass over the job
      that moves into its slot. */
  function Front(js: seq<PendingJob>, outs: seq<Attempt>): PassResult
    requires 0 < |js| <= |outs|
  {
    var j, o := js[0], outs[0];
    if !Ready(j) || !o.chdirOk then Unrun(j)
    else if !o.mallocOk then RanKept(j, o.exitCode)
    else if |js| > 1 then Then(Finished(j, o.exitCode), Kept(js[1]))
    else Finished(j, o.exitCode)
  }

  /** How many jobs of `js` that step gets past. */
  function Skip(js: seq<PendingJob>, outs: seq<Attempt>): (n: nat)
    requires 0 < |js| <= |outs|
    ensures 1 <= n <= |js|
  {
    if Completes(js[0], outs[0]) && |js| > 1 then 2 else 1
  }

  /** The pass as `process_pending_jobs` is written. `outs[i]` is what
      happens when the pass reaches the job that started at index `i`.
      Removing job `i` shifts the next one into slot `i`, and the loop's
      `i++` then passes over it: it stays for this pass unexamined. */
  function PassAsWritten(js: seq<PendingJob>, outs: seq<Attempt>): PassResult
    requires |outs| >= |js|
    decreases |js|
  {
    if js == [] then Nothing
    else
      var n := Skip(js, outs);
      Then(Front(js, outs), PassAsWritten(js[n..], outs[n..]))
  }

  /** The pass the loop is evidently meant to make: after removing a job,
      look at the one that moved into its slot. */
  function PassIntended(js: seq<PendingJob>, outs: seq<Attempt>): PassResult
    requires |outs| >= |js|
    decreases |js|
  {
    if js == [] then Nothing
    else
      var j, o := js[0], outs[0];
      var step := if !Ready(j) || !o.chdirOk then Unrun(j)
                  else if !o.mallocOk then RanKept(j, o.exitCode)
                  else Finished(j, o.exitCode);
      Then(step, PassIntended(js[1..], outs[1..]))
  }

  lemma StepAccounts(j: PendingJob, o: Attempt)
    ensures Accounts([j], Kept(j)) && Accounts([j], Unrun(j)) && Accounts([j], RanKept(j, o.exitCode))
    ensures Ready(j) ==> Accounts([j], Finished(j, o.exitCode))
  {
    var s, e := StartLine(j), EndLine(j, o.exitCode);
    assert [s][1..] == [] && [e][1..] == [];
    assert e.Completed? && Reports([]) == 0 && Starts([]) == 0;
    assert Starts([e]) == 0 && Reports([e]) == 1;
    assert [s, e][1..] == [e];
  }

  /** Whatever the environment does, the pass as written only removes ready
      jobs, sends each removed job's result to that job's client, and loses
      and invents no job. */
  lemma {:induction false} AsWrittenAccounts(js: seq<PendingJob>, outs: seq<Attempt>)
    requires |outs| >= |js|
    ensures Accounts(js, PassAsWritten(js, outs))
    decreases |js|
  {
    if js != [] {
      var n := Skip(js, outs);
      AsWrittenAccounts(js[n..], outs[n..]);
      FrontAccounts(js, outs);
      AccountsFront(js, n, Front(js, outs), PassAsWritten(js[n..], outs[n..]));
    }
  }

  /** One step accounts for the jobs it gets past. */
  lemma FrontAccounts(js: seq<PendingJob>, outs: seq<Attempt>)
    requires 0 < |js| <= |outs|
    ensures Accounts(js[..Skip(js, outs)], Front(js, outs))
  {
    var j, o := js[0], outs[0];
    if Completes(j, o) && |js| > 1 {
      assert js[..Skip(js, outs)] == [j, js[1]];
      assert Front(js, outs) == Then(Finished(j, o.exitCode), Kept(js[1]));
      PairAccounts(j, js[1], o.exitCode);
    } else {
      assert js[..Skip(js, outs)] == [j];
      StepAccounts(j, o);
      if !Ready(j) || !o.chdirOk {
        assert Front(js, outs) == Unrun(j);
      } else if !o.mallocOk {
        assert Front(js, outs) == RanKept(j, o.exitCode);
      } else {
        assert Front(js, outs) == Finished(j, o.exitCode);
      }
    }
  }

  /** A job that finishes, followed by the one passed over. */
  lemma PairAccounts(j: PendingJob, k: PendingJob, exitCode: int)
    requires Ready(j)
    ensures Accounts([j, k], Then(Finished(j, exitCode), Kept(k)))
  {
    StepAccounts(j, Attempt(true, exitCode, true));
    StepAccounts(k, Attempt(true, exitCode, true));
    ThenAccounts([j], Finished(j, exitCode), [k], Kept(k));
    assert [j] + [k] == [j, k];
  }

  /** A result for the first `n` jobs followed by one for the rest accounts
      for the whole table. */
  lemma AccountsFront(js: seq<PendingJob>, n: nat, step: PassResult, rest: PassResult)
    requires n <= |js| && Accounts(js[..n], step) && Accounts(js[n..], rest)
    ensures Accounts(js, Then(step, rest))
  {
    assert js == js[..n] + js[n..];
    ThenAccounts(js[..n], step, js[n..], rest);
  }

  /** The same holds for the corrected pass. */
  lemma {:induction false} IntendedAccounts(js: seq<PendingJob>, outs: seq<Attempt>)
    requires |outs| >= |js|
    ensures Accounts(js, PassIntended(js, outs))
    decreases |js|
  {
    if js != [] {
      var j, o := js[0], outs[0];
      StepAccounts(j, o);
      assert js == [j] + js[1..];
      IntendedAccounts(js[1..], outs[1..]);
      var step := if !Ready(j) || !o.chdirOk then Unrun(j)
                  else if !o.mallocOk then RanKept(j, o.exitCode)
                  else Finished(j, o.exitCode);
      ThenAccounts([j], step, js[1..], PassIntended(js[1..], outs[1..]));
    }
  }

  /** A job leaves in a pass when it is ready and both `chdir` and `malloc`
      succeed for it. */
  predicate Completes(j: PendingJob, o: Attempt)
  {
    Ready(j) && o.chdirOk && o.mallocOk
  }

  /** The jobs that should remain after a pass, in table order. */
  function Stayers(js: seq<PendingJob>, outs: seq<Attempt>): seq<PendingJob>
    requires |outs| >= |js|
    decreases |js|
  {
    if js == [] then []
    else (if Completes(js[0], outs[0]) then [] else [js[0]]) + Stayers(js[1..], outs[1..])
  }

  /** The corrected pass keeps exactly the jobs that do not complete, so
      every ready job that can run is gone after one pass. */
  lemma {:induction false} IntendedKeepsStayers(js: seq<PendingJob>, outs: seq<Attempt>)
    requires |outs| >= |js|
    ensures PassIntended(js, outs).kept == Stayers(js, outs)
    decreases |js|
  {
    if js != [] {
      IntendedKeepsStayers(js[1..], outs[1..]);
    }
  }

  /** The pass as written keeps at least the jobs the corrected pass keeps. */
  lemma AsWrittenKeepsStayers(js: seq<PendingJob>, outs: seq<Attempt>)
    requires |outs| >= |js|
    ensures multiset(Stayers(js, outs)) <= multiset(PassAsWritten(js, outs).kept)
  {
    AsWrittenKeepsStayersInOrder(js, outs);
    SubSeqMultiset(Stayers(js, outs), PassAsWritten(js, outs).kept);
  }

  /** The jobs that should remain split where the table does. */
  lemma {:induction false} StayersSplit(js: seq<PendingJob>, outs: seq<Attempt>, n: nat)
    requires n <= |js| <= |outs|
    ensures Stayers(js, outs) == Stayers(js[..n], outs[..n]) + Stayers(js[n..], outs[n..])
    decreases n
  {
    if n == 0 {
      assert js[..0] == [] && js[0..] == js && outs[0..] == outs;
    } else {
      StayersSplit(js[1..], outs[1..], n - 1);
      assert js[..n][1..] == js[1..][..n - 1] && outs[..n][1..] == outs[1..][..n - 1];
      assert js[1..][n - 1..] == js[n..] && outs[1..][n - 1..] == outs[n..];
      assert js[..n][0] == js[0] && outs[..n][0] == outs[0];
    }
  }

  /** `s` is a merge of `a` and `b`: every element of `s` comes from one of
      them, and each keeps its own order in `s`. */
  predicate Interleaves<T(==)>(s: seq<T>, a: seq<T>, b: seq<T>)
    decreases |s|
  {
    if s == [] then a == [] && b == []
    else || (a != [] && a[0] == s[0] && Interleaves(s[1..], a[1..], b))
         || (b != [] && b[0] == s[0] && Interleaves(s[1..], a, b[1..]))
  }

  lemma TakeLeft<T>(x: T, s: seq<T>, a: seq<T>, b: seq<T>)
    requires Interleaves(s, a, b)
    ensures Interleaves([x] + s, [x] + a, b)
  {
    assert ([x] + s)[1..] == s && ([x] + a)[1..] == a;
  }

  lemma TakeRight<T>(x: T, s: seq<T>, a: seq<T>, b: seq<T>)
    requires Interleaves(s, a, b)
    ensures Interleaves([x] + s, a, [x] + b)
  {
    assert ([x] + s)[1..] == s && ([x] + b)[1..] == b;
  }

  /** The `memmove` keeps the order of the remaining entries: the jobs the
      pass as written keeps and those it removes are the table split in
      two, each part in table order. */
  lemma {:induction false} AsWrittenKeepsOrder(js: seq<PendingJob>, outs: seq<Attempt>)
    requires |outs| >= |js|
    ensures Interleaves(js, PassAsWritten(js, outs).kept, PassAsWritten(js, outs).done)
    decreases |js|
  {
    if js != [] {
      var n, f := Skip(js, outs), Front(js, outs);
      var rest := PassAsWritten(js[n..], outs[n..]);
      AsWrittenKeepsOrder(js[n..], outs[n..]);
      FrontKeepsOrder(js, outs);
      InterleavesAppend(js[..n], f.kept, f.done, js[n..], rest.kept, rest.done);
      assert js[..n] + js[n..] == js;
    }
  }

  /** One step keeps the jobs it gets past in order. */
  lemma FrontKeepsOrder(js: seq<PendingJob>, outs: seq<Attempt>)
    requires 0 < |js| <= |outs|
    ensures Interleaves(js[..Skip(js, outs)], Front(js, outs).kept, Front(js, outs).done)
  {
    var j, o := js[0], outs[0];
    var f := Front(js, outs);
    assert Interleaves<PendingJob>([], [], []);
    if !Completes(j, o) {
      assert js[..1] == [j] + [] && f.kept == [j] + [] && f.done == [];
      TakeLeft(j, [], [], []);
    } else if |js| == 1 {
      assert js[..1] == [j] + [] && f.kept == [] && f.done == [j] + [];
      TakeRight(j, [], [], []);
    } else {
      assert js[..2] == [j] + ([js[1]] + []) && f.kept == [js[1]] + [] && f.done == [j] + [];
      TakeLeft(js[1], [], [], []);
      TakeRight(j, [js[1]] + [], [js[1]] + [], []);
    }
  }

  /** Merges put one after the other give a merge. */
  lemma {:induction false} InterleavesAppend<T>(s1: seq<T>, a1: seq<T>, b1: seq<T>,
                                                s2: seq<T>, a2: seq<T>, b2: seq<T>)
    requires Interleaves(s1, a1, b1) && Interleaves(s2, a2, b2)
    ensures Interleaves(s1 + s2, a1 + a2, b1 + b2)
    decreases |s1|
  {
    if s1 == [] {
      assert s1 + s2 == s2 && a1 + a2 == a2 && b1 + b2 == b2;
    } else {
      assert (s1 + s2)[0] == s1[0] && (s1 + s2)[1..] == s1[1..] + s2;
      if a1 != [] && a1[0] == s1[0] && Interleaves(s1[1..], a1[1..], b1) {
        InterleavesAppend(s1[1..], a1[1..], b1, s2, a2, b2);
        assert (a1 + a2)[0] == a1[0] && (a1 + a2)[1..] == a1[1..] + a2;
      } else {
        InterleavesAppend(s1[1..], a1, b1[1..], s2, a2, b2);
        assert (b1 + b2)[0] == b1[0] && (b1 + b2)[1..] == b1[1..] + b2;
      }
    }
  }

  /** `a` is `s` with some elements left out, the rest in order. */
  predicate SubSeq<T(==)>(a: seq<T>, s: seq<T>)
    decreases |s|
  {
    if a == [] then true
    else if s == [] then false
    else (a[0] == s[0] && SubSeq(a[1..], s[1..])) || SubSeq(a, s[1..])
  }

  lemma SubSeqCons<T>(x: T, a: seq<T>, s: seq<T>)
    requires SubSeq(a, s)
    ensures SubSeq([x] + a, [x] + s) && SubSeq(a, [x] + s)
  {
    assert ([x] + s)[1..] == s && ([x] + a)[1..] == a;
  }

  /** The pass as written keeps every job the corrected pass keeps, in the
      same order, and may keep more. */
  lemma {:induction false} AsWrittenKeepsStayersInOrder(js: seq<PendingJob>, outs: seq<Attempt>)
    requires |outs| >= |js|
    ensures SubSeq(Stayers(js, outs), PassAsWritten(js, outs).kept)
    decreases |js|
  {
    if js == [] {
      assert Stayers(js, outs) == [];
    } else {
      var n, f := Skip(js, outs), Front(js, outs);
      var rest := PassAsWritten(js[n..], outs[n..]);
      AsWrittenKeepsStayersInOrder(js[n..], outs[n..]);
      FrontKeepsStayers(js, outs);
      StayersSplit(js, outs, n);
      SubSeqAppend(Stayers(js[..n], outs[..n]), f.kept, Stayers(js[n..], outs[n..]), rest.kept);
    }
  }

  /** One step keeps, in order, the jobs among those it gets past that
      should remain. */
  lemma FrontKeepsStayers(js: seq<PendingJob>, outs: seq<Attempt>)
    requires 0 < |js| <= |outs|
    ensures SubSeq(Stayers(js[..Skip(js, outs)], outs[..Skip(js, outs)]), Front(js, outs).kept)
  {
    var n, f := Skip(js, outs), Front(js, outs);
    var s, o := js[..n], outs[..n];
    assert s[0] == js[0] && o[0] == outs[0];
    if n == 1 {
      assert s[1..] == [];
      assert Stayers(s, o) == (if Completes(js[0], outs[0]) then [] else [js[0]]) + [];
      SubSeqCons(js[0], [], []);
    } else {
      assert s[1..][0] == js[1] && o[1..][0] == outs[1] && s[1..][1..] == [];
      assert Stayers(s[1..], o[1..]) == (if Completes(js[1], outs[1]) then [] else [js[1]]) + [];
      assert Stayers(s, o) == Stayers(s[1..], o[1..]);
      assert f.kept == [js[1]] + [];
      SubSeqCons(js[1], [], []);
    }
  }

  /** Subsequences put one after the other give a subsequence. */
  lemma {:induction false} SubSeqAppend<T>(a1: seq<T>, s1: seq<T>, a2: seq<T>, s2: seq<T>)
    requires SubSeq(a1, s1) && SubSeq(a2, s2)
    ensures SubSeq(a1 + a2, s1 + s2)
    decreases |s1|
  {
    if s1 == [] {
      assert a1 == [] && a1 + a2 == a2 && s1 + s2 == s2;
    } else {
      assert (s1 + s2)[0] == s1[0] && (s1 + s2)[1..] == s1[1..] + s2;
      if a1 != [] && a1[0] == s1[0] && SubSeq(a1[1..], s1[1..]) {
        SubSeqAppend(a1[1..], s1[1..], a2, s2);
        assert (a1 + a2)[0] == a1[0] && (a1 + a2)[1..] == a1[1..] + a2;
      } else {
        SubSeqAppend(a1, s1[1..], a2, s2);
      }
    }
  }

  /** A subsequence holds no element more often than the sequence. */
  lemma {:induction false} SubSeqMultiset<T>(a: seq<T>, s: seq<T>)
    requires SubSeq(a, s)
    ensures multiset(a) <= multiset(s)
    decreases |s|
  {
    if a != [] {
      assert s == [s[0]] + s[1..];
      if a[0] == s[0] && SubSeq(a[1..], s[1..]) {
        SubSeqMultiset(a[1..], s[1..]);
        assert a == [a[0]] + a[1..];
      } else {
        SubSeqMultiset(a, s[1..]);
      }
    }
  }

  /** A ready job whose `chdir` fails is still announced in the log, yet
      its command does not run and it stays. */
  lemma ChdirFailureAnnounced(j: PendingJob, o: Attempt)
    requires Ready(j) && !o.chdirOk
    ensures PassAsWritten([j], [o]) == PassResult([j], [], [], [], [StartLine(j)])
    ensures PassIntended([j], [o]) == PassResult([j], [], [], [], [StartLine(j)])
  {
    assert [j][1..] == [] && [o][1..] == [];
    var u := Unrun(j);
    assert Then(u, Nothing) == PassResult(u.kept + [], u.done + [], u.sent + [], u.ran + [], u.logged + []);
    assert u.kept + [] == u.kept && u.logged + [] == u.logged;
  }

  /** One step of the pass as written, read from the front of the table. */
  lemma UnfoldAsWritten(js: seq<PendingJob>, outs: seq<Attempt>)
    requires |outs| >= |js| > 0
    ensures var j, o := js[0], outs[0];
      && (!Ready(j) || !o.chdirOk ==>
            PassAsWritten(js, outs) == Then(Unrun(j), PassAsWritten(js[1..], outs[1..])))
      && (Ready(j) && o.chdirOk && !o.mallocOk ==>
            PassAsWritten(js, outs) == Then(RanKept(j, o.exitCode), PassAsWritten(js[1..], outs[1..])))
      && (Completes(j, o) && |js| == 1 ==>
            PassAsWritten(js, outs) == Then(Finished(j, o.exitCode), Nothing))
      && (Completes(j, o) && |js| > 1 ==>
            PassAsWritten(js, outs) ==
              Then(Then(Finished(j, o.exitCode), Kept(js[1])), PassAsWritten(js[2..], outs[2..])))
  {
    var j, o := js[0], outs[0];
    if Completes(j, o) && |js| > 1 {
      ThenAssoc(Finished(j, o.exitCode), Kept(js[1]), PassAsWritten(js[2..], outs[2..]));
    } else if Completes(j, o) {
      assert js[1..] == [];
    }
  }

  /** Two ready jobs whose commands both run: the corrected pass finishes
      both, the pass as written finishes the first and leaves the second. */
  lemma AsWrittenSkipsNextJob()
    ensures var a := PendingJob(Zeros(16), Endpoint(0, 0), 1, "true", 1, 1, 0);
      var b := PendingJob(Zeros(16), Endpoint(0, 0), 2, "true", 1, 1, 0);
      var ok := Attempt(true, 0, true);
      && PassAsWritten([a, b], [ok, ok]).kept == [b]
      && PassIntended([a, b], [ok, ok]).kept == []
  {
    var a := PendingJob(Zeros(16), Endpoint(0, 0), 1, "true", 1, 1, 0);
    var b := PendingJob(Zeros(16), Endpoint(0, 0), 2, "true", 1, 1, 0);
    var ok := Attempt(true, 0, true);
    assert [a, b][1..] == [b] && [ok, ok][1..] == [ok];
    assert [a, b][2..] == [] && [ok, ok][2..] == [];
  }

  /** `process_pending_jobs`. `cwdOk` says whether `getcwd` succeeds; when it
      does not, nothing happens. `outs[i]` is the environment's behaviour for
      the job at index `i` of the table as the pass starts. Returns the
      results sent, the commands run and the lines logged, in order. */
  method ProcessPendingJobs(table: JobTable, cwdOk: bool, outs: seq<Attempt>)
    returns (sent: seq<Notice>, ran: seq<string>, logged: seq<LogLine>)
    requires |outs| >= |table.jobs|
    modifies table
    ensures !cwdOk ==> table.jobs == old(table.jobs) && sent == [] && ran == [] && logged == []
    ensures cwdOk ==>
      var p := PassAsWritten(old(table.jobs), outs);
      table.jobs == p.kept && sent == p.sent && ran == p.ran && logged == p.logged
  {
    sent, ran, logged := [], [], [];
    if !cwdOk {
      return;
    }
    var jobs := table.jobs;  // the table, `pending_jobs`
    ghost var orig := jobs;
    ghost var acc := Nothing;
    var pos := 0;  // how many of the original jobs the pass has got past
    var i := 0;
    while i < |jobs|
      invariant Visited(orig, outs, jobs, Done(sent, ran, logged), acc, pos, i)
      decreases |orig| - pos
    {
      VisitedAt(orig, outs, jobs, Done(sent, ran, logged), acc, pos, i);
      ghost var jobs0, sent0, ran0, logged0 := jobs, sent, ran, logged;
      var j := jobs[i];
      var o := outs[pos];
      var removed := false;
      if j.filesReceived >= j.fileCount {
        logged := logged + [StartLine(j)];
        if o.chdirOk {
          ran := ran + [j.command];
          logged := logged + [EndLine(j, o.exitCode)];
          if o.mallocOk {
            sent := sent + [Notice(j.clientAddr, ResultFor(j, o.exitCode))];
            jobs := jobs[..i] + jobs[i + 1..];  // the memmove
            removed := true;
          }
        }
      }
      VisitStep(orig, outs, jobs0, Done(sent0, ran0, logged0), acc, pos, jobs, Done(sent, ran, logged));
      acc := Then(acc, StepAt(orig, outs, pos));
      // after a removal, the job moved into slot `i` is passed over by `i++`
      pos := if removed && i < |jobs| then pos + 2 else pos + 1;
      i := i + 1;
    }
    VisitedAll(orig, outs, jobs, Done(sent, ran, logged), acc, pos, i);
    table.jobs := jobs;
  }

  /** The loop's outputs so far, as a result with no jobs in it. */
  function Done(sent: seq<Notice>, ran: seq<string>, logged: seq<LogLine>): PassResult
  {
    PassResult([], [], sent, ran, logged)
  }

  /** The loop invariant of `ProcessPendingJobs`: the table is the jobs kept
      so far followed by the unexamined original jobs, the results sent,
      commands run and lines logged (`out`) are those so far, `i` is the
      slot the loop reads next, and the rest of the pass resumes at `pos`. */
  ghost predicate Visited(orig: seq<PendingJob>, outs: seq<Attempt>, jobs: seq<PendingJob>,
                          out: PassResult, acc: PassResult, pos: int, i: int)
  {
    && |outs| >= |orig| && 0 <= pos <= |orig|
    && out.sent == acc.sent && out.ran == acc.ran && out.logged == acc.logged
    && jobs == acc.kept + orig[pos..]
    && (i == |acc.kept| || (i == |acc.kept| + 1 && pos == |orig|))
    && PassAsWritten(orig, outs) == Then(acc, PassAsWritten(orig[pos..], outs[pos..]))
  }

  /** The slot the loop reads holds the next unexamined original job. */
  lemma VisitedAt(orig: seq<PendingJob>, outs: seq<Attempt>, jobs: seq<PendingJob>,
                  out: PassResult, acc: PassResult, pos: int, i: int)
    requires Visited(orig, outs, jobs, out, acc, pos, i) && 0 <= i < |jobs|
    ensures i == |acc.kept| && pos < |orig| && pos < |outs| && jobs[i] == orig[pos]
  {
    At(acc.kept, orig, pos);
  }

  /** Once the loop runs off the table, the pass is complete. */
  lemma VisitedAll(orig: seq<PendingJob>, outs: seq<Attempt>, jobs: seq<PendingJob>,
                   out: PassResult, acc: PassResult, pos: int, i: int)
    requires Visited(orig, outs, jobs, out, acc, pos, i) && i >= |jobs|
    ensures var p := PassAsWritten(orig, outs);
      jobs == p.kept && out.sent == p.sent && out.ran == p.ran && out.logged == p.logged
  {
    assert orig[pos..] == [];
    assert acc.kept + [] == acc.kept && acc.sent + [] == acc.sent && acc.ran + [] == acc.ran;
    assert acc.logged + [] == acc.logged;
  }

  /** The outputs after a step: those before, followed by the step's. */
  predicate Follows(out': PassResult, out: PassResult, step: PassResult)
  {
    out'.sent == out.sent + step.sent && out'.ran == out.ran + step.ran && out'.logged == out.logged + step.logged
  }

  /** The loop keeps the job in slot `i`, possibly after running its
      command. */
  lemma VisitKept(orig: seq<PendingJob>, outs: seq<Attempt>, jobs: seq<PendingJob>, out: PassResult,
                  out': PassResult, acc: PassResult, pos: nat, step: PassResult)
    requires Visited(orig, outs, jobs, out, acc, pos, |acc.kept|) && pos < |orig|
    requires || ((!Ready(orig[pos]) || !outs[pos].chdirOk) && step == Unrun(orig[pos]))
             || (Ready(orig[pos]) && outs[pos].chdirOk && !outs[pos].mallocOk
                 && step == RanKept(orig[pos], outs[pos].exitCode))
    requires Follows(out', out, step)
    ensures Visited(orig, outs, jobs, out', Then(acc, step), pos + 1, |acc.kept| + 1)
  {
    StepKept(orig, outs, acc, pos, step);
    KeepOne(acc.kept, orig, pos);
    assert acc.kept + step.kept == acc.kept + [orig[pos]];
  }

  /** The loop removes the job in slot `i` after sending its result; the
      job that moves into the slot is passed over. */
  lemma VisitFinished(orig: seq<PendingJob>, outs: seq<Attempt>, jobs: seq<PendingJob>,
                      out: PassResult, out': PassResult, acc: PassResult, pos: nat)
    requires Visited(orig, outs, jobs, out, acc, pos, |acc.kept|) && pos < |orig|
    requires Completes(orig[pos], outs[pos])
    requires Follows(out', out, Finished(orig[pos], outs[pos].exitCode))
    ensures var jobs' := jobs[..|acc.kept|] + jobs[|acc.kept| + 1..];
      var f := Finished(orig[pos], outs[pos].exitCode);
      && (|acc.kept| < |jobs'| ==>
            pos + 1 < |orig| &&
            Visited(orig, outs, jobs', out', Then(acc, Then(f, Kept(orig[pos + 1]))), pos + 2, |acc.kept| + 1))
      && (|acc.kept| >= |jobs'| ==>
            Visited(orig, outs, jobs', out', Then(acc, f), pos + 1, |acc.kept| + 1))
  {
    var f := Finished(orig[pos], outs[pos].exitCode);
    DropAt(acc.kept, orig, pos);
    StepFinished(orig, outs, pos);
    if pos + 1 < |orig| {
      At(acc.kept, orig, pos + 1);
      KeepOne(acc.kept, orig, pos + 1);
      var step := Then(f, Kept(orig[pos + 1]));
      Regroup(PassAsWritten(orig, outs), acc, step, PassAsWritten(orig[pos + 2..], outs[pos + 2..]),
              PassAsWritten(orig[pos..], outs[pos..]));
      assert step.kept == [orig[pos + 1]] && step.sent == f.sent && step.ran == f.ran && step.logged == f.logged;
    } else {
      Regroup(PassAsWritten(orig, outs), acc, f, Nothing, PassAsWritten(orig[pos..], outs[pos..]));
      assert orig[pos + 1..] == [];
      assert acc.kept + f.kept == acc.kept;
    }
  }

  /** What the pass as written does on reaching the job that started at
      `pos`: keep it, run it and keep it, or finish it and pass over the
      job that moves into its slot. */
  ghost function StepAt(orig: seq<PendingJob>, outs: seq<Attempt>, pos: nat): PassResult
    requires pos < |orig| <= |outs|
  {
    Front(orig[pos..], outs[pos..])
  }

  /** Where the pass as written resumes after the job that started at `pos`. */
  ghost function Advance(orig: seq<PendingJob>, outs: seq<Attempt>, pos: nat): nat
    requires pos < |orig| <= |outs|
  {
    pos + Skip(orig[pos..], outs[pos..])
  }

  /** The step at `pos`, read off the original table. */
  lemma StepAtIs(orig: seq<PendingJob>, outs: seq<Attempt>, pos: nat)
    requires pos < |orig| <= |outs|
    ensures var j, o := orig[pos], outs[pos];
      && StepAt(orig, outs, pos) ==
           (if !Ready(j) || !o.chdirOk then Unrun(j)
            else if !o.mallocOk then RanKept(j, o.exitCode)
            else if pos + 1 < |orig| then Then(Finished(j, o.exitCode), Kept(orig[pos + 1]))
            else Finished(j, o.exitCode))
      && Advance(orig, outs, pos) == (if Completes(j, o) && pos + 1 < |orig| then pos + 2 else pos + 1)
  {
    assert orig[pos..][0] == orig[pos] && outs[pos..][0] == outs[pos];
    if pos + 1 < |orig| {
      assert orig[pos..][1] == orig[pos + 1];
    }
  }

  /** The outputs of one iteration of the loop on the job that started at
      `pos`: the announcement if it is ready, and once `chdir` succeeds the
      command, the report and, when `malloc` succeeds, the result. */
  ghost predicate Iterated(orig: seq<PendingJob>, outs: seq<Attempt>, pos: nat, out: PassResult, out': PassResult)
    requires pos < |orig| <= |outs|
  {
    var j, o := orig[pos], outs[pos];
    && out'.logged == (if !Ready(j) then out.logged
                       else if !o.chdirOk then out.logged + [StartLine(j)]
                       else out.logged + [StartLine(j)] + [EndLine(j, o.exitCode)])
    && out'.ran == (if Ready(j) && o.chdirOk then out.ran + [j.command] else out.ran)
    && out'.sent == (if Completes(j, o) then out.sent + [Notice(j.clientAddr, ResultFor(j, o.exitCode))]
                     else out.sent)
  }

  /** One iteration of the loop keeps the invariant. */
  lemma VisitStep(orig: seq<PendingJob>, outs: seq<Attempt>, jobs: seq<PendingJob>,
                  out: PassResult, acc: PassResult, pos: nat, jobs': seq<PendingJob>, out': PassResult)
    requires Visited(orig, outs, jobs, out, acc, pos, |acc.kept|) && pos < |orig|
    requires Iterated(orig, outs, pos, out, out')
    requires jobs' == if Completes(orig[pos], outs[pos]) then jobs[..|acc.kept|] + jobs[|acc.kept| + 1..] else jobs
    ensures Visited(orig, outs, jobs', out', Then(acc, StepAt(orig, outs, pos)),
                    Advance(orig, outs, pos), |acc.kept| + 1)
    ensures Completes(orig[pos], outs[pos]) ==> (|acc.kept| < |jobs'| <==> pos + 1 < |orig|)
    ensures Advance(orig, outs, pos) == if Completes(orig[pos], outs[pos]) && pos + 1 < |orig| then pos + 2 else pos + 1
  {
    var j, o := orig[pos], outs[pos];
    StepAtIs(orig, outs, pos);
    if !Ready(j) || !o.chdirOk {
      assert StepAt(orig, outs, pos) == Unrun(j) && Advance(orig, outs, pos) == pos + 1;
      assert out'.sent == out.sent + [] && out'.ran == out.ran + [];
      if !Ready(j) {
        assert out'.logged == out.logged + [];
      }
      VisitKept(orig, outs, jobs, out, out', acc, pos, Unrun(j));
    } else if !o.mallocOk {
      assert StepAt(orig, outs, pos) == RanKept(j, o.exitCode) && Advance(orig, outs, pos) == pos + 1;
      assert out'.sent == out.sent + [];
      assert out'.logged == out.logged + [StartLine(j), EndLine(j, o.exitCode)];
      VisitKept(orig, outs, jobs, out, out', acc, pos, RanKept(j, o.exitCode));
    } else {
      if pos + 1 < |orig| {
        assert StepAt(orig, outs, pos) == Then(Finished(j, o.exitCode), Kept(orig[pos + 1]));
      } else {
        assert StepAt(orig, outs, pos) == Finished(j, o.exitCode);
      }
      assert out'.logged == out.logged + [StartLine(j), EndLine(j, o.exitCode)];
      VisitFinished(orig, outs, jobs, out, out', acc, pos);
      DropAt(acc.kept, orig, pos);
    }
  }

  /** The pass as written, resumed at `pos`, keeps the job there (or runs
      its command and keeps it) and goes on at `pos + 1`. */
  lemma StepKept(orig: seq<PendingJob>, outs: seq<Attempt>, acc: PassResult, pos: nat, step: PassResult)
    requires |outs| >= |orig| && pos < |orig|
    requires PassAsWritten(orig, outs) == Then(acc, PassAsWritten(orig[pos..], outs[pos..]))
    requires || ((!Ready(orig[pos]) || !outs[pos].chdirOk) && step == Unrun(orig[pos]))
             || (Ready(orig[pos]) && outs[pos].chdirOk && !outs[pos].mallocOk
                 && step == RanKept(orig[pos], outs[pos].exitCode))
    ensures PassAsWritten(orig, outs) == Then(Then(acc, step), PassAsWritten(orig[pos + 1..], outs[pos + 1..]))
  {
    UnfoldAsWritten(orig[pos..], outs[pos..]);
    assert orig[pos..][1..] == orig[pos + 1..] && outs[pos..][1..] == outs[pos + 1..];
    ThenAssoc(acc, step, PassAsWritten(orig[pos + 1..], outs[pos + 1..]));
  }

  /** The pass as written, resumed at `pos` on a job that completes,
      finishes it and passes over the next job, if there is one. */
  lemma StepFinished(orig: seq<PendingJob>, outs: seq<Attempt>, pos: nat)
    requires |outs| >= |orig| && pos < |orig|
    requires Completes(orig[pos], outs[pos])
    ensures pos + 1 == |orig| ==>
      PassAsWritten(orig[pos..], outs[pos..]) == Then(Finished(orig[pos], outs[pos].exitCode), Nothing)
    ensures pos + 1 < |orig| ==>
      PassAsWritten(orig[pos..], outs[pos..]) ==
        Then(Then(Finished(orig[pos], outs[pos].exitCode), Kept(orig[pos + 1])),
             PassAsWritten(orig[pos + 2..], outs[pos + 2..]))
  {
    UnfoldAsWritten(orig[pos..], outs[pos..]);
    if pos + 1 < |orig| {
      assert orig[pos..][2..] == orig[pos + 2..] && outs[pos..][2..] == outs[pos + 2..];
    }
  }

  /** Regrouping the accumulated result: `tail`, what is left of the pass,
      splits into the step just taken and the rest. */
  lemma Regroup(total: PassResult, acc: PassResult, step: PassResult, rest: PassResult, tail: PassResult)
    requires total == Then(acc, tail) && tail == Then(step, rest)
    ensures total == Then(Then(acc, step), rest)
  {
    ThenAssoc(acc, step, rest);
  }

  /** The job at the boundary between the examined and unexamined parts. */
  lemma At<T>(kept: seq<T>, orig: seq<T>, pos: nat)
    requires pos <= |orig|
    ensures |kept| < |kept + orig[pos..]| ==> pos < |orig| && (kept + orig[pos..])[|kept|] == orig[pos]
  {
  }

  /** Moving one element from the unexamined part to the examined part. */
  lemma KeepOne<T>(kept: seq<T>, orig: seq<T>, pos: nat)
    requires pos < |orig|
    ensures kept + orig[pos..] == (kept + [orig[pos]]) + orig[pos + 1..]
  {
    assert orig[pos..] == [orig[pos]] + orig[pos + 1..];
  }

  /** Deleting the element at the boundary (the `memmove`). */
  lemma DropAt<T>(kept: seq<T>, orig: seq<T>, pos: nat)
    requires pos < |orig|
    ensures var s := kept + orig[pos..];
      s[..|kept|] + s[|kept| + 1..] == kept + orig[pos + 1..]
  {
    var s := kept + orig[pos..];
    assert s[..|kept|] == kept;
    assert s[|kept| + 1..] == orig[pos + 1..];
  }
}
