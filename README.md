# Video-processing job server: verified model of its bookkeeping

The system is a C server that takes video-processing jobs over UDP, plus a
Python client that talks to it. A client first asks for a 16-octet
identity. It then registers a job (a shell command and the number of input
files it expects) and uploads the files over TCP. When every file has
arrived, the server runs the command in the job's directory, sends a
JOB_RESULT datagram back and forgets the job. An admin console on a local
socket takes text commands, and a log bus feeds it server log lines.

This project models, in Dafny, the parts of that system that keep state in
memory and the bytes on the wire. Each operation carries a contract, and
lemmas state what the code promises.

| module (file) | models |
|---|---|
| `Common` (common.dfy) | optional values, octets, `strncpy`-style truncation, socket addresses, the file-system view the server sees |
| `Wire` (wire.dfy) | fixed-width integers in either byte order; packed record layouts with encode/decode round trips |
| `Protocol` (protocol.dfy) | `src/common/protocol.h`: constants, type tags and packed message layouts with their codec; the status codes of `src/shared/protocol.h` |
| `LogBus` (log_queue.dfy) | `src/server/log_queue.c`: the 100-slot ring of log lines, as a class over an array |
| `Heap` (minheap.dfy) | `src/server/minheap.c`: the bounded binary min-heap with sift-up and sift-down in place |
| `JobHandler` (job_handler.dfy) | `src/server/job_handler.c`: the job-directory name and `create_job` appending to the pending-job table |
| `UploadHandler` (upload_handler.dfy) | `src/server/upload_handler.c`: the priority-sorted upload queue, `process_upload`, download acks and the download queue |
| `Processing` (processing.dfy) | `src/server/processing.c`: one pass of `process_pending_jobs` over the table |
| `AdminHandler` (admin_handler.dfy) | `src/server/admin_handler.c`: `trim_whitespace` on a buffer, tokenising, and the command dispatcher |
| `Client2` (client.dfy) | `src/client/client2.py`: the client's packets, reply parsers, resend loop and job bookkeeping |

Environment effects are parameters (oracles) of the operations:

- The file system `stat` sees is a `FileSystem` map. Whether `mkdir`, `realloc`, `getcwd`, `chdir`, `malloc`, `accept` and `open` succeed is a boolean argument.
- The values `recv` and `write` return are sequences.
- The value `system` returns is an `exitCode`.
- `time(NULL)` is `now`. What each `recvfrom` does is a `Recv` value.
- Datagrams sent are returned as values.

## Model

| member | source | states |
|---|---|---|
| Common.Truncate | src/server/job_handler.c:55-56 | what `strncpy(dst, src, n)` followed by a terminator keeps: a prefix of the input of at most `n` characters, the whole input when it fits |
| Wire.DecodeEncode | src/common/protocol.h:26-91 | decoding a packed record that was encoded gives the field values back, whatever octets follow it |
| Wire.EncodeDecode | src/common/protocol.h:26-91 | a buffer long enough for a layout decodes, and re-encoding the values gives exactly the octets read |
| Wire.FieldAt | src/common/protocol.h:26-91 | in a packed encoding, field `i` occupies `Offset(l, i)` to `Offset(l, i) + width` and holds that field's own encoding (no padding) |
| Wire.UintRoundTrip | src/common/protocol.h:26-91 | an integer that fits in `w` octets survives encoding and decoding in either byte order |
| Wire.UintRoundTripBytes | src/common/protocol.h:26-91 | any `w` octets decode to an integer that encodes back to those octets |
| Protocol.TypeFromCode | src/common/protocol.h:13-23 | codes 1..8 map to the eight message types and every other code is unknown; the mapping inverts `TypeCode` |
| Protocol.TypeCodesConsecutive | src/common/protocol.h:13-23 | the tags run from CLIENT_ID_REQ = 1 to JOB_RESULT = 8 with no gaps and no repeats |
| Protocol.IdentitySizes | src/common/protocol.h:26-41 | ClientIdReq is 5 octets; ClientIdAck is 21 with the id at offset 5; Heartbeat is 17 with the id at offset 1 |
| Protocol.JobReqSize | src/common/protocol.h:43-51 | JobReq has a 28-octet header whose last field is the 2-octet `cmd_len` at 26, then a 1024-octet command |
| Protocol.UploadSizes | src/common/protocol.h:62-80 | UploadReq is 34 + 256 octets; UploadAck puts status after the 256-octet name field, at offset 262, and is 269 octets |
| Protocol.MessageFieldSizes | src/common/protocol.h:53-60 | JobAck and JobResult carry a one-octet `msg_len` beside a 1024-octet message field; JobResult's message starts at 27 |
| Protocol.NameLenBound | src/common/protocol.h:62-70 | a one-octet `name_len` declares at most 255, one less than the 256-octet name field |
| Protocol.MessageRoundTrip | src/common/protocol.h:26-91 | every well-formed message decodes back to itself from its encoding, whatever follows it |
| Protocol.TruncatedIsMalformed | src/common/protocol.h:26-91 | any proper prefix of an encoded message is rejected |
| Protocol.MessageReencodes | src/common/protocol.h:26-91 | any buffer that decodes holds, up to the end of its layout, exactly the encoding of the well-formed message read from it |
| LogBus.Stored | src/server/log_queue.c:24-25 | a stored entry is the pushed text cut to at most LOG_ENTRY_MAX - 1 characters, so the slot always has room for its terminator |
| LogBus.PushSpecShape | src/server/log_queue.c:19-27 | a push never exceeds the capacity; on a full queue exactly the oldest entry goes and the count stays 100; otherwise the entry is appended and nothing earlier changes |
| LogBus.PushAllKeepsLatest | src/server/log_queue.c:17-30 | after any run of pushes the queue holds the most recent 100 stored entries, oldest first |
| LogBus.LogQueue.Init | src/server/log_queue.c:8-14 | the new queue is empty with head = tail = count = 0 |
| LogBus.LogQueue.Push | src/server/log_queue.c:17-30 | the ring invariant (`tail == (head + count) % 100`, `0 <= count <= 100`, slots match the contents) is kept and the contents become `PushSpec(old contents, entry)` |
| LogBus.LogQueue.DropOldest | src/server/log_queue.c:19-23 | head advances past the oldest slot and the contents lose their first entry; tail and the slots are untouched |
| LogBus.LogQueue.Append | src/server/log_queue.c:24-27 | on a non-full ring the entry lands at tail, tail advances modulo 100 and the contents gain it at the end |
| LogBus.LogQueue.PopTimed | src/server/log_queue.c:35-67 | a non-empty queue returns 1 and its oldest entry, which it removes; an empty queue returns 0 on timeout or -1 on a wait error and is unchanged |
| Heap.RootIsMin | src/server/minheap.c:19-30 | in a heap the root's priority is at most every element's |
| Heap.RootIsMinOfElements | src/server/minheap.c:22-23 | the root of a non-empty heap has a priority no larger than any stored job's |
| Heap.MoveLastToFront | src/server/minheap.c:25-26 | moving the last job to the root and shrinking removes exactly the old root from the multiset |
| Heap.UpStep | src/server/minheap.c:32-43 | one sift-up swap keeps the sift-up invariant one level nearer the root |
| Heap.DownStep | src/server/minheap.c:45-69 | one sift-down swap with the smallest child keeps the sift-down invariant one level lower |
| Heap.PopStart | src/server/minheap.c:25-27 | after the last job replaces the root, only a sift-down from the root remains to restore the heap |
| Heap.MinHeap.Init | src/server/minheap.c:4-9 | an empty heap of the given capacity |
| Heap.MinHeap.Swap | src/server/minheap.c:37-39 | exchanges two slots and nothing else, so the multiset of the first `n` is unchanged |
| Heap.MinHeap.HeapifyUp | src/server/minheap.c:32-43 | given a heap below `index`, leaves a heap through `index`, permutes only those slots and leaves later slots alone |
| Heap.MinHeap.HeapifyDown | src/server/minheap.c:45-69 | from the sift-down state at `index`, leaves a heap of `size` jobs, permutes only those and leaves later slots alone |
| Heap.MinHeap.Push | src/server/minheap.c:11-17 | a full heap is left exactly as it was; otherwise size rises by one, the multiset gains the job and the heap property holds |
| Heap.MinHeap.Pop | src/server/minheap.c:19-30 | an empty heap yields nothing and is unchanged; otherwise it returns a job of minimal priority, size falls by one and the multiset loses that job |
| JobHandler.UnHexHex | src/server/job_handler.c:20-21 | reading back `%0Nx` output gives the number printed |
| JobHandler.HexUnHex | src/server/job_handler.c:20-21 | every readable hex string is the `%0Nx` output of the value read |
| JobHandler.JobDirPath | src/server/job_handler.c:19-21 | the job directory name is 24 characters: `processing/`, four hex digits, `_`, eight hex digits |
| JobHandler.ParseJobDirPath | src/server/job_handler.c:19-21 | the directory name records the first two client-id octets and the job id, and they can be read back from it |
| JobHandler.JobDirPathParse | src/server/job_handler.c:19-21 | every name the parser accepts is the directory of the job it names |
| JobHandler.JobDirSharing | src/server/job_handler.c:19-21 | two jobs share a directory exactly when their job ids and the first two client-id octets agree |
| JobHandler.NewJob | src/server/job_handler.c:52-59 | the new record has the caller's client id, address, job id and file count, the command cut to 1023 characters, no files received and the current time |
| JobHandler.AfterMkdir | src/server/job_handler.c:26-40 | after the directory step the path is a directory exactly when it already was one or was absent and `mkdir` succeeded; no other path changes |
| JobHandler.JobTable.CreateJob | src/server/job_handler.c:18-68 | returns 1 and appends exactly the new record when the directory is ready and `realloc` succeeds; otherwise returns 0 with the table unchanged; there is no duplicate check |
| UploadHandler.InsertPos | src/server/upload_handler.c:217-224 | the backward scan stops just after the last job the new one does not outrank; it outranks every job after that point |
| UploadHandler.InsertPosAt | src/server/upload_handler.c:217-224 | the scan position is the one boundary where the new job outranks everything after it but not the job before |
| UploadHandler.InsertedPermutation | src/server/upload_handler.c:217-226 | insertion adds exactly the new job: the queue after is a permutation of the queue before plus that job |
| UploadHandler.InsertedOrdered | src/server/upload_handler.c:217-226 | insertion keeps the queue in priority order, and a new job goes after every queued job of equal priority |
| UploadHandler.DequeuedOrdered | src/server/upload_handler.c:74-77 | the job taken from the front of an ordered queue is outranked by no queued job, and the jobs left stay in priority order |
| UploadHandler.FilePath | src/server/upload_handler.c:132-137 | the file's path is the job directory, `/` and the name, within 511 characters |
| UploadHandler.NameLen | src/server/upload_handler.c:237 | `strlen(filename)` stored in a 16-bit field: the length modulo 65536 |
| UploadHandler.UploadQueue.Init | src/server/upload_handler.c:45-50 | an empty queue with capacity 10 |
| UploadHandler.UploadQueue.Enqueue | src/server/upload_handler.c:210-226 | a full array doubles first; the queued jobs become `Inserted(old jobs, job)` and size rises by one |
| UploadHandler.UploadQueue.Grow | src/server/upload_handler.c:210-215 | capacity doubles and the queued jobs are unchanged |
| UploadHandler.UploadQueue.Insert | src/server/upload_handler.c:217-226 | the shifting loop leaves exactly `Inserted(old jobs, job)` in the array |
| UploadHandler.UploadQueue.OpenSlot | src/server/upload_handler.c:217-224 | the loop shifts every job of lower priority than the new one up a place and stops at the first slot whose left neighbour is not lower |
| UploadHandler.UploadQueue.Dequeue | src/server/upload_handler.c:74-77 | returns the front job and the rest move up one place in order |
| UploadHandler.HandleUploadRequest | src/server/upload_handler.c:194-253 | queues the upload by priority with the name cut to 255 characters; replies STATUS_OK with the client's address, the server port and the first `name_len` name characters |
| UploadHandler.FirstMatch | src/server/upload_handler.c:106-113 | the index of the first pending job with this client id and job id, or none when no job matches |
| UploadHandler.FindPendingJob | src/server/upload_handler.c:104-114 | the scanning loop finds a job exactly when `FirstMatch` does, at the same index |
| UploadHandler.CreatedJobIsFound | src/server/job_handler.c:42-61 | a job just appended is the one an upload finds, unless an older record with the same client and id shadows it |
| UploadHandler.Transfer | src/server/upload_handler.c:146-172 | the octets the receive loop counts never exceed the file size |
| UploadHandler.Wrote | src/server/upload_handler.c:163-167 | a `write` leaves at most the chunk it was given in the file, and nothing when it fails |
| UploadHandler.Landed | src/server/upload_handler.c:146-172 | the octets the receive loop leaves in the file never exceed the file size |
| UploadHandler.LandedBound | src/server/upload_handler.c:146-172 | the file holds at least what the loop counts and at most one 4096-octet buffer more: only the chunk of a short final write is uncounted |
| UploadHandler.ShortWriteStays | src/server/upload_handler.c:132-172 | a ten-octet upload whose only write stores four octets: the loop counts nothing, yet those four octets stay in the truncated file |
| UploadHandler.TransferComplete | src/server/upload_handler.c:151-172 | when every `recv` fills the buffer and no write falls short, enough calls bring in the whole file and the file holds all of it |
| UploadHandler.ReceiveFile | src/server/upload_handler.c:146-172 | the receive loop counts `Transfer` octets and leaves `Landed` octets in the file, stopping at a closed connection, a failed `recv` or a short write |
| UploadHandler.Arrived | src/server/upload_handler.c:184-185 | one more file received and the update time set; no other field changes |
| UploadHandler.ProcessUpload | src/server/upload_handler.c:99-192 | no matching job, a failed `accept` or a failed `open` changes nothing; otherwise the count is `Transfer`, the truncated file holds the `Landed` octets (a short final write included), and the first matching job counts one more file even after a short transfer |
| UploadHandler.DownloadAck | src/server/upload_handler.c:264-295 | STATUS_OK with the file's size exactly when something is at the path; otherwise STATUS_FILE_NOT_FOUND with size 0 |
| UploadHandler.DownloadSeesUpload | src/server/upload_handler.c:136-137 | a file an upload wrote is offered for download with the size written, when its name fitted the 255-character field |
| UploadHandler.DownloadQueue.Append | src/server/upload_handler.c:319-327 | doubles a full array, then appends the job at the back |
| UploadHandler.HandleDownloadRequest | src/server/upload_handler.c:255-333 | replies with `DownloadAck`; queues a download at the back only when the file exists, otherwise leaves the queue alone |
| Processing.ResultFor | src/server/processing.c:49-64 | STATUS_OK with "Job completed successfully" exactly when the command returned 0, otherwise STATUS_ERROR with "Job execution failed"; `msg_len` is the message length |
| Processing.AsWrittenAccounts | src/server/processing.c:26-100 | the pass as written removes only ready jobs, sends each removed job's result to that job's client, loses and invents no job, runs the command of every removed job, logs one report per command run and at least as many announcements |
| Processing.IntendedAccounts | src/server/processing.c:26-100 | the same for the corrected pass |
| Processing.IntendedKeepsStayers | src/server/processing.c:26-100 | the corrected pass keeps exactly the jobs that are not ready or whose `chdir` or `malloc` fails, in table order |
| Processing.AsWrittenKeepsStayers | src/server/processing.c:26-100 | the pass as written keeps at least every job the corrected pass keeps |
| Processing.AsWrittenKeepsStayersInOrder | src/server/processing.c:26-100 | the pass as written keeps every job the corrected pass keeps, in the same relative order |
| Processing.AsWrittenKeepsOrder | src/server/processing.c:89-92 | after the pass as written, the jobs left and the jobs removed are the table split in two, each part in table order |
| Processing.ChdirFailureAnnounced | src/server/processing.c:27-46 | a ready job whose `chdir` fails is announced in the log, yet its command does not run, nothing is sent and it stays |
| Processing.UnfoldAsWritten | src/server/processing.c:26-92 | one step of the pass as written; after a removal the job shifted into slot `i` stays unexamined |
| Processing.AsWrittenSkipsNextJob | src/server/processing.c:26-92 | with two ready jobs that both run, the pass as written leaves the second in the table and the corrected pass removes both |
| Processing.ProcessPendingJobs | src/server/processing.c:18-103 | a failed `getcwd` changes nothing and logs nothing; otherwise the table, the results sent, the commands run and the lines logged are those of `PassAsWritten` on the original table |
| AdminHandler.RStrip | src/server/admin_handler.c:30-32 | the right trim keeps a prefix, ends on a non-space, and drops only whitespace |
| AdminHandler.Trimmed | src/server/admin_handler.c:22-33 | an all-whitespace string is left unchanged; otherwise the trailing whitespace goes and leading whitespace stays |
| AdminHandler.TrimmedBuffer | src/server/admin_handler.c:22-33 | the buffer after trimming holds the trimmed string; only the terminator position changes |
| AdminHandler.TrimWhitespace | src/server/admin_handler.c:22-33 | the scanning loops leave the buffer equal to `TrimmedBuffer(old buffer)` |
| AdminHandler.SkipIn | src/server/admin_handler.c:49-50 | strtok's skip over delimiters: everything skipped is a delimiter and the next character is not |
| AdminHandler.SkipOut | src/server/admin_handler.c:49-50 | strtok's scan to the next delimiter: nothing scanned is a delimiter and the stop is at a delimiter or the end |
| AdminHandler.FirstToken | src/server/admin_handler.c:49 | no command word exactly when every character is a space, tab or newline; otherwise the first maximal run of other characters |
| AdminHandler.NextToken | src/server/admin_handler.c:50 | the argument is the rest of the line after the command word, up to a newline, if any is left |
| AdminHandler.AtoiDecimal | src/server/admin_handler.c:99-101 | `atoi` reads back what `%d` prints, for every integer |
| AdminHandler.AtoiUnsigned | src/server/admin_handler.c:99-101 | `atoi` of a plain run of digits is the run's decimal value |
| AdminHandler.AtoiNegative | src/server/admin_handler.c:99-101 | `atoi` of `-` and a run of digits is minus the run's decimal value |
| AdminHandler.ClassifyIff | src/server/admin_handler.c:52-125 | a word selects a command exactly when it equals that command's name ignoring case |
| AdminHandler.WordsDistinct | src/server/admin_handler.c:52-125 | no word matches two command names |
| AdminHandler.AsWrittenFailsIff | src/server/admin_handler.c:40-52 | the handler as written reaches `strcasecmp(NULL, ...)` exactly on a non-empty line of spaces, tabs and newlines |
| AdminHandler.BlankLineFails | src/server/admin_handler.c:42-52 | the line "\n" reaches `strcasecmp` with no command word; the corrected handler answers it with the prompt |
| AdminHandler.IntendedAgrees | src/server/admin_handler.c:40-129 | where the handler as written answers, the corrected one answers the same; elsewhere it sends only the prompt |
| AdminHandler.EmptyLinePromptOnly | src/server/admin_handler.c:44-47 | an empty line gets only the prompt and `show_logs` is unchanged |
| AdminHandler.FlagTransitions | src/server/admin_handler.c:75-124 | `show_logs` becomes 1 after SHOW_LOGS, 0 after STOP_LOGS and -1 after EXIT, in any case, and stays as it was otherwise |
| AdminHandler.RespondPrompt | src/server/admin_handler.c:52-128 | every answer ends with the prompt except those to SHOW_LOGS and EXIT |
| AdminHandler.PromptFollows | src/server/admin_handler.c:40-128 | a line with no command word gets only the prompt; otherwise the prompt follows unless the command is SHOW_LOGS or EXIT |
| AdminHandler.UsageDropsNewline | src/server/admin_handler.c:84-108 | KICK_CLIENT, SET_MAX_UPLOADS and SET_MAX_DOWNLOADS without an argument send their usage line without its final newline, then the prompt, and change nothing |
| AdminHandler.SetMaxEchoes | src/server/admin_handler.c:99-111 | SET_MAX_UPLOADS and SET_MAX_DOWNLOADS with a number only echo it and leave `show_logs` alone |
| Client2.FixedBytes | src/client/client2.py:58 | a `16s` item is the bytes cut to 16 or padded with NULs to 16 |
| Client2.IdRequest | src/client/client2.py:42-43 | the identity request is 5 octets: tag 1, then the message id big-endian |
| Client2.Heartbeat | src/client/client2.py:58 | the heartbeat is 17 octets: tag 2, then the 16-octet id |
| Client2.JobRequest | src/client/client2.py:86-90 | packing fails exactly when the job id, file count or command length is out of range for its item; otherwise the packet is 28 + len(cmd) octets |
| Client2.JobRequestFields | src/client/client2.py:88-90 | tag 3, message id at 1, client id at 5, job id at 21, file count at 25, `cmd_len` = the command's length at 26, the command from 28 |
| Client2.UploadRequest | src/client/client2.py:102-109 | packing fails exactly when the job id, file size or name length is out of range; otherwise the packet is 34 + n octets |
| Client2.UploadRequestFields | src/client/client2.py:107-109 | tag 5, message id, client id, job id at 21, the 8-octet size at 25, the one-octet name length at 33, the name from 34 |
| Client2.DownloadRequest | src/client/client2.py:144-148 | packing fails exactly when the job id or name length is out of range; otherwise the packet is 26 + n octets |
| Client2.DownloadRequestFields | src/client/client2.py:146-148 | tag 6, message id, client id, job id at 21, the one-octet name length at 25, the name from 26 |
| Client2.ParseIdAck | src/client/client2.py:45-49 | an identity ack is accepted exactly when the reply is at least 21 octets with type 2; the id is octets 5 to 20 |
| Client2.IdAckRoundTrip | src/client/client2.py:45-49 | an identity ack yields its id, whatever follows it |
| Client2.IdAckAccepted | src/client/client2.py:45-49 | every accepted reply starts with the identity ack of the id read |
| Client2.ParseJobAck | src/client/client2.py:92-94 | parsed exactly when at least 11 octets arrived; the message is `data[11:11+msg_len]`, never longer than declared and never past the reply |
| Client2.JobAckRoundTrip | src/client/client2.py:92-94 | a job ack yields its status and exactly its message, whatever follows it |
| Client2.ParseTransferAckAsWritten | src/client/client2.py:111-116 | the parse as written raises exactly when a reply of at least 10 octets is shorter than 13 + `name_len` |
| Client2.ParseTransferAck | src/client/client2.py:111-119 | the corrected parse accepts exactly the replies holding the name and the seven status, address and port octets after it |
| Client2.ShortAckRaises | src/client/client2.py:111-116 | ten zero octets pass the `>= 10` guard and make `struct.unpack` raise |
| Client2.TransferAckAgrees | src/client/client2.py:111-119 | where the code as written returns, the corrected parse returns the same; where it raises, the corrected parse reports no ack |
| Client2.TransferAckRoundTrip | src/client/client2.py:111-119 | an upload or download ack yields its status, address and name, whatever follows it |
| Client2.TransferAckAccepted | src/client/client2.py:111-119 | every accepted reply starts with the transfer ack of what was read |
| Client2.ParseJobResultAsWritten | src/client/client2.py:69-74 | the listener as written raises exactly on an empty datagram |
| Client2.ParseJobResult | src/client/client2.py:70-74 | a result is recognised exactly for type 7 and at least 27 octets; job id from octets 21-24, status octet 25, message at most `msg_len` octets from 27 |
| Client2.EmptyDatagramRaises | src/client/client2.py:69-70 | an empty datagram raises in the listener as written and is ignored by the corrected parse |
| Client2.JobResultAgrees | src/client/client2.py:69-74 | on every non-empty datagram the corrected parse agrees with the code as written |
| Client2.JobResultRoundTrip | src/client/client2.py:70-74 | a JOB_RESULT datagram yields its job id, status and exactly its message, whatever follows it |
| Client2.RetryFrom | src/client/client2.py:27-38 | at most three sends; all attempts before the last were timeouts; a reply is the last attempt's datagram cut to 1024 octets; no reply means a socket error or three timeouts |
| Client2.RetryAfterTimeouts | src/client/client2.py:28-37 | after `k` timeouts, a datagram at attempt `k` is returned after `k + 1` sends, and a socket error ends with none |
| Client2.AllTimeouts | src/client/client2.py:28-38 | three timeouts give no reply after three sends |
| Client2.SendWithRetry | src/client/client2.py:27-38 | the loop returns `Retry(net)`'s reply and sends the packet once per attempt made |
| Client2.VideoClient.constructor | src/client/client2.py:16-25 | no id, no jobs, running |
| Client2.VideoClient.SendClientIdReq | src/client/client2.py:41-52 | returns True and keeps the id exactly when the reply is an accepted identity ack; otherwise the id is unchanged |
| Client2.VideoClient.CreateJob | src/client/client2.py:85-99 | without an id or with an item out of range it raises before sending; otherwise the job is recorded as pending, under the caller's job id, exactly when the ack's status is 1 |
| Client2.VideoClient.SendUploadRequest | src/client/client2.py:101-120 | raises before sending when there is no id or an item is out of range; otherwise (status == 1, address) for an ack and (False, None) without one |
| Client2.VideoClient.SendDownloadRequest | src/client/client2.py:143-159 | as the upload request, with the name the ack carries |
| Client2.VideoClient.ReceiveResult | src/client/client2.py:70-77 | a result for a known job marks it done; no job is added or dropped and no other job changes |

## Left out

- Threads, mutexes and condition variables. Every operation is one atomic sequential step. This leaves out the upload threads' wait loop and `active_uploads`, the blocking wait in `log_queue_pop_timed`, the heartbeat and listener threads, and `shutdown`.
- LogBus.LogQueue.PopTimed: only a finite timeout on an empty queue is modelled. No producer can run during the wait in a sequential model, so the wait ends with a timeout or an error; the clock arithmetic is not modelled.
- Socket, file and process I/O become oracle parameters: `sendto`, `recv`, `accept`, `open`, `write`, `stat`, `chmod`, `mkdir`, `chdir`, `getcwd` and `system`. The UDP poll loop in `server.c`, the admin socket and its poll loop (`admin_thread`), and the client's TCP file transfer are not part of this model.
- Processing.ProcessPendingJobs does not model a failure of the final `chdir` back to the original directory, because it only prints a message. The shrinking `realloc` of the table is taken to succeed.
- Processing.ProcessPendingJobs records the arguments of each `log_append` call as a `LogLine`. The text `log_append` formats from them, and its definition, are not part of this model.
- UploadHandler.UploadQueue.Grow and UploadHandler.DownloadQueue.Append take the growing `realloc` as succeeding. The source assigns `realloc`'s result straight to the array pointer (upload_handler.c:212-213 and 322-323), so a failure would set it to NULL, lose the queued jobs and crash at the next store. That path is not modelled.
- Client2.SendWithRetry: `sendto` is outside the `try`, so an `OSError` it raises leaves the method instead of ending the loop. The model takes every send as succeeding and only `recvfrom` as failing.
- Floating-point priorities. The upload queue's `priority = 1.0 / file_size` is modelled by file-size order: smaller files first. `1.0 / 0` is infinity, so an empty file comes first. Rounding of nearly equal reciprocals is not modelled. The heap's `double` priority is an integer key.
- UploadHandler.DownloadAck: the size `stat` reports for a directory is a parameter, since the model's file system records no directory sizes.
- The exact byte images of the server's response structs (`UploadResponse`, `DownloadResponse`, the JOB_RESULT datagram) are not modelled. The replies are records of their fields. The server takes these structs from `src/shared/protocol.h`, where they are not packed and carry 16-bit `name_len` and `msg_len` fields. The packed layouts in `Protocol` are those of `src/common/protocol.h`, whose `UploadAck` and `JobResult` differ. From the shared header the model takes the status codes, the tags DOWNLOAD_REQ = 9 and DOWNLOAD_ACK = 10, and `UploadHandler.NameLen`'s 16-bit width.
- Processing.ResultFor: JOB_RESULT's `message_id` and `client_id` are left unset by the server, so the model does not give them a value.
- The integer widths of `files_received` (an `int`) and of `atoi`'s result are unbounded here. Overflow after 2^31 files and `atoi` overflow are not modelled.
- `src/server/hashmap.c`, `src/server/client_thread.c` and `src/server/upload_thread.c` are not part of this model. They are stubs and drafts. `compute_priority`, `size_mb` and UUID generation are not part of this model either.
- The interactive clients and menus, and `generate_command` in client2.py, are not part of this model.
- The client's tag numbers (2 = heartbeat, 3 = job, 5 = upload, 7 = result) differ from the enum in `src/common/protocol.h`. Each side is modelled as written and the two are not reconciled. The client also reads the transfer ack's status right after the name, while `UploadAck` puts it after a fixed 256-octet name field; that mismatch is likewise not reconciled.
- Client2: text is handled as octets. `str.encode()` and `bytes.decode()` (UTF-8) are not modelled, so a reply that is not valid UTF-8, which makes `decode` raise, is not covered. `os.path.getsize` and `os.path.basename` are taken as already applied, so the size and name are parameters. `inet_ntoa`'s dotted-quad text is an `Endpoint` number. `random.randint` is a message-id parameter in 1..1000000.
- Client2.VideoClient.SendClientIdReq, CreateJob, SendUploadRequest and SendDownloadRequest print messages; printing is not modelled.
- Client2.VideoClient.SendUploadRequest, SendDownloadRequest and ReceiveResult use the corrected parsers (see Findings). The code as written is `ParseTransferAckAsWritten` and `ParseJobResultAsWritten`.

## Findings

| source | as written | input that shows it | evidently intended | confidence | as-written member | corrected member |
|---|---|---|---|---|---|---|
| src/server/processing.c:26-92 | after `memmove` deletes job `i`, the loop's `i++` skips the job that moved into slot `i` | two ready jobs whose commands both succeed: the second is still in the table after the pass | every ready job that can run is processed in the same pass | not executed | Processing.PassAsWritten (Processing.AsWrittenSkipsNextJob) | Processing.PassIntended (Processing.IntendedKeepsStayers) |
| src/server/admin_handler.c:42-52 | a line of only spaces, tabs and newlines survives `trim_whitespace`, passes the empty test, and `strcasecmp` gets the NULL token from `strtok` | the line "\n" | such a line is treated like an empty line: prompt only, `show_logs` unchanged | not executed | AdminHandler.HandleAsWritten (AdminHandler.BlankLineFails) | AdminHandler.HandleAdminCommand (AdminHandler.IntendedAgrees) |
| src/client/client2.py:111-116, 150-155 | the guard `len(data) >= 10` does not cover the seven octets unpacked at offset 6 + `name_len`, so `struct.unpack` raises | a 10-octet reply of zeros (name length 0; 13 octets needed) | a short reply is "no ack": (False, None, None) | not executed | Client2.ParseTransferAckAsWritten (Client2.ShortAckRaises) | Client2.ParseTransferAck (Client2.TransferAckAgrees) |
| src/client/client2.py:69-70 | `data[0]` is read before the length test, and the `except` only catches timeouts, so an empty datagram ends the listener | a zero-length UDP datagram | an empty datagram is ignored like any other non-result | not executed | Client2.ParseJobResultAsWritten (Client2.EmptyDatagramRaises) | Client2.ParseJobResult (Client2.JobResultAgrees) |
