/** The log bus: a fixed ring of LOG_QUEUE_SIZE text slots indexed by
    head (next read), tail (next write) and count. Producers never block: a
    push onto a full ring drops the oldest entry. */
module LogBus {
  import opened Common

  const LOG_QUEUE_SIZE: nat := 100
  const LOG_ENTRY_MAX: nat := 512

  /** What a slot keeps of a pushed entry: at most LOG_ENTRY_MAX - 1
      characters, so the slot always has room for its terminator. */
  function Stored(entry: string): (r: string)
    ensures |r| < LOG_ENTRY_MAX && |r| <= |entry|
    ensures r == entry[..|r|]
    ensures |entry| < LOG_ENTRY_MAX ==> r == entry
  {
    Truncate(entry, LOG_ENTRY_MAX - 1)
  }

  /** The queued entries, oldest first, after pushing `entry`. */
  function PushSpec(q: seq<string>, entry: string): seq<string>
    requires |q| <= LOG_QUEUE_SIZE
  {
    if |q| == LOG_QUEUE_SIZE then q[1..] + [Stored(entry)] else q + [Stored(entry)]
  }

  /** A push never exceeds the capacity; on a full queue exactly the oldest
      entry goes and the count stays at capacity; otherwise the entry is
      appended and nothing already queued changes. */
  lemma PushSpecShape(q: seq<string>, entry: string)
    requires |q| <= LOG_QUEUE_SIZE
    ensures |PushSpec(q, entry)| <= LOG_QUEUE_SIZE
    ensures PushSpec(q, entry)[|PushSpec(q, entry)| - 1] == Stored(entry)
    ensures |q| == LOG_QUEUE_SIZE ==>
      |PushSpec(q, entry)| == LOG_QUEUE_SIZE && PushSpec(q, entry)[..LOG_QUEUE_SIZE - 1] == q[1..]
    ensures |q| < LOG_QUEUE_SIZE ==>
      |PushSpec(q, entry)| == |q| + 1 && PushSpec(q, entry)[..|q|] == q
  {
  }

  function PushAll(q: seq<string>, es: seq<string>): seq<string>
    requires |q| <= LOG_QUEUE_SIZE
    decreases |es|
  {
    if es == [] then q else
      PushSpecShape(q, es[0]);
      PushAll(PushSpec(q, es[0]), es[1..])
  }

  function StoredAll(es: seq<string>): (r: seq<string>)
    ensures |r| == |es|
    ensures forall i :: 0 <= i < |es| ==> r[i] == Stored(es[i])
  {
    if es == [] then [] else [Stored(es[0])] + StoredAll(es[1..])
  }

  /** The last `n` elements of `s` (all of them if there are fewer). */
  function Latest<T>(s: seq<T>, n: nat): (r: seq<T>)
    ensures |r| == Min(|s|, n)
  {
    if |s| <= n then s else s[|s| - n..]
  }

  lemma LatestDropFirst<T>(s: seq<T>, n: nat)
    requires |s| > n
    ensures Latest(s[1..], n) == Latest(s, n)
  {
  }

  /** Whatever the pushes, the queue holds the most recent LOG_QUEUE_SIZE
      stored entries, oldest first. */
  lemma {:induction false} PushAllKeepsLatest(q: seq<string>, es: seq<string>)
    requires |q| <= LOG_QUEUE_SIZE
    ensures PushAll(q, es) == Latest(q + StoredAll(es), LOG_QUEUE_SIZE)
    decreases |es|
  {
    if es == [] {
      assert q + StoredAll(es) == q;
    } else {
      var e := Stored(es[0]);
      var rest := StoredAll(es[1..]);
      var q' := PushSpec(q, es[0]);
      PushSpecShape(q, es[0]);
      PushAllKeepsLatest(q', es[1..]);
      StepLatest(q, e, rest);
      assert StoredAll(es) == [e] + rest;
      ConcatAssoc(q, [e], rest);
    }
  }

  lemma StepLatest(q: seq<string>, e: string, rest: seq<string>)
    requires |q| <= LOG_QUEUE_SIZE
    ensures var q' := if |q| == LOG_QUEUE_SIZE then q[1..] + [e] else q + [e];
      Latest(q' + rest, LOG_QUEUE_SIZE) == Latest((q + [e]) + rest, LOG_QUEUE_SIZE)
  {
    var all := (q + [e]) + rest;
    if |q| == LOG_QUEUE_SIZE {
      assert q[1..] + [e] + rest == all[1..];
      LatestDropFirst(all, LOG_QUEUE_SIZE);
    }
  }

  /** The ring slot `i` places after `h`. */
  function Slot(h: int, i: int): int
  {
    (h + i) % LOG_QUEUE_SIZE
  }

  lemma ModDistinct(h: int, i: int, c: int)
    requires 0 <= h < LOG_QUEUE_SIZE && 0 <= i < c < LOG_QUEUE_SIZE
    ensures Slot(h, i) != Slot(h, c)
  {
  }

  lemma ModShift(h: int, i: int)
    requires 0 <= h < LOG_QUEUE_SIZE && 0 <= i < LOG_QUEUE_SIZE
    ensures Slot((h + 1) % LOG_QUEUE_SIZE, i) == Slot(h, i + 1)
  {
  }

  lemma ModNext(h: int, c: int)
    requires 0 <= h < LOG_QUEUE_SIZE && 0 <= c
    ensures ((h + c) % LOG_QUEUE_SIZE + 1) % LOG_QUEUE_SIZE == Slot(h, c + 1)
  {
  }

  class LogQueue {
    var entries: array<string>
    var head: int   // next read index
    var tail: int   // next write index
    var count: int
    /** The queued entries, oldest first. */
    ghost var Contents: seq<string>

    ghost predicate Valid()
      reads this, entries
    {
      && entries.Length == LOG_QUEUE_SIZE
      && 0 <= head < LOG_QUEUE_SIZE && 0 <= tail < LOG_QUEUE_SIZE
      && 0 <= count <= LOG_QUEUE_SIZE
      && tail == (head + count) % LOG_QUEUE_SIZE
      && |Contents| == count
      && forall i :: 0 <= i < count ==> Contents[i] == entries[Slot(head, i)]
    }

    /** `log_queue_init`: an empty queue with head = tail = count = 0. */
    constructor Init()
      ensures Valid() && fresh(entries)
      ensures head == 0 && tail == 0 && count == 0 && Contents == []
    {
      entries := new string[LOG_QUEUE_SIZE](_ => "");
      head, tail, count := 0, 0, 0;
      Contents := [];
    }

    /** `log_queue_push`: on a full queue advance head past the oldest entry,
        then store the truncated entry at tail and advance tail. */
    method Push(entry: string)
      requires Valid()
      modifies this, entries
      ensures Valid() && entries == old(entries)
      ensures Contents == PushSpec(old(Contents), entry)
      ensures old(count) == LOG_QUEUE_SIZE ==> count == LOG_QUEUE_SIZE
      ensures old(count) < LOG_QUEUE_SIZE ==> count == old(count) + 1
    {
      if count == LOG_QUEUE_SIZE {
        DropOldest();
      }
      Append(Stored(entry));
    }

    /** Advances head past the oldest entry. */
    method DropOldest()
      requires Valid() && count > 0
      modifies this
      ensures Valid() && entries == old(entries)
      ensures Contents == old(Contents)[1..] && count == old(count) - 1
      ensures head == (old(head) + 1) % LOG_QUEUE_SIZE && tail == old(tail)
    {
      var h' := (head + 1) % LOG_QUEUE_SIZE;
      forall i | 0 <= i < count - 1 ensures Slot(h', i) == Slot(head, i + 1) {
        ModShift(head, i);
      }
      head := h';
      count := count - 1;
      Contents := Contents[1..];
    }

    /** Stores `s` at tail and advances tail; the slot is free because
        the queue is not full. */
    method Append(s: string)
      requires Valid() && count < LOG_QUEUE_SIZE
      modifies this, entries
      ensures Valid() && entries == old(entries)
      ensures Contents == old(Contents) + [s] && count == old(count) + 1
      ensures head == old(head)
    {
      forall i | 0 <= i < count ensures Slot(head, i) != tail {
        ModDistinct(head, i, count);
      }
      ModNext(head, count);
      ghost var before := entries[..];
      entries[tail] := s;
      assert forall i :: 0 <= i < count ==> entries[Slot(head, i)] == before[Slot(head, i)];
      tail := (tail + 1) % LOG_QUEUE_SIZE;
      count := count + 1;
      Contents := Contents + [s];
    }

    /** `log_queue_pop_timed` with a finite timeout. A non-empty queue yields
        its oldest entry and returns 1. On an empty queue no producer can run
        in this sequential model, so the timed wait ends: with a timeout (0)
        or, when `waitFailed`, with an error (-1); the queue is unchanged. */
    method PopTimed(timeoutMs: nat, waitFailed: bool) returns (ret: int, buffer: string)
      requires Valid()
      modifies this
      ensures Valid() && entries == old(entries)
      ensures old(count) > 0 ==>
        ret == 1 && buffer == old(Contents)[0] && Contents == old(Contents)[1..] && count == old(count) - 1
      ensures old(count) == 0 ==>
        ret == (if waitFailed then -1 else 0) && Contents == old(Contents)
        && head == old(head) && tail == old(tail) && count == 0
    {
      if count == 0 {
        ret := if waitFailed then -1 else 0;
        buffer := "";
        return;
      }
      assert Slot(head, 0) == head;
      buffer := entries[head];
      DropOldest();
      ret := 1;
    }
  }
}
