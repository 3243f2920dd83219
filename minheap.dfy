/** The bounded binary min-heap of upload jobs: an array of `capacity`
    slots whose first `size` hold a heap ordered by priority, restored after
    each change by sifting up (`heapify_up`) or down (`heapify_down`). */
module Heap {
  import opened Common

  /** An upload job as the heap stores it. The priority is a `double` in the
      source but is only ever compared, so an ordered integer key stands in
      for it. */
  datatype UploadJob = UploadJob(clientId: int, jobId: int, filename: string,
                                 arrivalTime: int, priority: int)

  function Parent(i: int): int
    requires i > 0
  {
    (i - 1) / 2
  }

  /** Every element's priority is at least its parent's. */
  ghost predicate IsHeap(s: seq<UploadJob>)
  {
    forall i :: 0 < i < |s| ==> s[Parent(i)].priority <= s[i].priority
  }

  /** The root of a heap has a minimal priority. */
  lemma {:induction false} RootIsMin(s: seq<UploadJob>, i: int)
    requires IsHeap(s) && 0 <= i < |s|
    ensures s[0].priority <= s[i].priority
    decreases i
  {
    if i > 0 {
      RootIsMin(s, Parent(i));
    }
  }

  lemma RootIsMinOfElements(s: seq<UploadJob>)
    requires IsHeap(s) && |s| > 0
    ensures forall x :: x in multiset(s) ==> s[0].priority <= x.priority
  {
    forall x | x in multiset(s) ensures s[0].priority <= x.priority {
      var i :| 0 <= i < |s| && s[i] == x;
      RootIsMin(s, i);
    }
  }

  /** Replacing the first element by the `n`-th and keeping the first
      `n - 1` removes exactly the first element from the multiset. */
  lemma MoveLastToFront(s: seq<UploadJob>, n: int)
    requires 1 <= n <= |s|
    ensures multiset(s[0 := s[n - 1]][..n - 1]) == multiset(s[..n]) - multiset{s[0]}
  {
    if n > 1 {
      assert s[0 := s[n - 1]][..n - 1] == [s[n - 1]] + s[1..n - 1];
      assert s[..n] == [s[0]] + s[1..n - 1] + [s[n - 1]];
    } else {
      assert s[..n] == [s[0]];
    }
  }

  /** The heap property holds below `n` except between `k` and its parent,
      and `k`'s parent is no larger than `k`'s children: the state of a
      sift-up with the moving job at `k`. */
  ghost predicate UpInv(s: seq<UploadJob>, n: int, k: int)
    requires 0 <= k < n <= |s|
  {
    && (forall i :: 0 < i < n && i != k ==> s[Parent(i)].priority <= s[i].priority)
    && (forall i :: 0 < i < n && k > 0 && Parent(i) == k ==> s[Parent(k)].priority <= s[i].priority)
  }

  /** The heap property holds below `n` except between `k` and its
      children, and `k`'s parent is no larger than `k`'s children: the state
      of a sift-down with the moving job at `k`. */
  ghost predicate DownInv(s: seq<UploadJob>, n: int, k: int)
    requires 0 <= k < n <= |s|
  {
    && (forall i :: 0 < i < n && Parent(i) != k ==> s[Parent(i)].priority <= s[i].priority)
    && (forall i :: 0 < i < n && k > 0 && Parent(i) == k ==> s[Parent(k)].priority <= s[i].priority)
  }

  function Swapped(s: seq<UploadJob>, i: int, j: int): seq<UploadJob>
    requires 0 <= i < |s| && 0 <= j < |s|
  {
    s[i := s[j]][j := s[i]]
  }

  lemma UpStart(s: seq<UploadJob>, k: int)
    requires 0 <= k < |s| && IsHeap(s[..k])
    ensures UpInv(s, k + 1, k)
  {
    forall i | 0 < i < k + 1 && i != k ensures s[Parent(i)].priority <= s[i].priority {
      assert s[..k][i] == s[i] && s[..k][Parent(i)] == s[Parent(i)];
    }
  }

  /** Swapping a job smaller than its parent with that parent moves the
      sift-up one level towards the root. */
  lemma UpStep(s: seq<UploadJob>, n: int, k: int)
    requires 0 < k < n <= |s| && UpInv(s, n, k)
    requires s[k].priority < s[Parent(k)].priority
    ensures UpInv(Swapped(s, k, Parent(k)), n, Parent(k))
  {
  }

  lemma UpDone(s: seq<UploadJob>, n: int, k: int)
    requires 0 <= k < n <= |s| && UpInv(s, n, k)
    requires k == 0 || s[Parent(k)].priority <= s[k].priority
    ensures IsHeap(s[..n])
  {
    assert forall i :: 0 < i < n ==> s[..n][i] == s[i] && s[..n][Parent(i)] == s[Parent(i)];
  }

  /** Swapping a job with its smaller child, when that child is the smallest
      of the three, moves the sift-down one level away from the root. */
  lemma DownStep(s: seq<UploadJob>, n: int, k: int, c: int)
    requires 0 <= k < c < n <= |s| && DownInv(s, n, k)
    requires c == 2 * k + 1 || c == 2 * k + 2
    requires s[c].priority < s[k].priority
    requires 2 * k + 1 < n ==> s[c].priority <= s[2 * k + 1].priority
    requires 2 * k + 2 < n ==> s[c].priority <= s[2 * k + 2].priority
    ensures DownInv(Swapped(s, k, c), n, c)
  {
    var t := Swapped(s, k, c);
    forall i | 0 < i < n && Parent(i) != c ensures t[Parent(i)].priority <= t[i].priority {
      if Parent(i) == k {
        assert i == 2 * k + 1 || i == 2 * k + 2;
      }
    }
  }

  lemma DownDone(s: seq<UploadJob>, n: int, k: int)
    requires 0 <= k < n <= |s| && DownInv(s, n, k)
    requires 2 * k + 1 < n ==> s[k].priority <= s[2 * k + 1].priority
    requires 2 * k + 2 < n ==> s[k].priority <= s[2 * k + 2].priority
    ensures IsHeap(s[..n])
  {
    forall i | 0 < i < n ensures s[..n][Parent(i)].priority <= s[..n][i].priority {
      assert s[..n][i] == s[i] && s[..n][Parent(i)] == s[Parent(i)];
      if Parent(i) == k {
        assert i == 2 * k + 1 || i == 2 * k + 2;
      }
    }
  }

  /** Moving the last job of a heap to the root leaves a sift-down from
      the root to do. */
  lemma PopStart(s: seq<UploadJob>, n: int)
    requires 1 <= n <= |s| && IsHeap(s[..n])
    ensures n > 1 ==> DownInv(s[0 := s[n - 1]], n - 1, 0)
  {
    if n > 1 {
      var t := s[0 := s[n - 1]];
      forall i | 0 < i < n - 1 && Parent(i) != 0 ensures t[Parent(i)].priority <= t[i].priority {
        assert s[..n][i] == s[i] && s[..n][Parent(i)] == s[Parent(i)];
      }
    }
  }

  class MinHeap {
    var data: array<UploadJob>
    var size: int
    var capacity: int

    ghost predicate Valid()
      reads this, data
    {
      data.Length == capacity && 0 <= size <= capacity && IsHeap(data[..size])
    }

    /** The stored jobs. */
    ghost function Elements(): multiset<UploadJob>
      reads this, data
      requires Valid()
    {
      multiset(data[..size])
    }

    /** `minheap_init`: an empty heap with room for `capacity` jobs. */
    constructor Init(capacity: nat)
      ensures Valid() && fresh(data)
      ensures this.capacity == capacity && size == 0 && Elements() == multiset{}
    {
      data := new UploadJob[capacity](_ => UploadJob(0, 0, "", 0, 0));
      this.capacity := capacity;
      size := 0;
    }

    method Swap(i: int, j: int, ghost n: int)
      requires 0 <= i < n && 0 <= j < n && n <= data.Length
      modifies data
      ensures data[..] == old(data[..])[i := old(data[j])][j := old(data[i])]
      ensures multiset(data[..n]) == old(multiset(data[..n]))
    {
      var t := data[i];
      data[i] := data[j];
      data[j] := t;
      assert data[..n] == old(data[..n])[i := old(data[j])][j := old(data[i])];
    }

    /** `heapify_up`: move the job at `index` towards the root while it is
        smaller than its parent. Only swaps, so the jobs below `index + 1`
        are permuted and nothing else changes. */
    method HeapifyUp(index: int)
      requires 0 <= index < data.Length
      requires IsHeap(data[..index])
      modifies data
      ensures IsHeap(data[..index + 1])
      ensures multiset(data[..index + 1]) == old(multiset(data[..index + 1]))
      ensures data[index + 1..] == old(data[index + 1..])
    {
      var n := index + 1;
      var k := index;
      UpStart(data[..], k);
      while k > 0
        invariant 0 <= k < n
        invariant UpInv(data[..], n, k)
        invariant multiset(data[..n]) == old(multiset(data[..n]))
        invariant data[n..] == old(data[n..])
        decreases k
      {
        var p := Parent(k);
        if data[k].priority >= data[p].priority {
          break;
        }
        UpStep(data[..], n, k);
        Swap(k, p, n);
        k := p;
      }
      UpDone(data[..], n, k);
    }

    /** `heapify_down`: move the job at `index` away from the root while a
        child is smaller, swapping with the smaller child. */
    method HeapifyDown(index: int)
      requires 0 <= size <= data.Length
      requires 0 <= index < size
      requires DownInv(data[..], size, index)
      modifies data
      ensures IsHeap(data[..size])
      ensures multiset(data[..size]) == old(multiset(data[..size]))
      ensures data[size..] == old(data[size..])
    {
      var n := size;
      var k := index;
      while true
        invariant 0 <= k < n
        invariant DownInv(data[..], n, k)
        invariant multiset(data[..n]) == old(multiset(data[..n]))
        invariant data[n..] == old(data[n..])
        decreases n - k
      {
        var left := 2 * k + 1;
        var right := 2 * k + 2;
        var smallest := k;
        if left < n && data[left].priority < data[smallest].priority {
          smallest := left;
        }
        if right < n && data[right].priority < data[smallest].priority {
          smallest := right;
        }
        if smallest == k {
          DownDone(data[..], n, k);
          break;
        }
        DownStep(data[..], n, k, smallest);
        Swap(k, smallest, n);
        k := smallest;
      }
    }

    /** `minheap_push`: a full heap is left exactly as it was; otherwise the
        job is added and the heap restored. */
    method Push(job: UploadJob)
      requires Valid()
      modifies this, data
      ensures Valid() && data == old(data) && capacity == old(capacity)
      ensures old(size) >= capacity ==> size == old(size) && data[..] == old(data[..])
      ensures old(size) < capacity ==>
        size == old(size) + 1 && Elements() == old(Elements()) + multiset{job}
    {
      if size >= capacity {
        return;
      }
      data[size] := job;
      assert data[..size] == old(data[..size]);
      assert data[..size + 1] == old(data[..size]) + [job];
      HeapifyUp(size);
      size := size + 1;
    }

    /** `minheap_pop`: an empty heap yields nothing and is unchanged; otherwise
        the root, a job of minimal priority, is removed and returned. */
    method Pop() returns (r: Option<UploadJob>)
      requires Valid()
      modifies this, data
      ensures Valid() && data == old(data) && capacity == old(capacity)
      ensures old(size) == 0 ==> r == None && size == 0 && data[..] == old(data[..])
      ensures old(size) > 0 ==>
        && r.Some? && r.value in old(Elements())
        && (forall x :: x in old(Elements()) ==> r.value.priority <= x.priority)
        && size == old(size) - 1
        && Elements() == old(Elements()) - multiset{r.value}
    {
      if size == 0 {
        return None;
      }
      ghost var full := data[..];
      PopStart(full, size);
      MoveLastToFront(full, size);
      var top := data[0];
      data[0] := data[size - 1];
      assert data[..] == full[0 := full[size - 1]];
      size := size - 1;
      if size > 0 {
        HeapifyDown(0);
      }
      RootIsMinOfElements(full[..size + 1]);
      r := Some(top);
    }
  }
}
