/** The process trackers: a vector kept sorted by pid with std::upper_bound insertions
    and std::lower_bound erasures. */
module ProcessTracking {
  import opened Integers
  import opened Options
  import opened Processes

  // m_process_count is a std::atomic_uint64_t
  const UINT64_RANGE := 0x1_0000_0000_0000_0000

  lemma CountStep(n: int, d: int)
    ensures (n % UINT64_RANGE + d) % UINT64_RANGE == (n + d) % UINT64_RANGE
  {
  }

  method UpperBoundSearch(s: seq<ProcessInfo>, pid: nat) returns (first: nat)
    requires Sorted(s)
    ensures first == UpperBound(s, pid)
  {
    first := 0;
    var len := |s|;
    while len > 0
      invariant 0 <= len && first + len <= |s|
      invariant forall i :: 0 <= i < first ==> s[i].pid <= pid
      invariant forall i :: first + len <= i < |s| ==> pid < s[i].pid
    {
      var half := len / 2;
      if pid < s[first + half].pid {
        len := half;
      } else {
        first := first + half + 1;
        len := len - half - 1;
      }
    }
    ghost var bound := UpperBound(s, pid);
    assert first < |s| ==> pid < s[first].pid;
    assert bound < |s| ==> pid < s[bound].pid;
  }

  method LowerBoundSearch(s: seq<ProcessInfo>, pid: nat) returns (first: nat)
    requires Sorted(s)
    ensures first == LowerBound(s, pid)
  {
    first := 0;
    var len := |s|;
    while len > 0
      invariant 0 <= len && first + len <= |s|
      invariant forall i :: 0 <= i < first ==> s[i].pid < pid
      invariant forall i :: first + len <= i < |s| ==> pid <= s[i].pid
    {
      var half := len / 2;
      if s[first + half].pid < pid {
        first := first + half + 1;
        len := len - half - 1;
      } else {
        len := half;
      }
    }
    ghost var bound := LowerBound(s, pid);
    assert first < |s| ==> pid <= s[first].pid;
    assert bound < |s| ==> pid <= s[bound].pid;
  }

  /** The Windows tracker. */
  class ProcessTracker {
    var processes: seq<ProcessInfo>
    var count: nat

    ghost predicate Valid() reads this {
      Sorted(processes)
    }

    /** The separately kept count is the length of the vector. */
    ghost predicate CountExact() reads this {
      count == |processes| % UINT64_RANGE
    }

    // std::sort may order equal pids differently: nothing below depends on the choice
    constructor (list: seq<ProcessInfo>)
      ensures Valid() && CountExact()
      ensures processes == StableSort(list)
    {
      count := if list != [] then |list| % UINT64_RANGE else 0;
      processes := StableSort(list);
      new;
      StableSortView(list);
    }

    method ProcessCreated(process: ProcessInfo)
      requires Valid()
      modifies this
      ensures Valid() && processes == Inserted(old(processes), process)
      ensures old(CountExact()) ==> CountExact()
    {
      CountStep(|processes|, 1);
      count := (count + 1) % UINT64_RANGE;
      var it := UpperBoundSearch(processes, process.pid);
      InsertedView(processes, process, process.pid);
      processes := InsertAt(processes, it, process);
    }

    method ProcessDeleted(process: ProcessInfo)
      requires Valid()
      modifies this
      ensures Valid() && processes == Erased(old(processes), process.pid)
      ensures old(CountExact()) ==> CountExact()
    {
      ErasedSorted(processes, process.pid);
      var it := LowerBoundSearch(processes, process.pid);
      if it == |processes| {
        return;
      }
      CountStep(|processes|, -1);
      processes := EraseAt(processes, it);
      count := (count - 1) % UINT64_RANGE;
    }

    /** `snapshot` is the number of processes the system reports, None when that fails. It is
        counted, and the result returned, as an int. A count of 0 means "not known yet" here,
        so asking for the count of an emptied vector overwrites it. */
    method GetProcessCount(snapshot: Option<nat>) returns (result: int)
      requires Valid() && CountExact()
      modifies this`count
      ensures old(count) != 0 ==> count == old(count) && result == ToInt(count)
      ensures old(count) == 0 ==> result == (if snapshot.Some? then ToInt(snapshot.value) else 0)
      ensures CountExact() <==>
              old(count) != 0 || snapshot.None? || ToInt(snapshot.value) == 0
      ensures CountExact() && |processes| <= INT_MAX && (snapshot.Some? || old(count) != 0) ==>
              result == |processes|
    {
      if count != 0 {
        return ToInt(count);
      }
      match snapshot {
        case None => result := 0;
        case Some(n) =>
          result := ToInt(n);
          count := result % UINT64_RANGE;
      }
    }
  }

  /** The Linux tracker: it completes each created process from /proc, and each deleted
      process with the creation time of the entry it erases. */
  class LinuxProcessTracker {
    var processes: seq<ProcessInfo>

    ghost predicate Valid() reads this {
      Sorted(processes)
    }

    constructor (list: seq<ProcessInfo>)
      ensures Valid() && processes == StableSort(list)
    {
      processes := StableSort(list);
      new;
      StableSortView(list);
    }

    /** `found` is what /proc told about the pid, None when the process is gone already. */
    method ProcessCreated(process: ProcessInfo, found: Option<ProcessInfo>)
      returns (emitted: Option<ProcessInfo>)
      requires Valid()
      requires found.Some? ==> found.value.pid == process.pid
      modifies this
      ensures Valid() && emitted == found
      ensures processes == if found.Some? then Inserted(old(processes), found.value) else old(processes)
    {
      var it := UpperBoundSearch(processes, process.pid);
      if found.None? {
        return None;
      }
      InsertedView(processes, found.value, process.pid);
      processes := InsertAt(processes, it, found.value);
      return found;
    }

    method ProcessDeleted(process: ProcessInfo) returns (emitted: Option<ProcessInfo>)
      requires Valid()
      modifies this
      ensures Valid() && processes == Erased(old(processes), process.pid)
      ensures emitted == LinuxDeletion(old(processes), process)
    {
      ErasedSorted(processes, process.pid);
      var it := LowerBoundSearch(processes, process.pid);
      if it == |processes| {
        return None;
      }
      emitted := Some(process.(created := processes[it].created));
      processes := EraseAt(processes, it);
    }
  }

  /** The Linux tracker announces nothing exactly for pids above all listed ones; for any
      other pid, listed or not, the pid and moment it was told, with the creation time of the
      first entry not below that pid. */
  lemma LinuxDeletionIff(s: seq<ProcessInfo>, process: ProcessInfo)
    requires Sorted(s)
    ensures LinuxDeletion(s, process) == None <==> ExceedsAll(s, process.pid)
    ensures forall i :: 0 <= i < |s| && process.pid <= s[i].pid && (i > 0 ==> s[i - 1].pid < process.pid) ==>
              LinuxDeletion(s, process) == Some(process.(created := s[i].created))
  {
    var k := LowerBound(s, process.pid);
    forall i | 0 <= i < |s| && process.pid <= s[i].pid && (i > 0 ==> s[i - 1].pid < process.pid) ensures i == k {
      assert !(k < i) && !(i < k);
    }
  }

  /** The deletion the Linux tracker announces carries the creation time of the entry at
      lower_bound, whichever process really ended. */
  function LinuxDeletion(s: seq<ProcessInfo>, process: ProcessInfo): Option<ProcessInfo> {
    var i := LowerBound(s, process.pid);
    if i == |s| then None else Some(process.(created := s[i].created))
  }
}
