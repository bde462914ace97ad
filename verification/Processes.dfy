/** Process records, the std::lower_bound / std::upper_bound positions the tracker
    edits its vector at, and the order-preserving view of a list by pid that the
    replicas are compared on. */
module Processes {

  datatype Details = Details(
    name: string, path: string, description: string,
    user: string, domain: string, cmd: string)

  /** The unique index of the history table: pid and creation second. */
  datatype Key = Key(pid: nat, created: int)

  datatype ProcessInfo = ProcessInfo(pid: nat, created: int, terminated: int, details: Details) {
    function Id(): Key { Key(pid, created) }
  }

  predicate Sorted(s: seq<ProcessInfo>) {
    forall i, j :: 0 <= i < j < |s| ==> s[i].pid <= s[j].pid
  }

  /** The entries of one pid, oldest first. */
  function OfPid(s: seq<ProcessInfo>, pid: nat): (r: seq<ProcessInfo>) {
    if s == [] then []
    else if s[0].pid == pid then [s[0]] + OfPid(s[1..], pid)
    else OfPid(s[1..], pid)
  }

  /** First position whose pid is not below `pid`. */
  function LowerBound(s: seq<ProcessInfo>, pid: nat): (r: nat)
    ensures r <= |s|
    ensures forall i :: 0 <= i < r ==> s[i].pid < pid
    ensures r < |s| ==> pid <= s[r].pid
  {
    if s == [] || pid <= s[0].pid then 0 else 1 + LowerBound(s[1..], pid)
  }

  /** First position whose pid is above `pid`. */
  function UpperBound(s: seq<ProcessInfo>, pid: nat): (r: nat)
    ensures r <= |s|
    ensures forall i :: 0 <= i < r ==> s[i].pid <= pid
    ensures r < |s| ==> pid < s[r].pid
  {
    if s == [] || pid < s[0].pid then 0 else 1 + UpperBound(s[1..], pid)
  }

  /** First position holding exactly `pid`, or the length. */
  function FirstMatch(s: seq<ProcessInfo>, pid: nat): (r: nat)
    ensures r <= |s|
    ensures forall i :: 0 <= i < r ==> s[i].pid != pid
    ensures r < |s| ==> s[r].pid == pid
  {
    if s == [] || s[0].pid == pid then 0 else 1 + FirstMatch(s[1..], pid)
  }

  function InsertAt<T>(s: seq<T>, i: nat, x: T): (r: seq<T>)
    requires i <= |s|
    ensures |r| == |s| + 1
  {
    s[..i] + [x] + s[i..]
  }

  function EraseAt<T>(s: seq<T>, i: nat): (r: seq<T>)
    requires i < |s|
    ensures |r| == |s| - 1
  {
    s[..i] + s[i + 1..]
  }

  /** Insertion at upper_bound. */
  function Inserted(s: seq<ProcessInfo>, p: ProcessInfo): seq<ProcessInfo> {
    InsertAt(s, UpperBound(s, p.pid), p)
  }

  /** Erasure at lower_bound, without the equality check the handlers omit. */
  function Erased(s: seq<ProcessInfo>, pid: nat): seq<ProcessInfo> {
    var i := LowerBound(s, pid);
    if i == |s| then s else EraseAt(s, i)
  }

  /** Erasure of the first entry with this very pid, if there is one. */
  function WithoutFirst(s: seq<ProcessInfo>, pid: nat): seq<ProcessInfo> {
    var i := FirstMatch(s, pid);
    if i == |s| then s else EraseAt(s, i)
  }

  function StableSort(s: seq<ProcessInfo>): (r: seq<ProcessInfo>)
    ensures |r| == |s|
  {
    if s == [] then [] else Inserted(StableSort(s[..|s| - 1]), s[|s| - 1])
  }

  predicate Present(s: seq<ProcessInfo>, pid: nat) {
    exists i :: 0 <= i < |s| && s[i].pid == pid
  }

  predicate ExceedsAll(s: seq<ProcessInfo>, pid: nat) {
    forall i :: 0 <= i < |s| ==> s[i].pid < pid
  }

  /** Every pid's entries are the same, in the same order. */
  ghost predicate SameView(a: seq<ProcessInfo>, b: seq<ProcessInfo>) {
    forall pid: nat :: OfPid(a, pid) == OfPid(b, pid)
  }

  /* ---------- the by-pid view ---------- */

  lemma {:induction false} OfPidConcat(a: seq<ProcessInfo>, b: seq<ProcessInfo>, pid: nat)
    ensures OfPid(a + b, pid) == OfPid(a, pid) + OfPid(b, pid)
  {
    if a == [] {
      assert a + b == b;
    } else {
      assert (a + b)[1..] == a[1..] + b;
      OfPidConcat(a[1..], b, pid);
    }
  }

  lemma {:induction false} OfPidNone(s: seq<ProcessInfo>, pid: nat)
    ensures OfPid(s, pid) == [] <==> !Present(s, pid)
  {
    if s != [] {
      OfPidNone(s[1..], pid);
      if Present(s, pid) && s[0].pid != pid {
        var i :| 0 <= i < |s| && s[i].pid == pid;
        assert s[1..][i - 1].pid == pid;
      }
    }
  }

  lemma {:induction false} OfPidMembers(s: seq<ProcessInfo>, pid: nat)
    ensures forall i :: 0 <= i < |OfPid(s, pid)| ==> OfPid(s, pid)[i].pid == pid && OfPid(s, pid)[i] in s
    ensures forall p :: p in s && p.pid == pid ==> p in OfPid(s, pid)
  {
    if s != [] {
      OfPidMembers(s[1..], pid);
      forall i | 0 <= i < |OfPid(s, pid)|
        ensures OfPid(s, pid)[i].pid == pid && OfPid(s, pid)[i] in s
      {
        var rest := OfPid(s[1..], pid);
        if s[0].pid == pid && i > 0 { assert OfPid(s, pid)[i] == rest[i - 1]; }
      }
      forall p | p in s && p.pid == pid ensures p in OfPid(s, pid) {
        if p != s[0] { assert p in s[1..]; }
      }
    }
  }

  lemma OfPidInsertAt(s: seq<ProcessInfo>, i: nat, p: ProcessInfo, pid: nat)
    requires i <= |s|
    ensures OfPid(InsertAt(s, i, p), pid)
         == OfPid(s[..i], pid) + (if p.pid == pid then [p] else []) + OfPid(s[i..], pid)
    ensures OfPid(s, pid) == OfPid(s[..i], pid) + OfPid(s[i..], pid)
  {
    OfPidConcat(s[..i] + [p], s[i..], pid);
    OfPidConcat(s[..i], [p], pid);
    assert s == s[..i] + s[i..];
    OfPidConcat(s[..i], s[i..], pid);
  }

  lemma OfPidEraseAt(s: seq<ProcessInfo>, i: nat, pid: nat)
    requires i < |s|
    ensures OfPid(EraseAt(s, i), pid) == OfPid(s[..i], pid) + OfPid(s[i + 1..], pid)
    ensures OfPid(s, pid)
         == OfPid(s[..i], pid) + (if s[i].pid == pid then [s[i]] else []) + OfPid(s[i + 1..], pid)
  {
    OfPidConcat(s[..i], s[i + 1..], pid);
    assert s == InsertAt(EraseAt(s, i), i, s[i]);
    assert EraseAt(s, i)[..i] == s[..i] && EraseAt(s, i)[i..] == s[i + 1..];
    OfPidInsertAt(EraseAt(s, i), i, s[i], pid);
  }

  /** A sorted list is determined by its by-pid view. */
  lemma {:induction false} SortedUnique(a: seq<ProcessInfo>, b: seq<ProcessInfo>)
    requires Sorted(a) && Sorted(b)
    requires SameView(a, b)
    ensures a == b
  {
    if a == [] {
      if b != [] { OfPidNone(b, b[0].pid); }
    } else {
      OfPidNone(b, a[0].pid);
      assert OfPid(a, a[0].pid) == OfPid(b, a[0].pid);
      OfPidNone(a, b[0].pid);
      assert OfPid(a, b[0].pid) == OfPid(b, b[0].pid);
      assert a[0].pid == b[0].pid;
      assert a[0] == OfPid(a, a[0].pid)[0] == b[0];
      forall pid: nat ensures OfPid(a[1..], pid) == OfPid(b[1..], pid) {
        var head := if a[0].pid == pid then [a[0]] else [];
        assert OfPid(a, pid) == head + OfPid(a[1..], pid);
        assert OfPid(b, pid) == head + OfPid(b[1..], pid);
        assert OfPid(a, pid)[|head|..] == OfPid(a[1..], pid);
        assert OfPid(b, pid)[|head|..] == OfPid(b[1..], pid);
      }
      SortedUnique(a[1..], b[1..]);
    }
  }

  /* ---------- the two edits of the sorted vector ---------- */

  lemma InsertAtSorted(s: seq<ProcessInfo>, i: nat, p: ProcessInfo)
    requires Sorted(s) && i <= |s|
    requires i > 0 ==> s[i - 1].pid <= p.pid
    requires i < |s| ==> p.pid <= s[i].pid
    ensures Sorted(InsertAt(s, i, p))
  {
    var r := InsertAt(s, i, p);
    forall j, k | 0 <= j < k < |r| ensures r[j].pid <= r[k].pid {
      assert r[j] == if j < i then s[j] else if j == i then p else s[j - 1];
      assert r[k] == if k < i then s[k] else if k == i then p else s[k - 1];
    }
  }

  lemma NoneAbove(s: seq<ProcessInfo>, i: nat, pid: nat)
    requires Sorted(s) && i <= |s|
    requires i < |s| ==> pid < s[i].pid
    ensures OfPid(s[i..], pid) == []
  {
    OfPidNone(s[i..], pid);
  }

  lemma InsertedView(s: seq<ProcessInfo>, p: ProcessInfo, pid: nat)
    requires Sorted(s)
    ensures Sorted(Inserted(s, p))
    ensures OfPid(Inserted(s, p), pid) == OfPid(s, pid) + (if p.pid == pid then [p] else [])
  {
    var i := UpperBound(s, p.pid);
    InsertAtSorted(s, i, p);
    OfPidInsertAt(s, i, p, pid);
    NoneAbove(s, i, p.pid);
  }

  lemma ErasedSorted(s: seq<ProcessInfo>, pid: nat)
    requires Sorted(s)
    ensures Sorted(Erased(s, pid))
  {
  }

  lemma ErasedView(s: seq<ProcessInfo>, gone: nat, pid: nat)
    requires Sorted(s) && Present(s, gone)
    ensures Sorted(Erased(s, gone))
    ensures OfPid(s, gone) != []
    ensures OfPid(Erased(s, gone), pid) == if pid == gone then OfPid(s, pid)[1..] else OfPid(s, pid)
  {
    LowerBoundOldest(s, gone);
    ErasedSorted(s, gone);
    var i := LowerBound(s, gone);
    OfPidNone(s[..i], gone);
    OfPidEraseAt(s, i, pid);
  }

  /** The erased element is the oldest entry of its pid. */
  lemma LowerBoundOldest(s: seq<ProcessInfo>, pid: nat)
    requires Sorted(s) && Present(s, pid)
    ensures LowerBound(s, pid) < |s|
    ensures OfPid(s, pid) != [] && s[LowerBound(s, pid)] == OfPid(s, pid)[0]
  {
    var i := LowerBound(s, pid);
    OfPidNone(s, pid);
    OfPidNone(s[..i], pid);
    OfPidEraseAt(s, i, pid);
  }

  lemma WithoutFirstView(s: seq<ProcessInfo>, gone: nat, pid: nat)
    ensures Present(s, gone) ==> OfPid(s, gone) != []
    ensures OfPid(WithoutFirst(s, gone), pid)
         == if pid == gone && Present(s, gone) then OfPid(s, pid)[1..] else OfPid(s, pid)
  {
    var i := FirstMatch(s, gone);
    OfPidNone(s, gone);
    if i < |s| {
      OfPidNone(s[..i], gone);
      OfPidEraseAt(s, i, gone);
      OfPidEraseAt(s, i, pid);
    }
  }

  /** The missing equality check: lower_bound erasure is "erase one entry of this pid, or
      nothing" exactly when the pid is listed or lies above every listed pid. */
  lemma ErasedIsWithoutFirst(s: seq<ProcessInfo>, pid: nat)
    requires Sorted(s)
    ensures Erased(s, pid) == WithoutFirst(s, pid) <==> Present(s, pid) || ExceedsAll(s, pid)
  {
    var i := LowerBound(s, pid);
    if Present(s, pid) {
      assert FirstMatch(s, pid) == i;
    } else if ExceedsAll(s, pid) {
      assert i == |s|;
    } else {
      assert |WithoutFirst(s, pid)| == |s|;
      assert i < |s| && |Erased(s, pid)| == |s| - 1;
    }
  }

  /** StableSort is a sort, and stable: it keeps every pid's entries in order. */
  lemma {:induction false} StableSortView(s: seq<ProcessInfo>)
    ensures Sorted(StableSort(s))
    ensures SameView(StableSort(s), s)
  {
    if s != [] {
      var init, last := s[..|s| - 1], s[|s| - 1];
      StableSortView(init);
      InsertedView(StableSort(init), last, last.pid);
      forall pid: nat ensures OfPid(StableSort(s), pid) == OfPid(s, pid) {
        InsertedView(StableSort(init), last, pid);
        assert s == init + [last];
        OfPidConcat(init, [last], pid);
      }
    }
  }

  /** The stable sort of a list is its only sorted list with the same by-pid view. */
  lemma IsStableSort(v: seq<ProcessInfo>, s: seq<ProcessInfo>)
    requires Sorted(v)
    ensures v == StableSort(s) <==> SameView(v, s)
  {
    StableSortView(s);
    if SameView(v, s) {
      SortedUnique(v, StableSort(s));
    }
  }

  lemma PresentSame(a: seq<ProcessInfo>, b: seq<ProcessInfo>, pid: nat)
    requires OfPid(a, pid) == OfPid(b, pid)
    ensures Present(a, pid) == Present(b, pid)
  {
    OfPidNone(a, pid);
    OfPidNone(b, pid);
  }
}
