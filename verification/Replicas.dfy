/** One stream of creations and deletions drives the sorted vector and the live table. */
module Replicas {
  import opened Processes

  datatype Event = Created(process: ProcessInfo) | Deleted(pid: nat)

  function TrackerStep(v: seq<ProcessInfo>, e: Event): seq<ProcessInfo> {
    match e
    case Created(p) => Inserted(v, p)
    case Deleted(pid) => Erased(v, pid)
  }

  function TableStep(t: seq<ProcessInfo>, e: Event): seq<ProcessInfo> {
    match e
    case Created(p) => t + [p]
    case Deleted(pid) => WithoutFirst(t, pid)
  }

  function TrackerRun(v: seq<ProcessInfo>, es: seq<Event>): seq<ProcessInfo>
    decreases es
  {
    if es == [] then v else TrackerRun(TrackerStep(v, es[0]), es[1..])
  }

  function TableRun(t: seq<ProcessInfo>, es: seq<Event>): seq<ProcessInfo>
    decreases es
  {
    if es == [] then t else TableRun(TableStep(t, es[0]), es[1..])
  }

  /** A deletion both replicas understand alike: of a listed pid, or of one above all. */
  predicate Harmless(t: seq<ProcessInfo>, e: Event) {
    e.Deleted? ==> Present(t, e.pid) || ExceedsAll(t, e.pid)
  }

  predicate AllHarmless(t: seq<ProcessInfo>, es: seq<Event>)
    decreases es
  {
    es == [] || (Harmless(t, es[0]) && AllHarmless(TableStep(t, es[0]), es[1..]))
  }

  /** The vector is the stable sort of the table now and after each of the events. */
  ghost predicate AgreeThroughout(v: seq<ProcessInfo>, t: seq<ProcessInfo>, es: seq<Event>)
    decreases es
  {
    && v == StableSort(t)
    && (es == [] || AgreeThroughout(TrackerStep(v, es[0]), TableStep(t, es[0]), es[1..]))
  }

  lemma TrackerStepSorted(v: seq<ProcessInfo>, e: Event)
    requires Sorted(v)
    ensures Sorted(TrackerStep(v, e))
  {
    match e
    case Created(p) => InsertedView(v, p, p.pid);
    case Deleted(pid) => ErasedSorted(v, pid);
  }

  /** Every event, harmless or not, keeps the vector sorted. */
  lemma {:induction false} TrackerRunSorted(v: seq<ProcessInfo>, es: seq<Event>)
    requires Sorted(v)
    ensures Sorted(TrackerRun(v, es))
    decreases es
  {
    if es != [] {
      TrackerStepSorted(v, es[0]);
      TrackerRunSorted(TrackerStep(v, es[0]), es[1..]);
    }
  }

  lemma CreatedAgrees(v: seq<ProcessInfo>, t: seq<ProcessInfo>, p: ProcessInfo)
    requires v == StableSort(t)
    ensures Inserted(v, p) == StableSort(t + [p])
  {
    assert (t + [p])[..|t|] == t;
  }

  lemma HarmlessDeleteAgrees(v: seq<ProcessInfo>, t: seq<ProcessInfo>, pid: nat)
    requires v == StableSort(t)
    requires Present(t, pid)
    ensures Erased(v, pid) == StableSort(WithoutFirst(t, pid))
  {
    StableSortView(t);
    PresentSame(v, t, pid);
    ErasedView(v, pid, pid);
    forall q: nat ensures OfPid(Erased(v, pid), q) == OfPid(WithoutFirst(t, pid), q) {
      ErasedView(v, pid, q);
      WithoutFirstView(t, pid, q);
    }
    IsStableSort(Erased(v, pid), WithoutFirst(t, pid));
  }

  lemma AboveAllSame(v: seq<ProcessInfo>, t: seq<ProcessInfo>, pid: nat)
    requires v == StableSort(t)
    ensures ExceedsAll(v, pid) == ExceedsAll(t, pid)
    ensures Present(v, pid) == Present(t, pid)
  {
    StableSortView(t);
    PresentSame(v, t, pid);
    forall i | 0 <= i < |v| ensures Present(t, v[i].pid) { PresentSame(v, t, v[i].pid); }
    forall i | 0 <= i < |t| ensures Present(v, t[i].pid) { PresentSame(v, t, t[i].pid); }
  }

  /** One event keeps the replicas in agreement exactly when it is harmless. */
  lemma StepAgreesIff(v: seq<ProcessInfo>, t: seq<ProcessInfo>, e: Event)
    requires v == StableSort(t)
    ensures TrackerStep(v, e) == StableSort(TableStep(t, e)) <==> Harmless(t, e)
  {
    match e
    case Created(p) => CreatedAgrees(v, t, p);
    case Deleted(pid) =>
      StableSortView(t);
      AboveAllSame(v, t, pid);
      ErasedIsWithoutFirst(v, pid);
      if Present(t, pid) {
        HarmlessDeleteAgrees(v, t, pid);
      } else {
        assert WithoutFirst(t, pid) == t;
        assert WithoutFirst(v, pid) == v;
      }
  }

  /** The vector tracks the stable sort of the table through a whole run exactly when every
      deletion of the run is harmless; creations may repeat a listed pid. */
  lemma {:induction false} AgreementIff(v: seq<ProcessInfo>, t: seq<ProcessInfo>, es: seq<Event>)
    requires v == StableSort(t)
    ensures AgreeThroughout(v, t, es) <==> AllHarmless(t, es)
    decreases es
  {
    if es != [] {
      StepAgreesIff(v, t, es[0]);
      if Harmless(t, es[0]) {
        AgreementIff(TrackerStep(v, es[0]), TableStep(t, es[0]), es[1..]);
      } else {
        NotThroughout(TrackerStep(v, es[0]), TableStep(t, es[0]), es[1..]);
      }
    }
  }

  lemma NotThroughout(v: seq<ProcessInfo>, t: seq<ProcessInfo>, es: seq<Event>)
    requires v != StableSort(t)
    ensures !AgreeThroughout(v, t, es)
  {
  }

  lemma {:induction false} SortedIsOwnStableSort(v: seq<ProcessInfo>)
    requires Sorted(v)
    ensures v == StableSort(v)
  {
    IsStableSort(v, v);
  }

  /** From any sorted vector the table copied at its construction: after every event of a
      run of harmless events, the vector is the stable sort of the table. */
  lemma {:induction false} ReplicasAgree(v: seq<ProcessInfo>, es: seq<Event>)
    requires Sorted(v)
    requires AllHarmless(v, es)
    ensures AgreeThroughout(v, v, es)
    ensures TrackerRun(v, es) == StableSort(TableRun(v, es))
  {
    SortedIsOwnStableSort(v);
    AgreementIff(v, v, es);
    EndOfRun(v, v, es);
  }

  lemma {:induction false} EndOfRun(v: seq<ProcessInfo>, t: seq<ProcessInfo>, es: seq<Event>)
    requires AgreeThroughout(v, t, es)
    ensures TrackerRun(v, es) == StableSort(TableRun(t, es))
    decreases es
  {
    if es != [] {
      EndOfRun(TrackerStep(v, es[0]), TableStep(t, es[0]), es[1..]);
    }
  }

  /** A deletion of an unlisted pid below a listed one erases somebody else's entry. */
  lemma UnlistedDeleteDiverges(a: ProcessInfo, pid: nat)
    requires pid < a.pid
    ensures TrackerRun([a], [Deleted(pid)]) == []
    ensures TableRun([a], [Deleted(pid)]) == [a]
  {
    assert TrackerStep([a], Deleted(pid)) == [];
    assert TableStep([a], Deleted(pid)) == [a];
    assert [Deleted(pid)][1..] == [];
  }

  /* ---------- each pid is a queue ---------- */

  predicate DeletesPresent(v: seq<ProcessInfo>, es: seq<Event>)
    decreases es
  {
    es == [] || ((es[0].Deleted? ==> Present(v, es[0].pid))
                 && DeletesPresent(TrackerStep(v, es[0]), es[1..]))
  }

  function CreatedBy(e: Event, pid: nat): seq<ProcessInfo> {
    if e.Created? && e.process.pid == pid then [e.process] else []
  }

  function DeletedBy(e: Event, pid: nat): nat {
    if e == Deleted(pid) then 1 else 0
  }

  function CreatedOf(es: seq<Event>, pid: nat): seq<ProcessInfo> {
    if es == [] then [] else CreatedBy(es[0], pid) + CreatedOf(es[1..], pid)
  }

  function DeletedOf(es: seq<Event>, pid: nat): nat {
    if es == [] then 0 else DeletedBy(es[0], pid) + DeletedOf(es[1..], pid)
  }

  lemma QueueStep(v: seq<ProcessInfo>, e: Event, pid: nat)
    requires Sorted(v) && (e.Deleted? ==> Present(v, e.pid))
    ensures Sorted(TrackerStep(v, e))
    ensures DeletedBy(e, pid) <= |OfPid(v, pid) + CreatedBy(e, pid)|
    ensures OfPid(TrackerStep(v, e), pid) == (OfPid(v, pid) + CreatedBy(e, pid))[DeletedBy(e, pid)..]
  {
    var q := OfPid(v, pid);
    TrackerStepSorted(v, e);
    match e
    case Created(p) =>
      InsertedView(v, p, pid);
      assert (q + CreatedBy(e, pid))[0..] == q + CreatedBy(e, pid);
    case Deleted(gone) =>
      ErasedView(v, gone, pid);
      assert q + [] == q;
      assert gone != pid ==> q[0..] == q;
  }

  lemma QueueAlgebra<T>(q: seq<T>, a: seq<T>, d: nat, b: seq<T>, e: nat)
    requires d <= |q + a| && e <= |(q + a)[d..] + b|
    ensures ((q + a)[d..] + b)[e..] == (q + (a + b))[d + e..]
  {
    assert (q + a) + b == q + (a + b);
  }

  /** When deletions name listed pids, the entries of every pid are a queue: those at the
      start, then those created, less as many of the oldest as were deleted. */
  lemma {:induction false} EntriesAreQueues(v: seq<ProcessInfo>, es: seq<Event>, pid: nat)
    requires Sorted(v) && DeletesPresent(v, es)
    ensures Sorted(TrackerRun(v, es))
    ensures DeletedOf(es, pid) <= |OfPid(v, pid) + CreatedOf(es, pid)|
    ensures OfPid(TrackerRun(v, es), pid) == (OfPid(v, pid) + CreatedOf(es, pid))[DeletedOf(es, pid)..]
    decreases es
  {
    if es != [] {
      var e, rest := es[0], es[1..];
      QueueStep(v, e, pid);
      EntriesAreQueues(TrackerStep(v, e), rest, pid);
      QueueAlgebra(OfPid(v, pid), CreatedBy(e, pid), DeletedBy(e, pid),
                   CreatedOf(rest, pid), DeletedOf(rest, pid));
    }
  }
}
