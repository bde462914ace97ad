/** The history table: one row per (pid, creation second), and what startup, creations and
    deletions do to it. The sign of a termination time is an encoding: 0 is running,
    positive is the exact second, negative is "still alive at that second". */
module History {
  import opened Options
  import opened Processes

  datatype Row = Row(details: Details, termination: int)

  type Rows = map<Key, Row>

  /** INSERT OR IGNORE under the unique index on (pid, creation_time). */
  function InsertOrIgnore(rows: Rows, p: ProcessInfo): Rows {
    if p.Id() in rows then rows else rows[p.Id() := Row(p.details, 0)]
  }

  function InsertAll(rows: Rows, ps: seq<ProcessInfo>): Rows {
    if ps == [] then rows
    else InsertOrIgnore(InsertAll(rows, ps[..|ps| - 1]), ps[|ps| - 1])
  }

  /** UPDATE ... SET termination_time = t WHERE creation_time = ... AND pid = ... */
  function Stamp(rows: Rows, k: Key, t: int): Rows {
    if k in rows then rows[k := rows[k].(termination := t)] else rows
  }

  /** UPDATE ... SET termination_time = -lastAlive WHERE termination_time = 0 */
  function Repair(rows: Rows, lastAlive: int): Rows {
    map k | k in rows :: if rows[k].termination == 0 then rows[k].(termination := -lastAlive) else rows[k]
  }

  function StartupRows(rows: Rows, lastAlive: Option<int>, ps: seq<ProcessInfo>): Rows {
    InsertAll(if lastAlive.Some? then Repair(rows, lastAlive.value) else rows, ps)
  }

  /** The database file and the persisted LastAlive setting: both outlive the process. */
  class HistoryStore {
    var rows: Rows
    var lastAlive: Option<int>

    method Insert(p: ProcessInfo)
      modifies this`rows
      ensures rows == InsertOrIgnore(old(rows), p)
    {
      if p.Id() !in rows {
        rows := rows[p.Id() := Row(p.details, 0)];
      }
    }

    method Startup(now: int, ps: seq<ProcessInfo>)
      modifies this
      ensures rows == StartupRows(old(rows), old(lastAlive), ps)
      ensures lastAlive == Some(now)
    {
      var previous := lastAlive;
      lastAlive := Some(now);
      if previous.Some? {
        rows := Repair(rows, previous.value);
      }
      ghost var repaired := rows;
      var i := 0;
      while i < |ps|
        invariant 0 <= i <= |ps|
        invariant rows == InsertAll(repaired, ps[..i])
        invariant lastAlive == Some(now)
      {
        assert ps[..i + 1][..i] == ps[..i];
        Insert(ps[i]);
        i := i + 1;
      }
      assert ps[..|ps|] == ps;
    }

    method ProcessCreated(p: ProcessInfo)
      modifies this`rows
      ensures rows == InsertOrIgnore(old(rows), p)
    {
      Insert(p);
    }

    method ProcessDeleted(p: ProcessInfo)
      modifies this`rows
      ensures rows == Stamp(old(rows), p.Id(), p.terminated)
    {
      if p.Id() in rows {
        rows := rows[p.Id() := rows[p.Id()].(termination := p.terminated)];
      }
    }

    method SetLastAlive(now: int)
      modifies this`lastAlive
      ensures lastAlive == Some(now)
    {
      lastAlive := Some(now);
    }
  }

  /* ---------- what startup leaves behind ---------- */

  /** Insertion adds only missing keys, as running, with the first record of that key. */
  lemma {:induction false} InsertAllAt(rows: Rows, ps: seq<ProcessInfo>, k: Key)
    ensures k in rows ==> k in InsertAll(rows, ps) && InsertAll(rows, ps)[k] == rows[k]
    ensures k !in rows ==> (k in InsertAll(rows, ps) <==> exists i :: 0 <= i < |ps| && ps[i].Id() == k)
    ensures k !in rows && k in InsertAll(rows, ps) ==>
            exists i :: 0 <= i < |ps| && ps[i].Id() == k
                     && InsertAll(rows, ps)[k] == Row(ps[i].details, 0)
                     && forall j :: 0 <= j < i ==> ps[j].Id() != k
  {
    if ps != [] {
      var init, last := ps[..|ps| - 1], ps[|ps| - 1];
      InsertAllAt(rows, init, k);
      if k !in rows {
        if k in InsertAll(rows, init) {
          var i :| 0 <= i < |init| && init[i].Id() == k
                && InsertAll(rows, init)[k] == Row(init[i].details, 0)
                && forall j :: 0 <= j < i ==> init[j].Id() != k;
          assert ps[i].Id() == k && forall j :: 0 <= j < i ==> ps[j] == init[j];
        } else {
          forall i | 0 <= i < |ps| - 1 ensures ps[i].Id() != k { assert init[i].Id() != k; }
          assert k in InsertAll(rows, ps) <==> last.Id() == k;
        }
      }
    }
  }

  /** After a startup that knew LastAlive: old running rows say "after LastAlive", other old
      rows are untouched, and exactly the listed processes without a row became running. */
  lemma StartupAt(rows: Rows, lastAlive: int, ps: seq<ProcessInfo>, k: Key)
    requires lastAlive > 0
    ensures var after := StartupRows(rows, Some(lastAlive), ps);
      && (k in rows ==> (k in after && after[k] == Repair(rows, lastAlive)[k] && after[k].termination != 0))
      && ((k in after && after[k].termination == 0)
          <==> (k !in rows && exists i :: 0 <= i < |ps| && ps[i].Id() == k))
  {
    InsertAllAt(Repair(rows, lastAlive), ps, k);
  }

  /** Without a LastAlive nothing is repaired: rows stay, listed processes without one get one. */
  lemma FirstStartupAt(rows: Rows, ps: seq<ProcessInfo>, k: Key)
    ensures var after := StartupRows(rows, None, ps);
      && (k in rows ==> k in after && after[k] == rows[k])
      && (k !in rows ==> (k in after <==> exists i :: 0 <= i < |ps| && ps[i].Id() == k))
      && (k !in rows && k in after ==> after[k].termination == 0)
  {
    InsertAllAt(rows, ps, k);
  }

  /* ---------- every order of database statements ---------- */

  datatype Statement =
    | Insert(process: ProcessInfo)
    | Update(key: Key, termination: int)
    | RepairFrom(lastAlive: int)

  function Execute(rows: Rows, q: Statement): Rows {
    match q
    case Insert(p) => InsertOrIgnore(rows, p)
    case Update(k, t) => Stamp(rows, k, t)
    case RepairFrom(l) => Repair(rows, l)
  }

  function ExecuteAll(rows: Rows, qs: seq<Statement>): Rows
    decreases qs
  {
    if qs == [] then rows else ExecuteAll(Execute(rows, qs[0]), qs[1..])
  }

  predicate Updates(qs: seq<Statement>, k: Key) {
    exists i :: 0 <= i < |qs| && qs[i].Update? && qs[i].key == k
  }

  /** A deletion touches no other key, and makes no row. */
  lemma UpdateTouchesOne(rows: Rows, k: Key, t: int, other: Key)
    ensures Stamp(rows, k, t).Keys == rows.Keys
    ensures other != k && other in rows ==> Stamp(rows, k, t)[other] == rows[other]
    ensures k in rows ==> Stamp(rows, k, t)[k] == Row(rows[k].details, t)
  {
  }

  /** A row never disappears and keeps its other columns; a nonzero termination time is
      final until a deletion of that very key. */
  lemma {:induction false} RowsPersist(rows: Rows, qs: seq<Statement>, k: Key)
    requires k in rows
    ensures k in ExecuteAll(rows, qs)
    ensures ExecuteAll(rows, qs)[k].details == rows[k].details
    ensures rows[k].termination != 0 && !Updates(qs, k) ==> ExecuteAll(rows, qs)[k] == rows[k]
    decreases qs
  {
    if qs != [] {
      RowsPersist(Execute(rows, qs[0]), qs[1..], k);
      if !Updates(qs, k) {
        forall i | 0 <= i < |qs| - 1 && qs[1..][i].Update? ensures qs[1..][i].key != k {
          assert qs[i + 1].Update? ==> qs[i + 1].key != k;
        }
      }
    }
  }

  /** The last deletion of a key decides, unless the key has no row yet. */
  lemma {:induction false} LastUpdateWins(rows: Rows, before: seq<Statement>, k: Key, t: int, after: seq<Statement>)
    requires k in rows && t != 0 && !Updates(after, k)
    ensures var final := ExecuteAll(rows, before + [Update(k, t)] + after);
      k in final && final[k] == Row(rows[k].details, t)
    decreases before
  {
    var qs := before + [Update(k, t)] + after;
    if before == [] {
      assert qs[1..] == after;
      RowsPersist(Stamp(rows, k, t), after, k);
    } else {
      RowsPersist(rows, [before[0]], k);
      assert [before[0]][1..] == [];
      assert qs[1..] == before[1..] + [Update(k, t)] + after;
      LastUpdateWins(Execute(rows, before[0]), before[1..], k, t, after);
    }
  }
}
