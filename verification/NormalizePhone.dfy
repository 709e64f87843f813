/** The batched, resumable rewrite of stored phone numbers (cmd/cliclient/normalize_phone.go). */
module NormalizePhone {
  import opened Sorting

  /** Row IDs are UUIDs in their textual order. */
  type Id = string

  datatype Row = Row(value: string, sms: bool)

  type Rows = map<Id, Row>

  datatype Stats = Stats(scanned: nat, updated: nat, skipped: nat, errors: nat)

  /** What the migration depends on: the phone pattern, the normaliser, and which updates the database refuses. */
  datatype Env = Env(looksLikePhone: string -> bool, norm: string -> string, refuses: (Rows, Id, string) -> bool)

  datatype State = State(rows: Rows, stats: Stats)

  /** The WHERE clause, apart from the ID. */
  predicate Qualifies(row: Row) { row.sms && row.value != "" && row.value[0] == '+' }

  /** The IDs the migration has still to visit, in order. */
  ghost function Pending(rows: Rows, after: Id): seq<Id> {
    SortedSeq(StrLess, set id | id in rows && Qualifies(rows[id]) && StrLess(after, id))
  }

  predicate Settled(env: Env, value: string) {
    !env.looksLikePhone(value) || env.norm(value) == value
  }

  /** One row of the inner loop. */
  function Visit(env: Env, dryRun: bool, s: State, id: Id): State {
    if id !in s.rows then s
    else
      var value, stats := s.rows[id].value, s.stats.(scanned := s.stats.scanned + 1);
      if Settled(env, value) then State(s.rows, stats.(skipped := stats.skipped + 1))
      else if dryRun then State(s.rows, stats.(updated := stats.updated + 1))
      else if env.refuses(s.rows, id, env.norm(value)) then State(s.rows, stats.(errors := stats.errors + 1))
      else State(s.rows[id := s.rows[id].(value := env.norm(value))], stats.(updated := stats.updated + 1))
  }

  /** The first `n` of the given rows. */
  function VisitAll(env: Env, dryRun: bool, s: State, ids: seq<Id>, n: nat): State
    requires n <= |ids|
  {
    if n == 0 then s else Visit(env, dryRun, VisitAll(env, dryRun, s, ids, n - 1), ids[n - 1])
  }

  lemma {:induction false} VisitAllSplit(env: Env, dryRun: bool, s: State, ids: seq<Id>, k: nat, part: seq<Id>, n: nat)
    requires k + |part| <= |ids| && n <= |part| && forall i :: 0 <= i < |part| ==> part[i] == ids[k + i]
    ensures VisitAll(env, dryRun, s, ids, k + n) == VisitAll(env, dryRun, VisitAll(env, dryRun, s, ids, k), part, n)
    decreases n
  {
    if n > 0 { VisitAllSplit(env, dryRun, s, ids, k, part, n - 1); }
  }

  lemma {:induction false} KeysKept(env: Env, dryRun: bool, s: State, ids: seq<Id>, n: nat)
    requires n <= |ids|
    ensures VisitAll(env, dryRun, s, ids, n).rows.Keys == s.rows.Keys
  {
    if n > 0 { KeysKept(env, dryRun, s, ids, n - 1); }
  }

  /** Only visited rows change. */
  lemma {:induction false} OtherKept(env: Env, dryRun: bool, s: State, ids: seq<Id>, n: nat, id: Id)
    requires n <= |ids| && id in s.rows && forall i :: 0 <= i < n ==> ids[i] != id
    ensures id in VisitAll(env, dryRun, s, ids, n).rows && VisitAll(env, dryRun, s, ids, n).rows[id] == s.rows[id]
  {
    if n > 0 { OtherKept(env, dryRun, s, ids, n - 1, id); }
  }

  lemma PendingIsSorted(rows: Rows, after: Id)
    ensures StrictlySorted(StrLess, Pending(rows, after)) && Distinct(Pending(rows, after))
    ensures forall id :: id in Pending(rows, after) <==> id in rows && Qualifies(rows[id]) && StrLess(after, id)
  {
    StrLessStrict();
    var ids := set id | id in rows && Qualifies(rows[id]) && StrLess(after, id);
    SortedSeqSorted(StrLess, ids);
    assert forall id :: id in SortedSeq(StrLess, ids) <==> id in Elements(SortedSeq(StrLess, ids));
  }

  /** The ID printed after `k` rows. */
  function LastId(start: Id, all: seq<Id>, k: nat): Id
    requires k <= |all|
  {
    if k == 0 then start else all[k - 1]
  }

  /** In a sorted list, the elements after the first `k` are those above the `k`-th. */
  lemma TailIsAbove(all: seq<Id>, k: nat, id: Id)
    requires StrictlySorted(StrLess, all) && k <= |all|
    ensures id in all[k..] <==> id in all && (k == 0 || StrLess(all[k - 1], id))
    ensures id in all[..k] ==> k > 0 && !StrLess(all[k - 1], id)
  {
    StrLessStrict();
    if id in all {
      var i :| 0 <= i < |all| && all[i] == id;
      if i < k {
        assert i < k - 1 ==> StrLess(all[i], all[k - 1]);
        assert id !in all[k..];
      } else {
        assert all[k..][i - k] == id;
        assert k > 0 ==> StrLess(all[k - 1], all[i]);
      }
    }
  }

  /** After the first `k` rows, what is left after the printed ID is the rest of the list. */
  lemma PendingAfter(env: Env, dryRun: bool, s: State, start: Id, k: nat)
    requires k <= |Pending(s.rows, start)|
    ensures var all := Pending(s.rows, start);
      Pending(VisitAll(env, dryRun, s, all, k).rows, LastId(start, all, k)) == all[k..]
  {
    var all := Pending(s.rows, start);
    var last := LastId(start, all, k);
    var t := VisitAll(env, dryRun, s, all, k).rows;
    PendingIsSorted(s.rows, start);
    PendingIsSorted(t, last);
    KeysKept(env, dryRun, s, all, k);
    forall id ensures id in Pending(t, last) <==> id in all[k..] {
      TailIsAbove(all, k, id);
      if id in s.rows && id !in all[..k] {
        forall i | 0 <= i < k ensures all[i] != id { assert all[..k][i] == all[i]; }
        OtherKept(env, dryRun, s, all, k, id);
      }
      if k > 0 {
        assert all[k - 1] in all;
        if StrLess(last, id) { StrLessTransitive(start, last, id); }
      }
    }
    StrLessStrict();
    SortedUnique(StrLess, Pending(t, last), all[k..]);
  }

  function Limited(ids: seq<Id>, limit: nat): seq<Id> {
    if |ids| <= limit then ids else ids[..limit]
  }

  /** The batch selected after `k` rows is the next stretch of the list. */
  lemma BatchExtends(env: Env, dryRun: bool, s: State, start: Id, k: nat, batch: seq<Id>, limit: nat)
    requires limit >= 1 && k <= |Pending(s.rows, start)|
    requires var all := Pending(s.rows, start);
      batch == Limited(Pending(VisitAll(env, dryRun, s, all, k).rows, LastId(start, all, k)), limit)
    ensures var all := Pending(s.rows, start);
      && k + |batch| <= |all| && (batch == [] ==> k == |all|)
      && VisitAll(env, dryRun, VisitAll(env, dryRun, s, all, k), batch, |batch|) == VisitAll(env, dryRun, s, all, k + |batch|)
      && (batch != [] ==> batch[|batch| - 1] == LastId(start, all, k + |batch|))
  {
    PendingAfter(env, dryRun, s, start, k);
    VisitAllSplit(env, dryRun, s, Pending(s.rows, start), k, batch, |batch|);
  }

  // ----- the migration as the program runs it -----

  class Table {
    var rows: Rows

    constructor (rows: Rows)
      ensures this.rows == rows
    {
      this.rows := rows;
    }

    /** `SELECT id, value ... WHERE id > ? ORDER BY id ASC LIMIT ?` */
    method Select(after: Id, limit: nat) returns (batch: seq<Id>)
      ensures batch == Limited(Pending(rows, after), limit)
      ensures |batch| <= limit && batch <= Pending(rows, after) && (|batch| < limit ==> batch == Pending(rows, after))
      ensures forall i :: 0 <= i < |batch| ==> batch[i] in rows
    {
      var found := map id | id in rows && Qualifies(rows[id]) && StrLess(after, id) :: rows[id];
      assert found.Keys == set id | id in rows && Qualifies(rows[id]) && StrLess(after, id);
      batch := SortedKeys(found);
      if |batch| > limit { batch := batch[..limit]; }
    }

    /** The body of the inner loop for one selected row. */
    method NormalizeRow(env: Env, dryRun: bool, id: Id, stats: Stats) returns (r: Stats)
      requires id in rows
      modifies this
      ensures State(rows, r) == Visit(env, dryRun, State(old(rows), stats), id)
    {
      var value := rows[id].value;
      r := stats.(scanned := stats.scanned + 1);
      if !env.looksLikePhone(value) { return r.(skipped := r.skipped + 1); }
      var normalized := env.norm(value);
      if normalized == value { return r.(skipped := r.skipped + 1); }
      if dryRun { return r.(updated := r.updated + 1); }
      if env.refuses(rows, id, normalized) { return r.(errors := r.errors + 1); }
      rows := rows[id := rows[id].(value := normalized)];
      r := r.(updated := r.updated + 1);
    }

    /** The inner loop over one batch. */
    method NormalizeBatch(env: Env, dryRun: bool, batch: seq<Id>, stats: Stats) returns (r: Stats)
      requires forall i :: 0 <= i < |batch| ==> batch[i] in rows
      modifies this
      ensures State(rows, r) == VisitAll(env, dryRun, State(old(rows), stats), batch, |batch|)
    {
      r := stats;
      for i := 0 to |batch|
        invariant State(rows, r) == VisitAll(env, dryRun, State(old(rows), stats), batch, i)
        invariant rows.Keys == old(rows).Keys
      {
        r := NormalizeRow(env, dryRun, batch[i], r);
      }
    }

    /** For any batch size of at least 1, every qualifying row after the start is visited once, in ID order. */
    method NormalizeTable(env: Env, batchSize: nat, startAfter: Id, dryRun: bool) returns (stats: Stats)
      requires batchSize >= 1
      modifies this
      ensures State(rows, stats) == Migrate(env, dryRun, old(rows), startAfter)
    {
      stats := Stats(0, 0, 0, 0);
      var lastId := startAfter;
      ghost var start, all := State(rows, stats), Pending(rows, startAfter);
      ghost var k := 0;
      while true
        invariant k <= |all| && lastId == LastId(startAfter, all, k)
        invariant State(rows, stats) == VisitAll(env, dryRun, start, all, k)
        decreases |all| - k
      {
        var batch := Select(lastId, batchSize);
        BatchExtends(env, dryRun, start, startAfter, k, batch, batchSize);
        if |batch| == 0 { return; }
        stats := NormalizeBatch(env, dryRun, batch, stats);
        lastId := batch[|batch| - 1];
        k := k + |batch|;
      }
    }
  }

  // ----- what the migration guarantees -----

  ghost function Migrate(env: Env, dryRun: bool, rows: Rows, startAfter: Id): State {
    var all := Pending(rows, startAfter);
    VisitAll(env, dryRun, State(rows, Stats(0, 0, 0, 0)), all, |all|)
  }

  ghost predicate Present(ids: seq<Id>, rows: Rows) {
    forall k :: 0 <= k < |ids| ==> ids[k] in rows
  }

  /** The counters balance, and every visited row is scanned once. */
  lemma {:induction false} CountersBalance(env: Env, dryRun: bool, s: State, ids: seq<Id>, n: nat)
    requires n <= |ids| && Present(ids, s.rows)
    ensures var t := VisitAll(env, dryRun, s, ids, n).stats;
      && t.scanned == s.stats.scanned + n
      && t.scanned - s.stats.scanned
         == (t.updated - s.stats.updated) + (t.skipped - s.stats.skipped) + (t.errors - s.stats.errors)
      && t.updated >= s.stats.updated && t.skipped >= s.stats.skipped && t.errors >= s.stats.errors
  {
    if n > 0 {
      CountersBalance(env, dryRun, s, ids, n - 1);
      KeysKept(env, dryRun, s, ids, n - 1);
    }
  }

  function Add(a: Stats, b: Stats): Stats {
    Stats(a.scanned + b.scanned, a.updated + b.updated, a.skipped + b.skipped, a.errors + b.errors)
  }

  /** Rows do not depend on the counters, and the counters add up. */
  lemma {:induction false} CountersAddUp(env: Env, rows: Rows, stats: Stats, ids: seq<Id>, n: nat)
    requires n <= |ids|
    ensures var zero, t := VisitAll(env, false, State(rows, Stats(0, 0, 0, 0)), ids, n), VisitAll(env, false, State(rows, stats), ids, n);
      t.rows == zero.rows && t.stats == Add(stats, zero.stats)
  {
    if n > 0 { CountersAddUp(env, rows, stats, ids, n - 1); }
  }

  /** Stopping after any row and starting again from the printed ID gives the same table as one run,
      and the counters of the two runs add up to those of the one. */
  lemma ResumeIsSeamless(env: Env, rows: Rows, startAfter: Id, k: nat)
    requires k <= |Pending(rows, startAfter)|
    ensures var all := Pending(rows, startAfter);
      var stopped := VisitAll(env, false, State(rows, Stats(0, 0, 0, 0)), all, k);
      var resumed := Migrate(env, false, stopped.rows, LastId(startAfter, all, k));
      Migrate(env, false, rows, startAfter) == State(resumed.rows, Add(stopped.stats, resumed.stats))
  {
    var all := Pending(rows, startAfter);
    var s := State(rows, Stats(0, 0, 0, 0));
    var stopped := VisitAll(env, false, s, all, k);
    PendingAfter(env, false, s, startAfter, k);
    VisitAllSplit(env, false, s, all, k, all[k..], |all| - k);
    CountersAddUp(env, stopped.rows, stopped.stats, all[k..], |all| - k);
  }

  /** A dry run changes nothing and predicts how many rows a real run will update or fail to update. */
  lemma {:induction false} DryRunPredicts(env: Env, s: State, ids: seq<Id>, n: nat)
    requires n <= |ids| && Distinct(ids)
    ensures var dry, wet := VisitAll(env, true, s, ids, n), VisitAll(env, false, s, ids, n);
      && dry.rows == s.rows
      && dry.stats.scanned == wet.stats.scanned && dry.stats.skipped == wet.stats.skipped
      && dry.stats.updated + dry.stats.errors == wet.stats.updated + wet.stats.errors
      && dry.stats.errors == s.stats.errors
  {
    if n > 0 {
      DryRunPredicts(env, s, ids, n - 1);
      KeysKept(env, false, s, ids, n - 1);
      if ids[n - 1] in s.rows { OtherKept(env, false, s, ids, n - 1, ids[n - 1]); }
    }
  }

  ghost predicate NormFixesOutputs(env: Env) {
    forall v :: env.norm(env.norm(v)) == env.norm(v)
  }

  ghost predicate AllSettled(env: Env, rows: Rows, ids: seq<Id>, n: nat)
    requires n <= |ids|
  {
    forall k :: 0 <= k < n ==> ids[k] in rows && Settled(env, rows[ids[k]].value)
  }

  /** A visit without error settles its row and unsettles no other. */
  lemma VisitSettles(env: Env, s: State, ids: seq<Id>, n: nat)
    requires n < |ids| && NormFixesOutputs(env) && Distinct(ids) && ids[n] in s.rows
    requires AllSettled(env, s.rows, ids, n) && Visit(env, false, s, ids[n]).stats.errors <= s.stats.errors
    ensures AllSettled(env, Visit(env, false, s, ids[n]).rows, ids, n + 1)
  {}

  lemma VisitErrors(env: Env, s: State, id: Id)
    ensures s.stats.errors <= Visit(env, false, s, id).stats.errors
  {}

  lemma {:induction false} ErrorsGrow(env: Env, s: State, ids: seq<Id>, m: nat, n: nat)
    requires m <= n <= |ids|
    ensures VisitAll(env, false, s, ids, m).stats.errors <= VisitAll(env, false, s, ids, n).stats.errors
    decreases n
  {
    if m < n {
      ErrorsGrow(env, s, ids, m, n - 1);
      VisitErrors(env, VisitAll(env, false, s, ids, n - 1), ids[n - 1]);
    }
  }

  lemma VisitedAreSettled(env: Env, s: State, ids: seq<Id>, n: nat)
    requires n <= |ids| && NormFixesOutputs(env) && Distinct(ids) && Present(ids, s.rows)
    requires VisitAll(env, false, s, ids, n).stats.errors <= s.stats.errors
    ensures AllSettled(env, VisitAll(env, false, s, ids, n).rows, ids, n)
  {
    for k := 0 to n
      invariant AllSettled(env, VisitAll(env, false, s, ids, k).rows, ids, k)
    {
      ErrorsGrow(env, s, ids, k + 1, n);
      NextIsSettled(env, s, ids, k);
    }
  }

  lemma NextIsSettled(env: Env, s: State, ids: seq<Id>, n: nat)
    requires n < |ids| && NormFixesOutputs(env) && Distinct(ids) && Present(ids, s.rows)
    requires VisitAll(env, false, s, ids, n + 1).stats.errors <= s.stats.errors
    requires AllSettled(env, VisitAll(env, false, s, ids, n).rows, ids, n)
    ensures AllSettled(env, VisitAll(env, false, s, ids, n + 1).rows, ids, n + 1)
  {
    ErrorsGrow(env, s, ids, 0, n);
    KeysKept(env, false, s, ids, n);
    VisitSettles(env, VisitAll(env, false, s, ids, n), ids, n);
  }

  lemma {:induction false} SettledAreSkipped(env: Env, s: State, ids: seq<Id>, n: nat)
    requires n <= |ids| && forall k :: 0 <= k < |ids| ==> ids[k] in s.rows && Settled(env, s.rows[ids[k]].value)
    ensures var t := VisitAll(env, false, s, ids, n);
      t.rows == s.rows && t.stats.updated == s.stats.updated && t.stats.errors == s.stats.errors
  {
    if n > 0 { SettledAreSkipped(env, s, ids, n - 1); }
  }

  lemma PendingIsPresent(rows: Rows, startAfter: Id)
    ensures Present(Pending(rows, startAfter), rows)
  {
    PendingIsSorted(rows, startAfter);
    var all := Pending(rows, startAfter);
    forall k | 0 <= k < |all| ensures all[k] in rows { assert all[k] in all; }
  }

  /** After an error-free run, a second run updates nothing. */
  lemma SecondRunUpdatesNothing(env: Env, rows: Rows, startAfter: Id)
    requires NormFixesOutputs(env) && Migrate(env, false, rows, startAfter).stats.errors == 0
    ensures var first := Migrate(env, false, rows, startAfter);
      var second := Migrate(env, false, first.rows, startAfter);
      second.rows == first.rows && second.stats.updated == 0 && second.stats.errors == 0
  {
    var s, all := State(rows, Stats(0, 0, 0, 0)), Pending(rows, startAfter);
    var first := Migrate(env, false, rows, startAfter);
    PendingIsSorted(rows, startAfter);
    PendingIsPresent(rows, startAfter);
    VisitedAreSettled(env, s, all, |all|);
    KeysKept(env, false, s, all, |all|);
    var again := Pending(first.rows, startAfter);
    PendingIsSorted(first.rows, startAfter);
    forall k | 0 <= k < |again| ensures again[k] in first.rows && Settled(env, first.rows[again[k]].value) {
      assert again[k] in again;
      if again[k] !in all { OtherKept(env, false, s, all, |all|, again[k]); }
    }
    SettledAreSkipped(env, State(first.rows, Stats(0, 0, 0, 0)), again, |again|);
  }

  // ----- the table after a run -----

  /** The rows a run is for: SMS rows starting with a plus, after the start. */
  ghost predicate Concerned(rows: Rows, startAfter: Id, id: Id) {
    id in rows && rows[id].sms && rows[id].value != "" && rows[id].value[0] == '+' && StrLess(startAfter, id)
  }

  /** The row of a visited ID, before and after. */
  ghost predicate Rewritten(env: Env, before: Row, after: Row, errorFree: bool) {
    && after.sms == before.sms
    && (after.value == before.value || (env.looksLikePhone(before.value) && after.value == env.norm(before.value)))
    && (errorFree && env.looksLikePhone(before.value) ==> after.value == env.norm(before.value))
  }

  lemma VisitRewrites(env: Env, s: State, id: Id)
    requires id in s.rows
    ensures var t := Visit(env, false, s, id);
      id in t.rows && Rewritten(env, s.rows[id], t.rows[id], t.stats.errors <= s.stats.errors)
  {}

  lemma {:induction false} VisitedRow(env: Env, s: State, ids: seq<Id>, n: nat, k: nat)
    requires k < n <= |ids| && Distinct(ids) && Present(ids, s.rows)
    ensures var t := VisitAll(env, false, s, ids, n);
      ids[k] in t.rows && Rewritten(env, s.rows[ids[k]], t.rows[ids[k]], t.stats.errors <= s.stats.errors)
    decreases n
  {
    var before := VisitAll(env, false, s, ids, n - 1);
    KeysKept(env, false, s, ids, n - 1);
    ErrorsGrow(env, s, ids, 0, n - 1);
    VisitErrors(env, before, ids[n - 1]);
    if k < n - 1 {
      VisitedRow(env, s, ids, n - 1, k);
      assert Visit(env, false, before, ids[n - 1]).rows[ids[k]] == before.rows[ids[k]];
    } else {
      OtherKept(env, false, s, ids, k, ids[k]);
      VisitRewrites(env, before, ids[k]);
    }
  }

  /** Only rows the run is for change, only in their value, and only to the normalised number; without errors every one
      of them that looks like a phone number ends up normalised. */
  lemma MigratedRows(env: Env, rows: Rows, startAfter: Id, id: Id)
    requires id in rows
    ensures var t := Migrate(env, false, rows, startAfter);
      && id in t.rows
      && if Concerned(rows, startAfter, id) then Rewritten(env, rows[id], t.rows[id], t.stats.errors == 0) else t.rows[id] == rows[id]
  {
    var s, all := State(rows, Stats(0, 0, 0, 0)), Pending(rows, startAfter);
    PendingIsSorted(rows, startAfter);
    PendingIsPresent(rows, startAfter);
    if id in all {
      var k :| 0 <= k < |all| && all[k] == id;
      VisitedRow(env, s, all, |all|, k);
    } else {
      OtherKept(env, false, s, all, |all|, id);
    }
  }
}
