/** Concurrent appenders to the event table: each reads MAX(sequence) + 1 and inserts later, in a
    transaction that is rolled back when UNIQUE (run_id, sequence) would be violated. */
module EventLog {
  import opened Text

  type RunId = string
  type TxId = nat

  datatype Row = Row(run: RunId, sequence: nat)

  /** `SELECT COALESCE(MAX(sequence), 0)` for one run. */
  function MaxSequence(rows: seq<Row>, run: RunId): nat {
    if rows == [] then 0
    else
      var m := MaxSequence(Front(rows), run);
      if Last(rows).run == run && Last(rows).sequence > m then Last(rows).sequence else m
  }

  /** The committed table in commit order, and each open transaction's own rows. */
  datatype Log = Log(table: seq<Row>, open: map<TxId, seq<Row>>)

  datatype Action =
    | Begin(tx: TxId)
    | Append(tx: TxId, run: RunId, seen: nat)
    | Commit(tx: TxId)
    | Rollback(tx: TxId)

  predicate Conflicts(table: seq<Row>, rows: seq<Row>) {
    exists row :: row in rows && row in table
  }

  /** An append sees its own rows and some prefix of the commit history: the snapshot it reads. */
  function Step(log: Log, action: Action): Log {
    match action
    case Begin(tx) => if tx in log.open then log else log.(open := log.open[tx := []])
    case Append(tx, run, seen) =>
      if tx !in log.open || seen > |log.table| then log
      else
        var sequence := MaxSequence(log.table[..seen] + log.open[tx], run) + 1;
        log.(open := log.open[tx := log.open[tx] + [Row(run, sequence)]])
    case Commit(tx) =>
      if tx !in log.open then log
      else if Conflicts(log.table, log.open[tx]) then Log(log.table, log.open - {tx})
      else Log(log.table + log.open[tx], log.open - {tx})
    case Rollback(tx) => Log(log.table, log.open - {tx})
  }

  function Run(actions: seq<Action>): Log {
    if actions == [] then Log([], map[]) else Step(Run(Front(actions)), Last(actions))
  }

  /** Every row takes the next number of its run. */
  predicate Gapless(table: seq<Row>) {
    table == [] || (Gapless(Front(table)) && Last(table).sequence == MaxSequence(Front(table), Last(table).run) + 1)
  }

  function SequencesOf(table: seq<Row>, run: RunId): seq<nat> {
    if table == [] then []
    else SequencesOf(Front(table), run) + if Last(table).run == run then [Last(table).sequence] else []
  }

  function OneTo(n: nat): seq<nat> {
    seq(n, i => i + 1)
  }

  lemma {:induction false} GaplessMeans(table: seq<Row>, run: RunId)
    requires Gapless(table)
    ensures SequencesOf(table, run) == OneTo(MaxSequence(table, run))
    ensures forall k: nat :: Row(run, k) in table <==> 1 <= k <= MaxSequence(table, run)
  {
    if table != [] {
      GaplessMeans(Front(table), run);
      var n := MaxSequence(Front(table), run);
      assert table == Front(table) + [Last(table)];
      assert OneTo(n + 1) == OneTo(n) + [n + 1];
    }
  }

  /** Row `i` of a transaction is above the transaction's own earlier rows of that run and at most
      one above those and everything committed. */
  predicate NoJump(table: seq<Row>, rows: seq<Row>, i: nat)
    requires i < |rows|
  {
    var run, own := rows[i].run, MaxSequence(rows[..i], rows[i].run);
    own < rows[i].sequence <= (if own >= MaxSequence(table, run) then own else MaxSequence(table, run)) + 1
  }

  predicate Orderly(table: seq<Row>, rows: seq<Row>) {
    forall i :: 0 <= i < |rows| ==> NoJump(table, rows, i)
  }

  predicate Inv(log: Log) {
    Gapless(log.table) && forall tx :: tx in log.open ==> Orderly(log.table, log.open[tx])
  }

  lemma {:induction false} MaxConcat(a: seq<Row>, b: seq<Row>, run: RunId)
    ensures var x, y := MaxSequence(a, run), MaxSequence(b, run);
      MaxSequence(a + b, run) == if x >= y then x else y
    decreases |b|
  {
    if b == [] {
      assert a + b == a;
    } else {
      MaxConcat(a, Front(b), run);
      assert Front(a + b) == a + Front(b);
    }
  }

  lemma MaxPrefix(table: seq<Row>, n: nat, run: RunId)
    requires n <= |table|
    ensures MaxSequence(table[..n], run) <= MaxSequence(table, run)
  {
    assert table[..n] + table[n..] == table;
    MaxConcat(table[..n], table[n..], run);
  }

  /** A transaction whose rows meet no committed number continues the committed numbers. */
  lemma {:induction false} CommitGapless(table: seq<Row>, rows: seq<Row>)
    requires Gapless(table) && Orderly(table, rows) && !Conflicts(table, rows)
    ensures Gapless(table + rows)
    decreases |rows|
  {
    if rows == [] {
      assert table + rows == table;
    } else {
      var front, last := Front(rows), Last(rows);
      forall i | 0 <= i < |front| ensures NoJump(table, front, i) {
        assert NoJump(table, rows, i);
        assert front[..i] == rows[..i];
      }
      CommitGapless(table, front);
      assert NoJump(table, rows, |front|);
      MaxConcat(table, front, last.run);
      GaplessMeans(table, last.run);
      assert last in rows && last !in table;
      assert Row(last.run, last.sequence) == last;
      assert Front(table + rows) == table + front;
    }
  }

  lemma OrderlyGrows(table: seq<Row>, more: seq<Row>, rows: seq<Row>)
    requires Orderly(table, rows)
    ensures Orderly(table + more, rows)
  {
    forall i | 0 <= i < |rows| ensures NoJump(table + more, rows, i) {
      assert NoJump(table, rows, i);
      MaxConcat(table, more, rows[i].run);
    }
  }

  lemma AppendOrderly(table: seq<Row>, seen: nat, rows: seq<Row>, run: RunId)
    requires Orderly(table, rows) && seen <= |table|
    ensures Orderly(table, rows + [Row(run, MaxSequence(table[..seen] + rows, run) + 1)])
  {
    var rows' := rows + [Row(run, MaxSequence(table[..seen] + rows, run) + 1)];
    forall i | 0 <= i < |rows'| ensures NoJump(table, rows', i) {
      if i < |rows| {
        assert NoJump(table, rows, i);
        assert rows'[..i] == rows[..i];
      } else {
        assert rows'[..i] == rows;
        MaxConcat(table[..seen], rows, run);
        MaxPrefix(table, seen, run);
      }
    }
  }

  lemma StepKeepsInv(log: Log, action: Action)
    requires Inv(log)
    ensures Inv(Step(log, action))
  {
    var log' := Step(log, action);
    match action {
      case Append(tx, run, seen) =>
        if tx in log.open && seen <= |log.table| {
          AppendOrderly(log.table, seen, log.open[tx], run);
        }
      case Commit(tx) =>
        if tx in log.open && !Conflicts(log.table, log.open[tx]) {
          CommitGapless(log.table, log.open[tx]);
          forall other | other in log'.open ensures Orderly(log'.table, log'.open[other]) {
            OrderlyGrows(log.table, log.open[tx], log.open[other]);
          }
        }
      case Begin(tx) =>
      case Rollback(tx) =>
    }
  }

  lemma {:induction false} RunKeepsInv(actions: seq<Action>)
    ensures Inv(Run(actions))
    decreases |actions|
  {
    if actions != [] {
      RunKeepsInv(Front(actions));
      StepKeepsInv(Run(Front(actions)), Last(actions));
    }
  }

  /** Whatever the interleaving, the committed numbers of each run are 1, 2, ..., n in commit order. */
  lemma CommittedSequencesAreGapless(actions: seq<Action>, run: RunId)
    ensures var table := Run(actions).table;
      SequencesOf(table, run) == OneTo(|SequencesOf(table, run)|)
  {
    RunKeepsInv(actions);
    GaplessMeans(Run(actions).table, run);
  }

  /** The rollback rule is needed: committing a conflicting transaction would repeat a number. */
  lemma ConflictRepeats(log: Log, tx: TxId)
    requires Inv(log) && tx in log.open && Conflicts(log.table, log.open[tx])
    ensures !Gapless(log.table + log.open[tx])
  {
    var table, rows := log.table, log.open[tx];
    var row :| row in rows && row in table;
    var i :| 0 <= i < |rows| && rows[i] == row;
    GaplessPrefix(table + rows, |table| + i + 1);
    assert (table + rows)[..|table| + i + 1] == table + rows[..i] + [row];
    assert Front(table + rows[..i] + [row]) == table + rows[..i];
    MaxConcat(table, rows[..i], row.run);
    GaplessMeans(table, row.run);
    assert Row(row.run, row.sequence) == row;
  }

  lemma {:induction false} GaplessPrefix(table: seq<Row>, n: nat)
    requires n <= |table|
    ensures Gapless(table) ==> Gapless(table[..n])
    decreases |table|
  {
    if n < |table| {
      GaplessPrefix(Front(table), n);
      assert Front(table)[..n] == table[..n];
    } else {
      assert table[..n] == table;
    }
  }

  /** The rows are above everything committed for their runs. */
  predicate Above(table: seq<Row>, rows: seq<Row>) {
    forall i :: 0 <= i < |rows| ==> rows[i].sequence > MaxSequence(table, rows[i].run)
  }

  /** A commit puts all rows of its transaction at the end of the table if and only if they are above what is committed,
      and none otherwise; either way the transaction is over and the others are as they were. */
  lemma CommitLandsExactly(log: Log, tx: TxId)
    requires Inv(log) && tx in log.open
    ensures Step(log, Commit(tx))
         == Log(if Above(log.table, log.open[tx]) then log.table + log.open[tx] else log.table, log.open - {tx})
  {
    var table, rows := log.table, log.open[tx];
    forall i | 0 <= i < |rows|
      ensures rows[i] in table <==> rows[i].sequence <= MaxSequence(table, rows[i].run)
    {
      assert NoJump(table, rows, i);
      GaplessMeans(table, rows[i].run);
      assert Row(rows[i].run, rows[i].sequence) == rows[i];
    }
    if !Above(table, rows) {
      var i :| 0 <= i < |rows| && rows[i].sequence <= MaxSequence(table, rows[i].run);
      assert rows[i] in rows && rows[i] in table;
    }
  }

  /** An appender that has begun and seen everything committed. */
  lemma Appends(log: Log, tx: TxId, run: RunId)
    requires Inv(log) && tx !in log.open
    ensures var row := Row(run, MaxSequence(log.table, run) + 1);
            var appended := Step(Step(log, Begin(tx)), Append(tx, run, |log.table|));
      appended == log.(open := log.open[tx := [row]]) && Inv(appended)
  {
    StepKeepsInv(log, Begin(tx));
    StepKeepsInv(Step(log, Begin(tx)), Append(tx, run, |log.table|));
    var none: seq<Row> := [];
    assert log.table[..|log.table|] + none == log.table;
    assert none + [Row(run, MaxSequence(log.table, run) + 1)] == [Row(run, MaxSequence(log.table, run) + 1)];
    hide Inv;
  }

  /** One that commits before anybody else does gets its event into the table, with the next number of the run. */
  lemma AppendLands(log: Log, tx: TxId, run: RunId)
    requires Inv(log) && tx !in log.open
    ensures var row := Row(run, MaxSequence(log.table, run) + 1);
      Step(Step(Step(log, Begin(tx)), Append(tx, run, |log.table|)), Commit(tx)) == log.(table := log.table + [row])
  {
    Appends(log, tx, run);
    var row := Row(run, MaxSequence(log.table, run) + 1);
    var appended := log.(open := log.open[tx := [row]]);
    hide Step, Inv;
    CommitLandsExactly(appended, tx);
    assert appended.open - {tx} == log.open;
  }

  /** Two appenders to a run that have both seen all that is committed. */
  function BothAppended(log: Log, first: TxId, second: TxId, run: RunId): Log {
    var seen := |log.table|;
    var one := Step(Step(log, Begin(first)), Append(first, run, seen));
    Step(Step(one, Begin(second)), Append(second, run, seen))
  }

  lemma BothHold(log: Log, first: TxId, second: TxId, run: RunId)
    requires Inv(log) && first !in log.open && second !in log.open && first != second
    ensures var rows := [Row(run, MaxSequence(log.table, run) + 1)];
            var both := BothAppended(log, first, second, run);
      Inv(both) && both.table == log.table && both.open == log.open[first := rows][second := rows]
  {
    Appends(log, first, run);
    hide Step, Inv, MaxSequence;
    Appends(log.(open := log.open[first := [Row(run, MaxSequence(log.table, run) + 1)]]), second, run);
  }

  /** The second of them to commit loses its row. */
  lemma SecondLoses(log: Log, first: TxId, second: TxId, run: RunId)
    requires Inv(log) && first !in log.open && second !in log.open && first != second
    ensures Step(Step(BothAppended(log, first, second, run), Commit(first)), Commit(second))
         == log.(table := log.table + [Row(run, MaxSequence(log.table, run) + 1)])
  {
    BothHold(log, first, second, run);
    hide Step, Inv, MaxSequence, BothAppended;
    var row := Row(run, MaxSequence(log.table, run) + 1);
    OneCommitsFirst(BothAppended(log, first, second, run), first, second, row);
    BothClosed(log.open, first, second, [row]);
  }

  lemma OneCommitsFirst(both: Log, first: TxId, second: TxId, row: Row)
    requires Inv(both) && first != second && first in both.open && second in both.open
    requires both.open[first] == [row] && both.open[second] == [row]
    requires row.sequence == MaxSequence(both.table, row.run) + 1
    ensures Step(Step(both, Commit(first)), Commit(second))
         == Log(both.table + [row], both.open - {first} - {second})
  {
    StepKeepsInv(both, Commit(first));
    hide Step, Inv;
    CommitLandsExactly(both, first);
    CommitLandsExactly(Step(both, Commit(first)), second);
    MaxNext(both.table, row);
  }

  lemma BothClosed(open: map<TxId, seq<Row>>, first: TxId, second: TxId, rows: seq<Row>)
    requires first !in open && second !in open
    ensures open[first := rows][second := rows] - {first} - {second} == open
  {
  }

  lemma MaxNext(table: seq<Row>, row: Row)
    requires row.sequence == MaxSequence(table, row.run) + 1
    ensures MaxSequence(table + [row], row.run) == row.sequence
  {
    assert Front(table + [row]) == table;
  }

  /** Nothing but a commit changes the table. */
  lemma OnlyCommitsAdd(log: Log, action: Action)
    ensures log.table <= Step(log, action).table
    ensures !action.Commit? ==> Step(log, action).table == log.table
    ensures action.Rollback? ==> Step(log, action).open == log.open - {action.tx}
  {
  }
}
