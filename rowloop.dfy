/** The row loop of `upload_csv` (app_name/views.py), stated for any row
    conversion `parse` and any message builder: every row either becomes a
    record in `objs` or one numbered message in `error_log`, and a bad row
    never stops the batch. The upload instantiates it with
    `Parsing.Converter(lib)` and `Import.RowMessage`. */
module RowLoop {
  import opened Basics

  /** The records built from `rows`, in row order. */
  function Records<R, T, E>(parse: R -> Result<T, E>, rows: seq<R>): seq<T> {
    if rows == [] then []
    else
      var init := Records(parse, rows[..|rows| - 1]);
      match parse(rows[|rows| - 1])
      case Ok(r) => init + [r]
      case Err(_) => init
  }

  /** The messages for the rows of `rows` that fail: `message(n, e)` for the
      row numbered `n` from 1 that fails with `e`, in row order. */
  function Messages<R, T, E>(parse: R -> Result<T, E>, message: (nat, E) -> string, rows: seq<R>): seq<string> {
    if rows == [] then []
    else
      var init := Messages(parse, message, rows[..|rows| - 1]);
      match parse(rows[|rows| - 1])
      case Ok(_) => init
      case Err(e) => init + [message(|rows|, e)]
  }

  /** The 1-based numbers of the rows that convert (`ok`) or that fail
      (`!ok`), in row order. */
  function RowNumbers<R, T, E>(parse: R -> Result<T, E>, rows: seq<R>, ok: bool): seq<nat> {
    if rows == [] then []
    else
      var init := RowNumbers(parse, rows[..|rows| - 1], ok);
      if parse(rows[|rows| - 1]).Ok? == ok then init + [|rows|] else init
  }

  predicate Ascending(ns: seq<nat>) {
    forall a, b | 0 <= a < b < |ns| :: ns[a] < ns[b]
  }

  /** Every row lands in exactly one of the two lists. */
  lemma {:induction false} ImportCounts<R, T, E>(parse: R -> Result<T, E>, message: (nat, E) -> string, rows: seq<R>)
    ensures |Records(parse, rows)| + |Messages(parse, message, rows)| == |rows|
  {
    if rows != [] {
      ImportCounts(parse, message, rows[..|rows| - 1]);
    }
  }

  /** Every number of `ns` names a row of `rows` that converts (`ok`) or
      that fails (`!ok`). */
  predicate NamesRows<R, T, E>(parse: R -> Result<T, E>, rows: seq<R>, ok: bool, ns: seq<nat>) {
    forall j | 0 <= j < |ns| :: 1 <= ns[j] <= |rows| && parse(rows[ns[j] - 1]).Ok? == ok
  }

  /** Every listed row number is in range and names a row of the kind listed. */
  lemma {:induction false} RowNumbersListed<R, T, E>(parse: R -> Result<T, E>, rows: seq<R>, ok: bool)
    ensures NamesRows(parse, rows, ok, RowNumbers(parse, rows, ok))
  {
    if rows != [] {
      var last := |rows|;
      var init := rows[..last - 1];
      RowNumbersListed(parse, init, ok);
      var listed0, listed := RowNumbers(parse, init, ok), RowNumbers(parse, rows, ok);
      if parse(rows[last - 1]).Ok? == ok {
        assert listed == listed0 + [last];
      } else {
        assert listed == listed0;
      }
      forall j | 0 <= j < |listed| ensures 1 <= listed[j] <= last && parse(rows[listed[j] - 1]).Ok? == ok {
        if j < |listed0| {
          var n := listed0[j];
          assert listed[j] == n && 1 <= n <= last - 1;
          assert rows[n - 1] == init[n - 1];
        }
      }
    }
  }

  /** The row numbers are listed in increasing order. */
  lemma {:induction false} RowNumbersAscending<R, T, E>(parse: R -> Result<T, E>, rows: seq<R>, ok: bool)
    ensures Ascending(RowNumbers(parse, rows, ok))
  {
    if rows != [] {
      var last := |rows|;
      var init := rows[..last - 1];
      RowNumbersAscending(parse, init, ok);
      RowNumbersListed(parse, init, ok);
      var listed0, listed := RowNumbers(parse, init, ok), RowNumbers(parse, rows, ok);
      assert listed == if parse(rows[last - 1]).Ok? == ok then listed0 + [last] else listed0;
      forall a, b | 0 <= a < b < |listed| ensures listed[a] < listed[b] {
        assert listed[a] == listed0[a];
        if b < |listed0| {
          assert listed[b] == listed0[b];
        }
      }
    }
  }

  /** Every row of the kind listed is listed. */
  lemma {:induction false} RowNumbersComplete<R, T, E>(parse: R -> Result<T, E>, rows: seq<R>, ok: bool)
    ensures forall n | 1 <= n <= |rows| && parse(rows[n - 1]).Ok? == ok :: n in RowNumbers(parse, rows, ok)
  {
    if rows != [] {
      var last := |rows|;
      var init := rows[..last - 1];
      RowNumbersComplete(parse, init, ok);
      var listed0, listed := RowNumbers(parse, init, ok), RowNumbers(parse, rows, ok);
      assert listed == if parse(rows[last - 1]).Ok? == ok then listed0 + [last] else listed0;
      forall n | 1 <= n <= last && parse(rows[n - 1]).Ok? == ok ensures n in listed {
        if n < last {
          assert rows[n - 1] == init[n - 1];
          assert n in listed0;
        }
      }
    }
  }

  /** Message `j` of `log` is `message` applied to row number `failed[j]`
      and that row's error. */
  predicate MessagesFor<R, T, E>(parse: R -> Result<T, E>, message: (nat, E) -> string, rows: seq<R>,
                                 failed: seq<nat>, log: seq<string>) {
    && |failed| == |log|
    && forall j | 0 <= j < |failed| && 1 <= failed[j] <= |rows| && parse(rows[failed[j] - 1]).Err? ::
         log[j] == message(failed[j], parse(rows[failed[j] - 1]).error)
  }

  /** Message `j` of `error_log` is the message for the `j`-th failing row. */
  lemma {:induction false} MessagesMatchFailed<R, T, E>(parse: R -> Result<T, E>, message: (nat, E) -> string, rows: seq<R>)
    ensures MessagesFor(parse, message, rows, RowNumbers(parse, rows, false), Messages(parse, message, rows))
  {
    if rows != [] {
      var last := |rows|;
      var init := rows[..last - 1];
      MessagesMatchFailed(parse, message, init);
      RowNumbersListed(parse, init, false);
      var failed0, failed := RowNumbers(parse, init, false), RowNumbers(parse, rows, false);
      var log0, log := Messages(parse, message, init), Messages(parse, message, rows);
      if parse(rows[last - 1]).Err? {
        assert failed == failed0 + [last];
        assert log == log0 + [message(last, parse(rows[last - 1]).error)];
      } else {
        assert failed == failed0 && log == log0;
      }
      forall j | 0 <= j < |failed| && 1 <= failed[j] <= last && parse(rows[failed[j] - 1]).Err?
        ensures log[j] == message(failed[j], parse(rows[failed[j] - 1]).error)
      {
        if j < |failed0| {
          var n := failed0[j];
          assert failed[j] == n && log[j] == log0[j] && 1 <= n <= last - 1;
          assert rows[n - 1] == init[n - 1];
        }
      }
    }
  }

  /** Record `j` of `objs` is the record of row number `imported[j]`. */
  ghost predicate RecordsFor<R, T, E>(parse: R -> Result<T, E>, rows: seq<R>, imported: seq<nat>, objs: seq<T>) {
    && |imported| == |objs|
    && forall j | 0 <= j < |imported| && 1 <= imported[j] <= |rows| :: parse(rows[imported[j] - 1]) == Ok(objs[j])
  }

  /** Record `j` of `objs` is the record of the `j`-th row that converts. */
  lemma {:induction false} RecordsMatchImported<R, T, E>(parse: R -> Result<T, E>, rows: seq<R>)
    ensures RecordsFor(parse, rows, RowNumbers(parse, rows, true), Records(parse, rows))
  {
    if rows != [] {
      var last := |rows|;
      var init := rows[..last - 1];
      RecordsMatchImported(parse, init);
      RowNumbersListed(parse, init, true);
      var imported0, imported := RowNumbers(parse, init, true), RowNumbers(parse, rows, true);
      var objs0, objs := Records(parse, init), Records(parse, rows);
      if parse(rows[last - 1]).Ok? {
        assert imported == imported0 + [last];
        assert objs == objs0 + [parse(rows[last - 1]).value];
      } else {
        assert imported == imported0 && objs == objs0;
      }
      forall j | 0 <= j < |imported| && 1 <= imported[j] <= last
        ensures parse(rows[imported[j] - 1]) == Ok(objs[j])
      {
        if j < |imported0| {
          var n := imported0[j];
          assert imported[j] == n && objs[j] == objs0[j] && 1 <= n <= last - 1;
          assert rows[n - 1] == init[n - 1];
        }
      }
    }
  }

  /** `error_log` holds, in increasing row order, one message for each failing
      row and no other: message `j` names the `j`-th failing row and its error. */
  lemma MessagesRows<R, T, E>(parse: R -> Result<T, E>, message: (nat, E) -> string, rows: seq<R>)
    ensures |RowNumbers(parse, rows, false)| == |Messages(parse, message, rows)|
    ensures Ascending(RowNumbers(parse, rows, false))
    ensures forall j | 0 <= j < |RowNumbers(parse, rows, false)| ::
      && 1 <= RowNumbers(parse, rows, false)[j] <= |rows|
      && parse(rows[RowNumbers(parse, rows, false)[j] - 1]).Err?
      && Messages(parse, message, rows)[j] == message(RowNumbers(parse, rows, false)[j], parse(rows[RowNumbers(parse, rows, false)[j] - 1]).error)
    ensures forall n | 1 <= n <= |rows| && parse(rows[n - 1]).Err? :: n in RowNumbers(parse, rows, false)
  {
    RowNumbersListed(parse, rows, false);
    RowNumbersAscending(parse, rows, false);
    RowNumbersComplete(parse, rows, false);
    MessagesMatchFailed(parse, message, rows);
  }

  /** `objs` holds, in row order, the record of each row that converts and no other. */
  lemma RecordsRows<R, T, E>(parse: R -> Result<T, E>, rows: seq<R>)
    ensures |RowNumbers(parse, rows, true)| == |Records(parse, rows)|
    ensures Ascending(RowNumbers(parse, rows, true))
    ensures forall j | 0 <= j < |RowNumbers(parse, rows, true)| ::
      && 1 <= RowNumbers(parse, rows, true)[j] <= |rows|
      && parse(rows[RowNumbers(parse, rows, true)[j] - 1]) == Ok(Records(parse, rows)[j])
    ensures forall n | 1 <= n <= |rows| && parse(rows[n - 1]).Ok? :: n in RowNumbers(parse, rows, true)
  {
    RowNumbersListed(parse, rows, true);
    RowNumbersAscending(parse, rows, true);
    RowNumbersComplete(parse, rows, true);
    RecordsMatchImported(parse, rows);
  }

  /** A batch of good rows is imported whole, with no message. */
  lemma {:induction false} AllRowsGood<R, T, E>(parse: R -> Result<T, E>, message: (nat, E) -> string, rows: seq<R>)
    requires forall i | 0 <= i < |rows| :: parse(rows[i]).Ok?
    ensures Messages(parse, message, rows) == []
    ensures |Records(parse, rows)| == |rows|
    ensures forall i | 0 <= i < |rows| :: Records(parse, rows)[i] == parse(rows[i]).value
  {
    if rows != [] {
      var last := |rows|;
      var init := rows[..last - 1];
      assert forall i | 0 <= i < |init| :: init[i] == rows[i];
      AllRowsGood(parse, message, init);
      var objs0, objs := Records(parse, init), Records(parse, rows);
      assert objs == objs0 + [parse(rows[last - 1]).value];
      forall i | 0 <= i < last ensures objs[i] == parse(rows[i]).value {
        if i < last - 1 {
          assert objs[i] == objs0[i] && init[i] == rows[i];
        }
      }
    }
  }

  // ---------------------------------------------------------------------
  // The loop

  /** The loop over the reader, numbering rows from 1: append the record to
      `objs`, or on failure the numbered message to `error_log`, and go on. */
  method ImportRows<R, T, E>(parse: R -> Result<T, E>, message: (nat, E) -> string, rows: seq<R>) returns (objs: seq<T>, errorLog: seq<string>)
    ensures objs == Records(parse, rows) && errorLog == Messages(parse, message, rows)
    ensures |objs| + |errorLog| == |rows|
  {
    objs, errorLog := [], [];
    var i := 0;
    while i < |rows|
      invariant 0 <= i <= |rows|
      invariant objs == Records(parse, rows[..i])
      invariant errorLog == Messages(parse, message, rows[..i])
    {
      var rowNum := i + 1;
      ghost var done := rows[..i + 1];
      assert done[..i] == rows[..i] && done[i] == rows[i];
      match parse(rows[i]) {
        case Ok(record) =>
          assert Records(parse, done) == Records(parse, rows[..i]) + [record];
          assert Messages(parse, message, done) == Messages(parse, message, rows[..i]);
          objs := objs + [record];
        case Err(e) =>
          assert Records(parse, done) == Records(parse, rows[..i]);
          assert Messages(parse, message, done) == Messages(parse, message, rows[..i]) + [message(rowNum, e)];
          errorLog := errorLog + [message(rowNum, e)];
      }
      i := i + 1;
    }
    assert rows[..i] == rows;
    ImportCounts(parse, message, rows);
  }
}
