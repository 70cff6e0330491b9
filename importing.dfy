/** The error messages of the row loop of `upload_csv` (app_name/views.py)
    and the import report: each failing row is logged as one numbered
    message, and the report states the two counts and the messages. */
module Import {
  import opened Basics
  import opened Text
  import opened Parsing
  import opened RowLoop

  // ---------------------------------------------------------------------
  // Error messages

  const RowMessageHead: string := "第 "
  const RowMessageMid: string := " 行错误: "

  /** The message logged for a failing row: its 1-based number, then the error text. */
  function RowMessage(n: nat, e: RowError): string {
    RowMessageHead + NatToString(n) + RowMessageMid + ErrorText(e)
  }

  /** Reads the row number back out of a message. */
  function RowNumberOf(msg: string): Option<nat> {
    if !StartsWith(msg, RowMessageHead) then None
    else match ReadNat(msg[|RowMessageHead|..])
      case Some((n, rest)) => if StartsWith(rest, RowMessageMid) then Some(n) else None
      case None => None
  }

  lemma RowMessageNumber(n: nat, e: RowError)
    ensures RowNumberOf(RowMessage(n, e)) == Some(n)
  {
    var rest := RowMessageMid + ErrorText(e);
    assert RowMessage(n, e) == RowMessageHead + NatToString(n) + rest;
    ReadNatAfter(RowMessageHead, n, rest);
    StartsWithAppend(RowMessageMid, ErrorText(e));
  }

  /** The row numbers written in `error_log` strictly increase. */
  lemma ErrorNumbersIncrease<R, T>(parse: R -> Result<T, RowError>, rows: seq<R>)
    ensures forall a, b | 0 <= a < b < |Messages(parse, RowMessage, rows)| ::
      && RowNumberOf(Messages(parse, RowMessage, rows)[a]).Some? && RowNumberOf(Messages(parse, RowMessage, rows)[b]).Some?
      && RowNumberOf(Messages(parse, RowMessage, rows)[a]).value < RowNumberOf(Messages(parse, RowMessage, rows)[b]).value
  {
    MessagesRows(parse, RowMessage, rows);
    var log, failed := Messages(parse, RowMessage, rows), RowNumbers(parse, rows, false);
    forall j | 0 <= j < |log| ensures RowNumberOf(log[j]) == Some(failed[j]) {
      RowMessageNumber(failed[j], parse(rows[failed[j] - 1]).error);
    }
    forall a, b | 0 <= a < b < |log| ensures RowNumberOf(log[a]).value < RowNumberOf(log[b]).value {
      assert failed[a] < failed[b];
    }
  }

  // ---------------------------------------------------------------------
  // The report

  const NoErrors: string := "无"

  /** The messages one per line, or "无" when there are none. */
  function ErrorDetail(log: seq<string>): string {
    if log == [] then NoErrors else Join(log, '\n')
  }

  const ReportHead: string := "成功导入 "
  const ReportMid: string := " 条数据\U{FF0C}错误 "
  const ReportTail: string := " 条\n错误明细:\n"

  /** The body of the import response. */
  function Report(successCount: nat, log: seq<string>): string {
    ReportHead + NatToString(successCount) + ReportMid + NatToString(|log|) + ReportTail + ErrorDetail(log)
  }

  /** Reads a report back: the success count, the error count and the detail. */
  function ReadReport(s: string): Option<(nat, nat, string)> {
    if !StartsWith(s, ReportHead) then None
    else match ReadNat(s[|ReportHead|..])
      case None => None
      case Some((ok, r1)) =>
        if !StartsWith(r1, ReportMid) then None
        else match ReadNat(r1[|ReportMid|..])
          case None => None
          case Some((bad, r2)) =>
            if !StartsWith(r2, ReportTail) then None
            else Some((ok, bad, r2[|ReportTail|..]))
  }

  /** The report states the two counts and the detail, and nothing else. */
  lemma ReportRoundTrip(successCount: nat, log: seq<string>)
    ensures ReadReport(Report(successCount, log)) == Some((successCount, |log|, ErrorDetail(log)))
  {
    var detail := ErrorDetail(log);
    var r2 := ReportTail + detail;
    var r1 := ReportMid + NatToString(|log|) + r2;
    assert Report(successCount, log) == ReportHead + NatToString(successCount) + r1;
    ReadNatAfter(ReportHead, successCount, r1);
    ReadNatAfter(ReportMid, |log|, r2);
    StartsWithAppend(ReportTail, detail);
  }

  function ReadErrorDetail(detail: string): seq<string> {
    if detail == NoErrors then [] else Split(detail, '\n')
  }

  /** Messages without line breaks can be read back from the detail. */
  lemma ErrorDetailRoundTrip(log: seq<string>)
    requires forall j | 0 <= j < |log| :: '\n' !in log[j] && log[j] != NoErrors
    ensures ReadErrorDetail(ErrorDetail(log)) == log
  {
    if log != [] {
      if |log| > 1 {
        var joined := Join(log, '\n');
        assert joined == log[0] + ['\n'] + Join(log[1..], '\n');
        assert joined[|log[0]|] == '\n';
        assert joined != NoErrors;
      }
      SplitJoin(log, '\n');
    }
  }

  /** Every message of the loop starts with "第 ", so none reads as "无". */
  lemma ErrorLogMessages<R, T>(parse: R -> Result<T, RowError>, rows: seq<R>)
    ensures forall j | 0 <= j < |Messages(parse, RowMessage, rows)| ::
      StartsWith(Messages(parse, RowMessage, rows)[j], RowMessageHead) && Messages(parse, RowMessage, rows)[j] != NoErrors
  {
    MessagesRows(parse, RowMessage, rows);
    var log := Messages(parse, RowMessage, rows);
    forall j | 0 <= j < |log| ensures StartsWith(log[j], RowMessageHead) && log[j] != NoErrors {
      var m := log[j];
      assert m[..|RowMessageHead|] == RowMessageHead;
      assert m[0] != NoErrors[0];
    }
  }
}
