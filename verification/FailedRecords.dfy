/** The batch INSERT of failed import records. */
module FailedRecords {
  import opened Prelude
  import Decimal
  import opened SqlText

  const COL_COUNT: nat := 9

  datatype Record = Record(session: int, rowNumber: int, recordName: string, reason: string, recordType: string,
                           columnName: string, value: string, existing: Option<int>, org: int)

  function NilIfEmpty(s: string): Value {
    if s == "" then Null else Text(s)
  }

  function Columns(r: Record): (v: seq<Value>)
    ensures |v| == COL_COUNT
  {
    [Number(r.session), Number(r.rowNumber), Text(r.recordName), Text(r.reason), Text(r.recordType),
     NilIfEmpty(r.columnName), NilIfEmpty(r.value), if r.existing.Some? then Number(r.existing.value) else Null,
     Number(r.org)]
  }

  // ---- what the generated text means ----

  /** VALUES: an opening parenthesis begins a row, and each placeholder adds the argument it numbers. */
  function Extended(rows: Option<seq<seq<Value>>>, piece: Piece, args: seq<Value>): Option<seq<seq<Value>>> {
    if rows.None? || !(1 <= piece.number <= |args|) then None
    else if '(' in piece.before then Some(rows.value + [[args[piece.number - 1]]])
    else if rows.value == [] then None
    else
      var n := |rows.value| - 1;
      Some(rows.value[..n] + [rows.value[n] + [args[piece.number - 1]]])
  }

  function Rows(pieces: seq<Piece>, args: seq<Value>): Option<seq<seq<Value>>> {
    if pieces == [] then Some([])
    else Extended(Rows(pieces[..|pieces| - 1], args), pieces[|pieces| - 1], args)
  }

  // ---- the text ----

  /** The placeholders of a row after its first. */
  function Tail(from: nat, count: nat): string
    decreases count
  {
    if count == 0 then "" else ", $" + Decimal.Print(from) + Tail(from + 1, count - 1)
  }

  /** fmt.Sprintf("($%d, …, $%d)", base+1, …, base+9) */
  function RowText(base: nat): string {
    "($" + Decimal.Print(base + 1) + Tail(base + 2, COL_COUNT - 1) + ")"
  }

  function TailPieces(from: nat, count: nat): (pieces: seq<Piece>)
    ensures |pieces| == count && forall i :: 0 <= i < count ==> pieces[i] == Piece(", ", from + i)
    decreases count
  {
    if count == 0 then [] else [Piece(", ", from)] + TailPieces(from + 1, count - 1)
  }

  lemma ScanTailHead(from: nat, next: string)
    requires NoDigitFirst(next)
    ensures Scan(", $" + Decimal.Print(from) + next, "") == [Piece(", ", from)] + Scan(next, "")
  {
    assert ", $" + Decimal.Print(from) + next == ", " + "$" + Decimal.Print(from) + next && "" + ", " == ", ";
    ScanNext(", ", from, next, "");
  }

  lemma TailUnfolds(from: nat, count: nat, rest: string)
    requires count > 0 && NoDigitFirst(rest)
    ensures Tail(from, count) + rest == ", $" + Decimal.Print(from) + (Tail(from + 1, count - 1) + rest)
    ensures NoDigitFirst(Tail(from + 1, count - 1) + rest)
  {}

  lemma Regroup(piece: Piece, a: seq<Piece>, b: seq<Piece>)
    ensures [piece] + (a + b) == [piece] + a + b
  {}

  lemma {:induction false} ScanTail(from: nat, count: nat, rest: string)
    requires NoDigitFirst(rest)
    ensures Scan(Tail(from, count) + rest, "") == TailPieces(from, count) + Scan(rest, "")
    decreases count
  {
    if count == 0 {
      assert Tail(from, 0) + rest == rest;
    } else {
      TailUnfolds(from, count, rest);
      ScanTailHead(from, Tail(from + 1, count - 1) + rest);
      ScanTail(from + 1, count - 1, rest);
      Regroup(Piece(", ", from), TailPieces(from + 1, count - 1), Scan(rest, ""));
    }
  }

  /** The placeholders of one row: numbers in order, the first one after an opening parenthesis. */
  function RowPieces(before: string, base: nat): (pieces: seq<Piece>)
    ensures |pieces| == COL_COUNT && pieces[0] == Piece(before + "(", base + 1)
    ensures forall i :: 1 <= i < COL_COUNT ==> pieces[i] == Piece(", ", base + 1 + i)
  {
    [Piece(before + "(", base + 1)] + TailPieces(base + 2, COL_COUNT - 1)
  }

  lemma ScanRow(base: nat, rest: string, before: string)
    ensures Scan(RowText(base) + rest, before) == RowPieces(before, base) + Scan(rest, ")")
  {
    var tail := Tail(base + 2, COL_COUNT - 1);
    assert RowText(base) + rest == "(" + "$" + Decimal.Print(base + 1) + (tail + (")" + rest));
    ScanNext("(", base + 1, tail + (")" + rest), before);
    ScanTail(base + 2, COL_COUNT - 1, ")" + rest);
    ScanText(")", rest, "");
    assert "" + ")" == ")";
  }

  function RowTexts(base: nat, n: nat): (texts: seq<string>)
    ensures |texts| == n
  {
    seq(n, i requires 0 <= i < n => RowText(base + i * COL_COUNT))
  }

  lemma RowTextsRest(base: nat, n: nat)
    requires n > 0
    ensures RowTexts(base, n)[0] == RowText(base)
    ensures RowTexts(base, n)[1..] == RowTexts(base + COL_COUNT, n - 1)
  {
    forall i | 0 <= i < n - 1 ensures RowTexts(base, n)[1..][i] == RowTexts(base + COL_COUNT, n - 1)[i] {
      assert base + (i + 1) * COL_COUNT == base + COL_COUNT + i * COL_COUNT;
    }
  }

  function AllPieces(base: nat, n: nat, before: string): seq<Piece>
    decreases n
  {
    if n == 0 then [] else RowPieces(before, base) + AllPieces(base + COL_COUNT, n - 1, "), ")
  }

  lemma ScanRowAndComma(base: nat, rest: string, before: string)
    ensures Scan(RowText(base) + ", " + rest, before) == RowPieces(before, base) + Scan(rest, "), ")
  {
    assert RowText(base) + ", " + rest == RowText(base) + (", " + rest);
    ScanRow(base, ", " + rest, before);
    ScanText(", ", rest, ")");
    assert ")" + ", " == "), ";
  }

  lemma ScanLastRow(base: nat, before: string)
    ensures Scan(RowText(base), before) == RowPieces(before, base)
  {
    ScanRow(base, "", before);
    assert RowText(base) + "" == RowText(base) && RowPieces(before, base) + [] == RowPieces(before, base);
  }

  lemma JoinRows(base: nat, n: nat)
    requires n > 1
    ensures Join(RowTexts(base, n), ", ") == RowText(base) + ", " + Join(RowTexts(base + COL_COUNT, n - 1), ", ")
  {
    RowTextsRest(base, n);
  }

  lemma {:induction false} ScanRows(base: nat, n: nat, before: string)
    ensures Scan(Join(RowTexts(base, n), ", "), before) == AllPieces(base, n, before)
    decreases n
  {
    if n == 1 {
      RowTextsRest(base, 1);
      ScanLastRow(base, before);
      assert AllPieces(base + COL_COUNT, 0, "), ") == [];
    } else if n > 1 {
      JoinRows(base, n);
      ScanRowAndComma(base, Join(RowTexts(base + COL_COUNT, n - 1), ", "), before);
      ScanRows(base + COL_COUNT, n - 1, "), ");
    }
  }

  // ---- reading it back ----

  lemma {:induction false} PlaceholdersCount(base: nat, n: nat, before: string)
    ensures |AllPieces(base, n, before)| == COL_COUNT * n
    ensures forall k :: 0 <= k < COL_COUNT * n ==> AllPieces(base, n, before)[k].number == base + k + 1
    decreases n
  {
    if n > 0 { PlaceholdersCount(base + COL_COUNT, n - 1, "), "); }
  }

  lemma ExtendedAppends(ra: seq<seq<Value>>, rb: seq<seq<Value>>, piece: Piece, args: seq<Value>)
    requires Extended(Some(rb), piece, args).Some?
    ensures Extended(Some(ra + rb), piece, args) == Some(ra + Extended(Some(rb), piece, args).value)
  {
    if '(' in piece.before {
      assert ra + rb + [[args[piece.number - 1]]] == ra + (rb + [[args[piece.number - 1]]]);
    } else {
      var n := |rb| - 1;
      var grown := rb[n] + [args[piece.number - 1]];
      assert (ra + rb)[..|ra| + n] == ra + rb[..n] && (ra + rb)[|ra| + n] == rb[n];
      assert ra + rb[..n] + [grown] == ra + (rb[..n] + [grown]);
    }
  }

  lemma {:induction false} RowsAppend(a: seq<Piece>, b: seq<Piece>, args: seq<Value>)
    requires Rows(a, args).Some? && Rows(b, args).Some?
    ensures Rows(a + b, args) == Some(Rows(a, args).value + Rows(b, args).value)
    decreases |b|
  {
    if b == [] {
      assert a + b == a && Rows(a, args).value + [] == Rows(a, args).value;
    } else {
      assert (a + b)[..|a + b| - 1] == a + b[..|b| - 1] && (a + b)[|a + b| - 1] == b[|b| - 1];
      RowsAppend(a, b[..|b| - 1], args);
      ExtendedAppends(Rows(a, args).value, Rows(b[..|b| - 1], args).value, b[|b| - 1], args);
    }
  }

  lemma FirstOfRow(before: string, base: nat, args: seq<Value>)
    requires base < |args|
    ensures Extended(Some([]), Piece(before + "(", base + 1), args) == Some([args[base..base + 1]])
  {
    assert (before + "(")[|before|] == '(' && '(' in before + "(";
    assert args[base..base + 1] == [args[base]] && [] + [[args[base]]] == [[args[base]]];
  }

  lemma NextOfRow(base: nat, args: seq<Value>, k: nat)
    requires k > 0 && base + k < |args|
    ensures Extended(Some([args[base..base + k]]), Piece(", ", base + k + 1), args) == Some([args[base..base + k + 1]])
  {
    var rows := [args[base..base + k]];
    assert '(' !in ", " && args[base..base + k] + [args[base + k]] == args[base..base + k + 1];
    assert rows[..0] + [args[base..base + k + 1]] == [args[base..base + k + 1]];
  }

  lemma {:induction false} OneRow(before: string, base: nat, args: seq<Value>, k: nat)
    requires base + COL_COUNT <= |args| && 1 <= k <= COL_COUNT
    ensures Rows(RowPieces(before, base)[..k], args) == Some([args[base..base + k]])
    decreases k
  {
    var pieces := RowPieces(before, base);
    assert pieces[..k][..k - 1] == pieces[..k - 1] && pieces[..k][k - 1] == pieces[k - 1];
    if k == 1 {
      assert pieces[..0] == [] && Rows([], args) == Some([]);
      FirstOfRow(before, base, args);
    } else {
      OneRow(before, base, args, k - 1);
      NextOfRow(base, args, k - 1);
    }
  }

  function AllColumns(records: seq<Record>): (rows: seq<seq<Value>>)
    ensures |rows| == |records| && forall i :: 0 <= i < |records| ==> rows[i] == Columns(records[i])
  {
    if records == [] then [] else [Columns(records[0])] + AllColumns(records[1..])
  }

  /** The row of each record: its nine values in the order of the statement's column list, NULL for an empty column name
      or value and for no existing record. */
  lemma RowsAreTheRecords(records: seq<Record>, i: nat)
    requires i < |records|
    ensures var r, row := records[i], AllColumns(records)[i];
            && |row| == 9 && row[0] == Number(r.session) && row[1] == Number(r.rowNumber)
            && row[2] == Text(r.recordName) && row[3] == Text(r.reason) && row[4] == Text(r.recordType)
            && row[5] == (if r.columnName == "" then Null else Text(r.columnName))
            && row[6] == (if r.value == "" then Null else Text(r.value))
            && row[7] == (if r.existing.Some? then Number(r.existing.value) else Null)
            && row[8] == Number(r.org)
  {
    assert AllColumns(records)[i] == Columns(records[i]);
  }

  /** From `base` on, the arguments are the records' columns. */
  ghost predicate HoldsColumns(args: seq<Value>, base: nat, records: seq<Record>) {
    && |args| == base + COL_COUNT * |records|
    && forall i {:trigger records[i]} :: 0 <= i < |records| ==>
         args[base + COL_COUNT * i..base + COL_COUNT * i + COL_COUNT] == Columns(records[i])
  }

  lemma {:induction false} RowsReadBack(records: seq<Record>, args: seq<Value>, base: nat, before: string)
    requires HoldsColumns(args, base, records)
    ensures Rows(AllPieces(base, |records|, before), args) == Some(AllColumns(records))
    decreases |records|
  {
    if records != [] {
      var first, rest := RowPieces(before, base), AllPieces(base + COL_COUNT, |records| - 1, "), ");
      OneRow(before, base, args, COL_COUNT);
      assert first[..COL_COUNT] == first;
      assert args[base + COL_COUNT * 0..base + COL_COUNT * 0 + COL_COUNT] == Columns(records[0]);
      RestHolds(records, args, base);
      RowsReadBack(records[1..], args, base + COL_COUNT, "), ");
      RowsAppend(first, rest, args);
    }
  }

  lemma RestHolds(records: seq<Record>, args: seq<Value>, base: nat)
    requires records != [] && HoldsColumns(args, base, records)
    ensures HoldsColumns(args, base + COL_COUNT, records[1..])
  {
    forall i {:trigger records[1..][i]} | 0 <= i < |records[1..]|
      ensures args[base + COL_COUNT + COL_COUNT * i..base + COL_COUNT + COL_COUNT * i + COL_COUNT] == Columns(records[1..][i])
    {
      assert records[1..][i] == records[i + 1];
      assert base + COL_COUNT * (i + 1) == base + COL_COUNT + COL_COUNT * i;
    }
  }

  /** What a batch inserts, read from the generated text and its arguments. */
  function Inserted(values: string, args: seq<Value>): Option<seq<seq<Value>>> {
    Rows(Scan(values, ""), args)
  }

  // The protocol counts a statement's parameters in 16 bits.
  const MAX_PARAMETERS: nat := 65535
  const MAX_RECORDS: nat := 7281

  /** The row's foreign keys hold. */
  predicate RowAccepted(row: seq<Value>, sessions: set<int>, orgs: set<int>) {
    && |row| == COL_COUNT && row[0].Number? && row[0].number in sessions
    && row[8].Number? && row[8].number in orgs
  }

  predicate Accepted(rows: seq<seq<Value>>, parameters: nat, sessions: set<int>, orgs: set<int>) {
    parameters <= MAX_PARAMETERS && forall row :: row in rows ==> RowAccepted(row, sessions, orgs)
  }

  predicate References(r: Record, sessions: set<int>, orgs: set<int>) {
    r.session in sessions && r.org in orgs
  }

  lemma ColumnsAccepted(r: Record, sessions: set<int>, orgs: set<int>)
    ensures RowAccepted(Columns(r), sessions, orgs) <==> References(r, sessions, orgs)
  {}

  /** Row by row, the statement accepts what the records' own references allow. */
  lemma {:induction false} AllAccepted(records: seq<Record>, sessions: set<int>, orgs: set<int>)
    ensures (forall row :: row in AllColumns(records) ==> RowAccepted(row, sessions, orgs)) <==>
            (forall r :: r in records ==> References(r, sessions, orgs))
    decreases |records|
  {
    if records != [] {
      ColumnsAccepted(records[0], sessions, orgs);
      AllAccepted(records[1..], sessions, orgs);
      assert records == [records[0]] + records[1..];
    }
  }

  /** The loop over the records. */
  method BuildBatch(records: seq<Record>) returns (values: string, args: seq<Value>)
    ensures values == Join(RowTexts(0, |records|), ", ") && HoldsColumns(args, 0, records)
  {
    var valueStrings := new string[|records|];
    args := [];
    for i := 0 to |records|
      invariant forall j :: 0 <= j < i ==> valueStrings[j] == RowText(j * COL_COUNT)
      invariant HoldsColumns(args, 0, records[..i])
    {
      var base := i * COL_COUNT;
      valueStrings[i] := RowText(base);
      ArgsGain(args, records, i);
      args := args + Columns(records[i]);
    }
    assert records[..|records|] == records;
    assert valueStrings[..] == RowTexts(0, |records|);
    values := Join(valueStrings[..], ", ");
  }

  class ImportLog {
    var failedRecords: seq<seq<Value>>
    var sessions: set<int>
    var orgs: set<int>

    /** Nothing for no records. Otherwise the placeholders are 1, 2, … 9n, each once, and the statement inserts the
        records' columns in order, or fails and inserts nothing. */
    method CreateFailedRecords(records: seq<Record>) returns (values: string, args: seq<Value>, ok: bool)
      modifies this`failedRecords
      ensures |Scan(values, "")| == |args| == COL_COUNT * |records|
      ensures forall k :: 0 <= k < |args| ==> Scan(values, "")[k].number == k + 1
      ensures Inserted(values, args) == Some(AllColumns(records))
      ensures ok <==> |records| <= 7281 && forall r :: r in records ==> r.session in sessions && r.org in orgs
      ensures failedRecords == old(failedRecords) + if ok then AllColumns(records) else []
    {
      if |records| == 0 { return "", [], true; }
      values, args := BuildBatch(records);
      BatchInserts(records, args);
      AllAccepted(records, sessions, orgs);
      var rows := Inserted(values, args).value;
      ok := Accepted(rows, |args|, sessions, orgs);
      if ok { failedRecords := failedRecords + rows; }
    }
  }

  lemma BatchInserts(records: seq<Record>, args: seq<Value>)
    requires HoldsColumns(args, 0, records)
    ensures var values := Join(RowTexts(0, |records|), ", ");
            && |Scan(values, "")| == COL_COUNT * |records|
            && (forall k :: 0 <= k < COL_COUNT * |records| ==> Scan(values, "")[k].number == k + 1)
            && Inserted(values, args) == Some(AllColumns(records))
  {
    ScanRows(0, |records|, "");
    PlaceholdersCount(0, |records|, "");
    RowsReadBack(records, args, 0, "");
  }

  lemma ArgsGain(args: seq<Value>, records: seq<Record>, i: nat)
    requires i < |records| && HoldsColumns(args, 0, records[..i])
    ensures HoldsColumns(args + Columns(records[i]), 0, records[..i + 1])
  {
    var more := args + Columns(records[i]);
    forall j {:trigger records[..i + 1][j]} | 0 <= j < i + 1
      ensures more[COL_COUNT * j..COL_COUNT * j + COL_COUNT] == Columns(records[..i + 1][j])
    {
      if j < i {
        assert records[..i][j] == records[j];
        assert COL_COUNT * j + COL_COUNT <= COL_COUNT * i;
        assert more[COL_COUNT * j..COL_COUNT * j + COL_COUNT] == args[COL_COUNT * j..COL_COUNT * j + COL_COUNT];
      }
    }
  }
}
