/** The partial UPDATE of a user row, built clause by clause. */
module UserUpdate {
  import opened Prelude
  import Decimal
  import opened SqlText

  datatype Update = Update(id: int, fullName: Option<string>, email: Option<string>, password: Option<string>,
                           roleId: Option<int>, active: Option<bool>, photo: Option<string>, org: Option<int>)

  type Row = map<string, Value>

  datatype Error = NoFields | IdRequired | NoRows | ConstraintViolated

  datatype Field = Field(column: string, value: Value)

  const HEAD: string := "UPDATE users SET "
  const WHERE: string := " WHERE id = "

  function OptText(v: Option<string>): Option<Value> {
    if v.Some? then Some(Text(v.value)) else None
  }

  function OptNumber(v: Option<int>): Option<Value> {
    if v.Some? then Some(Number(v.value)) else None
  }

  function OptFlag(v: Option<bool>): Option<Value> {
    if v.Some? then Some(Flag(v.value)) else None
  }

  /** The columns the caller supplied, with their values. */
  function Supplied(u: Update): map<string, Value> {
    map[] + Entry("full_name", OptText(u.fullName)) + Entry("email", OptText(u.email))
    + Entry("password", OptText(u.password)) + Entry("role_id", OptNumber(u.roleId))
    + Entry("active_status", OptFlag(u.active)) + Entry("photo", OptText(u.photo))
    + Entry("organization_id", OptNumber(u.org))
  }

  function Entry(column: string, value: Option<Value>): map<string, Value> {
    if value.Some? then map[column := value.value] else map[]
  }

  // ---- what the generated text means ----

  function LastWord(s: string): string {
    if s == "" || s[|s| - 1] == ' ' then "" else LastWord(s[..|s| - 1]) + [s[|s| - 1]]
  }

  /** The column a placeholder is assigned to: the word before " = ". */
  function Column(before: string): string {
    if |before| >= 3 then LastWord(before[..|before| - 3]) else ""
  }

  function Assigned(row: Row, pieces: seq<Piece>, args: seq<Value>): Option<Row> {
    if pieces == [] then Some(row)
    else
      var last := pieces[|pieces| - 1];
      var before := Assigned(row, pieces[..|pieces| - 1], args);
      if before.None? || !(1 <= last.number <= |args|) then None
      else Some(before.value[Column(last.before) := args[last.number - 1]])
  }

  function Applied(users: map<int, Row>, pieces: seq<Piece>, args: seq<Value>): Option<map<int, Row>> {
    if pieces == [] then None
    else
      var last := pieces[|pieces| - 1];
      if last.before != WHERE || !(1 <= last.number <= |args|) || !args[last.number - 1].Number? then None
      else
        var id := args[last.number - 1].number;
        if id !in users then None
        else
          var row := Assigned(users[id], pieces[..|pieces| - 1], args);
          if row.None? then None else Some(users[id := row.value])
  }

  /** The table after the statement, if it is well formed and updates a row. */
  function Executed(users: map<int, Row>, query: string, args: seq<Value>): Option<map<int, Row>> {
    Applied(users, Scan(query, ""), args)
  }

  // ---- the text ----

  function Clause(column: string, argID: nat): string {
    column + " = $" + Decimal.Print(argID)
  }

  function Clauses(fields: seq<Field>, from: nat): (clauses: seq<string>)
    ensures |clauses| == |fields|
  {
    if fields == [] then [] else [Clause(fields[0].column, from)] + Clauses(fields[1..], from + 1)
  }

  lemma {:induction false} ClausesAppend(fields: seq<Field>, last: Field, from: nat)
    ensures Clauses(fields + [last], from) == Clauses(fields, from) + [Clause(last.column, from + |fields|)]
    decreases |fields|
  {
    if fields == [] {
      assert ([] + [last])[1..] == [];
    } else {
      assert (fields + [last])[1..] == fields[1..] + [last];
      ClausesAppend(fields[1..], last, from + 1);
    }
  }

  function FieldPieces(fields: seq<Field>, from: nat, before: string): (pieces: seq<Piece>)
    ensures |pieces| == |fields|
  {
    if fields == [] then []
    else [Piece(before + (fields[0].column + " = "), from)] + FieldPieces(fields[1..], from + 1, ", ")
  }

  predicate PlainColumn(column: string) {
    forall i :: 0 <= i < |column| ==> column[i] != '$' && column[i] != ' '
  }

  predicate PlainColumns(fields: seq<Field>) {
    forall i :: 0 <= i < |fields| ==> PlainColumn(fields[i].column)
  }

  lemma ScanClause(column: string, argID: nat, rest: string, before: string)
    requires PlainColumn(column) && NoDigitFirst(rest)
    ensures Scan(Clause(column, argID) + rest, before) == [Piece(before + (column + " = "), argID)] + Scan(rest, "")
  {
    assert Clause(column, argID) + rest == (column + " = ") + "$" + Decimal.Print(argID) + rest;
    ScanNext(column + " = ", argID, rest, before);
  }

  lemma ScanClauseAndComma(column: string, argID: nat, more: string, before: string)
    requires PlainColumn(column)
    ensures Scan(Clause(column, argID) + ", " + more, before) ==
            [Piece(before + (column + " = "), argID)] + Scan(more, ", ")
  {
    assert Clause(column, argID) + ", " + more == Clause(column, argID) + (", " + more);
    ScanClause(column, argID, ", " + more, before);
    ScanText(", ", more, "");
    assert "" + ", " == ", ";
  }

  lemma {:induction false} ScanClauses(fields: seq<Field>, from: nat, rest: string, before: string)
    requires fields != [] && PlainColumns(fields) && NoDigitFirst(rest)
    ensures Scan(Join(Clauses(fields, from), ", ") + rest, before) == FieldPieces(fields, from, before) + Scan(rest, "")
    decreases |fields|
  {
    var first := fields[0].column;
    assert PlainColumn(first);
    if |fields| == 1 {
      ScanClause(first, from, rest, before);
      assert FieldPieces(fields, from, before) == [Piece(before + (first + " = "), from)];
    } else {
      var more := fields[1..];
      var joined := Join(Clauses(more, from + 1), ", ");
      assert Clauses(fields, from)[1..] == Clauses(more, from + 1);
      assert Join(Clauses(fields, from), ", ") + rest == Clause(first, from) + ", " + (joined + rest);
      ScanClauseAndComma(first, from, joined + rest, before);
      ScanClauses(more, from + 1, rest, ", ");
    }
  }

  /** The placeholders of the whole statement: each field's, then the row's id. */
  lemma ScanQuery(fields: seq<Field>, argID: nat)
    requires fields != [] && PlainColumns(fields)
    ensures Scan(HEAD + Join(Clauses(fields, 1), ", ") + WHERE + "$" + Decimal.Print(argID), "") ==
            FieldPieces(fields, 1, HEAD) + [Piece(WHERE, argID)]
  {
    var tail := WHERE + "$" + Decimal.Print(argID);
    var clauses := Join(Clauses(fields, 1), ", ");
    assert HEAD + clauses + WHERE + "$" + Decimal.Print(argID) == HEAD + (clauses + tail);
    ScanText(HEAD, clauses + tail, "");
    ScanClauses(fields, 1, tail, HEAD);
    ScanNext(WHERE, argID, "", "");
    assert tail + "" == tail && "" + HEAD == HEAD && "" + WHERE == WHERE;
  }

  // ---- reading it back ----

  function AsMap(fields: seq<Field>): map<string, Value> {
    if fields == [] then map[]
    else AsMap(fields[..|fields| - 1])[fields[|fields| - 1].column := fields[|fields| - 1].value]
  }

  function Values(fields: seq<Field>): (values: seq<Value>)
    ensures |values| == |fields|
  {
    seq(|fields|, i requires 0 <= i < |fields| => fields[i].value)
  }

  lemma {:induction false} FieldPieceAt(fields: seq<Field>, from: nat, before: string, i: nat)
    requires i < |fields|
    ensures FieldPieces(fields, from, before)[i] ==
            Piece((if i == 0 then before else ", ") + (fields[i].column + " = "), from + i)
    decreases i
  {
    if i > 0 { FieldPieceAt(fields[1..], from + 1, ", ", i - 1); }
  }

  predicate EndsInSpace(s: string) {
    s != "" && s[|s| - 1] == ' '
  }

  lemma {:induction false} LastWordIs(before: string, word: string)
    requires EndsInSpace(before) && PlainColumn(word)
    ensures LastWord(before + word) == word
    decreases |word|
  {
    if word == "" {
      assert before + word == before;
    } else {
      assert (before + word)[..|before + word| - 1] == before + word[..|word| - 1];
      LastWordIs(before, word[..|word| - 1]);
    }
  }

  lemma ColumnIs(before: string, column: string)
    requires EndsInSpace(before) && PlainColumn(column)
    ensures Column(before + (column + " = ")) == column
  {
    var text := before + (column + " = ");
    assert text[..|text| - 3] == before + column;
    LastWordIs(before, column);
  }

  lemma {:induction false} AssignedFields(row: Row, fields: seq<Field>, args: seq<Value>, head: string, n: nat)
    requires n <= |fields| && Values(fields) <= args && PlainColumns(fields) && EndsInSpace(head)
    ensures Assigned(row, FieldPieces(fields, 1, head)[..n], args) == Some(row + AsMap(fields[..n]))
    decreases n
  {
    var pieces := FieldPieces(fields, 1, head);
    if n == 0 {
      assert row + map[] == row;
    } else {
      var field := fields[n - 1];
      AssignedFields(row, fields, args, head, n - 1);
      assert pieces[..n][..n - 1] == pieces[..n - 1] && fields[..n][..n - 1] == fields[..n - 1];
      FieldPieceAt(fields, 1, head, n - 1);
      ColumnIs(if n == 1 then head else ", ", field.column);
      assert args[n - 1] == Values(fields)[n - 1] == field.value;
      MergeThenSet(row, AsMap(fields[..n - 1]), field.column, field.value);
    }
  }

  lemma MergeThenSet(row: Row, m: Row, column: string, value: Value)
    ensures row + m[column := value] == (row + m)[column := value]
  {}

  lemma AppliedFields(users: map<int, Row>, fields: seq<Field>, head: string, id: int)
    requires PlainColumns(fields) && EndsInSpace(head)
    ensures Applied(users, FieldPieces(fields, 1, head) + [Piece(WHERE, |fields| + 1)], Values(fields) + [Number(id)]) ==
            if id in users then Some(users[id := users[id] + AsMap(fields)]) else None
  {
    var fieldPieces := FieldPieces(fields, 1, head);
    var pieces := fieldPieces + [Piece(WHERE, |fields| + 1)];
    assert pieces[..|pieces| - 1] == fieldPieces == fieldPieces[..|fields|] && fields[..|fields|] == fields;
    if id in users { AssignedFields(users[id], fields, Values(fields) + [Number(id)], head, |fields|); }
  }

  /** Executing the generated statement with its arguments sets exactly the fields, on exactly that row. */
  lemma QueryUpdatesFields(users: map<int, Row>, fields: seq<Field>, id: int)
    requires fields != [] && PlainColumns(fields)
    ensures Executed(users, HEAD + Join(Clauses(fields, 1), ", ") + WHERE + "$" + Decimal.Print(|fields| + 1),
                     Values(fields) + [Number(id)]) ==
            if id in users then Some(users[id := users[id] + AsMap(fields)]) else None
  {
    ScanQuery(fields, |fields| + 1);
    AppliedFields(users, fields, HEAD, id);
  }

  // ---- the code ----

  /** The clauses built so far: one clause and one argument for each field, numbered from 1. */
  ghost predicate Building(clauses: seq<string>, args: seq<Value>, argID: nat, fields: seq<Field>) {
    clauses == Clauses(fields, 1) && args == Values(fields) && argID == |fields| + 1 && PlainColumns(fields)
  }

  method AddClause(clauses: seq<string>, args: seq<Value>, argID: nat, column: string, value: Option<Value>,
                   ghost fields: seq<Field>)
    returns (clauses': seq<string>, args': seq<Value>, argID': nat, ghost fields': seq<Field>)
    requires Building(clauses, args, argID, fields) && PlainColumn(column)
    ensures Building(clauses', args', argID', fields')
    ensures AsMap(fields') == AsMap(fields) + Entry(column, value)
    ensures fields <= fields' && (value.Some? ==> fields' != [])
  {
    clauses', args', argID', fields' := clauses, args, argID, fields;
    if value.Some? {
      clauses' := clauses + [Clause(column, argID)];
      args' := args + [value.value];
      argID' := argID + 1;
      fields' := fields + [Field(column, value.value)];
      ClausesAppend(fields, Field(column, value.value), 1);
      assert fields'[..|fields|] == fields;
    }
  }

  method SetClauses(u: Update) returns (clauses: seq<string>, args: seq<Value>, argID: nat, ghost fields: seq<Field>)
    ensures Building(clauses, args, argID, fields) && AsMap(fields) == Supplied(u)
  {
    clauses, args, argID, fields := [], [], 1, [];
    clauses, args, argID, fields := AddClause(clauses, args, argID, "full_name", OptText(u.fullName), fields);
    clauses, args, argID, fields := AddClause(clauses, args, argID, "email", OptText(u.email), fields);
    clauses, args, argID, fields := AddClause(clauses, args, argID, "password", OptText(u.password), fields);
    clauses, args, argID, fields := AddClause(clauses, args, argID, "role_id", OptNumber(u.roleId), fields);
    clauses, args, argID, fields := AddClause(clauses, args, argID, "active_status", OptFlag(u.active), fields);
    clauses, args, argID, fields := AddClause(clauses, args, argID, "photo", OptText(u.photo), fields);
    clauses, args, argID, fields := AddClause(clauses, args, argID, "organization_id", OptNumber(u.org), fields);
  }

  lemma EntryHas(name: string, value: Option<Value>, column: string)
    ensures column in Entry(name, value) <==> column == name && value.Some?
    ensures column in Entry(name, value) ==> value == Some(Entry(name, value)[column])
  {}

  lemma AllEntries(u: Update, column: string)
    ensures column in Entry("full_name", OptText(u.fullName)) <==> column == "full_name" && u.fullName.Some?
    ensures column in Entry("email", OptText(u.email)) <==> column == "email" && u.email.Some?
    ensures column in Entry("password", OptText(u.password)) <==> column == "password" && u.password.Some?
    ensures column in Entry("role_id", OptNumber(u.roleId)) <==> column == "role_id" && u.roleId.Some?
    ensures column in Entry("active_status", OptFlag(u.active)) <==> column == "active_status" && u.active.Some?
    ensures column in Entry("photo", OptText(u.photo)) <==> column == "photo" && u.photo.Some?
    ensures column in Entry("organization_id", OptNumber(u.org)) <==> column == "organization_id" && u.org.Some?
  {
    EntryHas("full_name", OptText(u.fullName), column);
    EntryHas("email", OptText(u.email), column);
    EntryHas("password", OptText(u.password), column);
    EntryHas("role_id", OptNumber(u.roleId), column);
    EntryHas("active_status", OptFlag(u.active), column);
    EntryHas("photo", OptText(u.photo), column);
    EntryHas("organization_id", OptNumber(u.org), column);
  }

  /** A column is written exactly when the caller supplied it. */
  lemma SuppliedExactly(u: Update, column: string)
    ensures column in Supplied(u) <==>
              || (column == "full_name" && u.fullName.Some?) || (column == "email" && u.email.Some?)
              || (column == "password" && u.password.Some?) || (column == "role_id" && u.roleId.Some?)
              || (column == "active_status" && u.active.Some?) || (column == "photo" && u.photo.Some?)
              || (column == "organization_id" && u.org.Some?)
  {
    AllEntries(u, column);
  }

  function Given(u: Update, column: string): Option<Value> {
    if column == "full_name" then OptText(u.fullName)
    else if column == "email" then OptText(u.email)
    else if column == "password" then OptText(u.password)
    else if column == "role_id" then OptNumber(u.roleId)
    else if column == "active_status" then OptFlag(u.active)
    else if column == "photo" then OptText(u.photo)
    else if column == "organization_id" then OptNumber(u.org)
    else None
  }

  lemma SuppliedValue(u: Update, column: string)
    ensures column in Supplied(u) <==> Given(u, column).Some?
    ensures column in Supplied(u) ==> Some(Supplied(u)[column]) == Given(u, column)
  {
    AllEntries(u, column);
  }

  lemma SuppliedNothing(u: Update)
    ensures Supplied(u) == map[] <==>
              && u.fullName.None? && u.email.None? && u.password.None? && u.roleId.None? && u.active.None?
              && u.photo.None? && u.org.None?
  {
    if u.fullName.Some? { AllEntries(u, "full_name"); }
    if u.email.Some? { AllEntries(u, "email"); }
    if u.password.Some? { AllEntries(u, "password"); }
    if u.roleId.Some? { AllEntries(u, "role_id"); }
    if u.active.Some? { AllEntries(u, "active_status"); }
    if u.photo.Some? { AllEntries(u, "photo"); }
    if u.org.Some? { AllEntries(u, "organization_id"); }
  }

  /** The first part of UpdateUserPartial, up to the statement's text. */
  method BuildQuery(u: Update, now: nat)
    returns (query: Result<string, Error>, args: seq<Value>, ghost fields: seq<Field>)
    ensures query == Err(NoFields) <==> Supplied(u) == map[]
    ensures query == Err(IdRequired) <==> Supplied(u) != map[] && u.id == 0
    ensures query.Err? ==> query.error.NoFields? || query.error.IdRequired?
    ensures query.Ok? ==>
              && fields != [] && PlainColumns(fields) && args == Values(fields) + [Number(u.id)]
              && AsMap(fields) == Supplied(u) + map["updated_at" := Instant(now)]
              && query.value == HEAD + Join(Clauses(fields, 1), ", ") + WHERE + "$" + Decimal.Print(|fields| + 1)
  {
    var clauses, argID;
    clauses, args, argID, fields := SetClauses(u);
    if |clauses| == 0 { return Err(NoFields), args, fields; }
    NotEmpty(fields);
    clauses, args, argID, fields := AddClause(clauses, args, argID, "updated_at", Some(Instant(now)), fields);
    if u.id == 0 { return Err(IdRequired), args, fields; }
    args := args + [Number(u.id)];
    query := Ok(HEAD + Join(clauses, ", ") + WHERE + "$" + Decimal.Print(argID));
  }

  // ---- the table's constraints ----

  predicate HasText(row: Row, column: string) {
    column in row && row[column].Text?
  }

  predicate Refers(row: Row, column: string, ids: set<int>) {
    column in row && row[column].Number? && row[column].number in ids
  }

  /** E-mail addresses are unique, over deleted rows too, and every row's role and organisation exist. */
  predicate Consistent(users: map<int, Row>, roles: set<int>, orgs: set<int>) {
    && (forall id :: id in users ==>
          && HasText(users[id], "email")
          && Refers(users[id], "role_id", roles) && Refers(users[id], "organization_id", orgs))
    && (forall i, j :: i in users && j in users && users[i]["email"] == users[j]["email"] ==> i == j)
  }

  predicate Taken(users: map<int, Row>, email: string, id: int) {
    exists other :: other in users && other != id && "email" in users[other] && users[other]["email"] == Text(email)
  }

  /** The new address is another row's, or the new role or organisation does not exist. */
  predicate Violates(users: map<int, Row>, roles: set<int>, orgs: set<int>, u: Update) {
    || (u.email.Some? && Taken(users, u.email.value, u.id))
    || (u.roleId.Some? && u.roleId.value !in roles)
    || (u.org.Some? && u.org.value !in orgs)
  }

  function Updated(row: Row, u: Update, now: nat): Row {
    row + (Supplied(u) + map["updated_at" := Instant(now)])
  }

  lemma UpdatedColumn(row: Row, u: Update, now: nat, column: string)
    requires column != "updated_at"
    ensures var row' := Updated(row, u, now);
            if Given(u, column).Some? then column in row' && Some(row'[column]) == Given(u, column)
            else (column in row' <==> column in row) && (column in row ==> row'[column] == row[column])
  {
    SuppliedValue(u, column);
  }

  /** Column by column: the caller's value where one was given, the old one, or none, where it was not, the time of the
      update in `updated_at`, and every other column as it was. */
  lemma UpdatedRow(row: Row, u: Update, now: nat, column: string)
    ensures var row' := Updated(row, u, now);
            var kept := (column in row' <==> column in row) && (column in row ==> row'[column] == row[column]);
            var texts := {"full_name", "email", "password", "photo"};
            var others := {"role_id", "active_status", "organization_id", "updated_at"};
            && (column == "full_name" ==>
                  if u.fullName.Some? then column in row' && row'[column] == Text(u.fullName.value) else kept)
            && (column == "email" ==>
                  if u.email.Some? then column in row' && row'[column] == Text(u.email.value) else kept)
            && (column == "password" ==>
                  if u.password.Some? then column in row' && row'[column] == Text(u.password.value) else kept)
            && (column == "role_id" ==>
                  if u.roleId.Some? then column in row' && row'[column] == Number(u.roleId.value) else kept)
            && (column == "active_status" ==>
                  if u.active.Some? then column in row' && row'[column] == Flag(u.active.value) else kept)
            && (column == "photo" ==>
                  if u.photo.Some? then column in row' && row'[column] == Text(u.photo.value) else kept)
            && (column == "organization_id" ==>
                  if u.org.Some? then column in row' && row'[column] == Number(u.org.value) else kept)
            && (column == "updated_at" ==> column in row' && row'[column] == Instant(now))
            && (column !in texts + others ==> kept)
  {
    if column != "updated_at" { UpdatedColumn(row, u, now, column); }
  }

  /** Every row but the updated one is as it was. */
  lemma OthersStay(users: map<int, Row>, id: int, row: Row)
    ensures forall other :: other in users && other != id ==> users[id := row][other] == users[other]
  {}

  lemma UpdatedReferences(row: Row, u: Update, now: nat)
    requires HasText(row, "email") && "role_id" in row && "organization_id" in row
    ensures var row' := Updated(row, u, now);
            && HasText(row', "email") && "role_id" in row' && "organization_id" in row'
            && row'["email"] == (if u.email.Some? then Text(u.email.value) else row["email"])
            && row'["role_id"] == (if u.roleId.Some? then Number(u.roleId.value) else row["role_id"])
            && row'["organization_id"] == (if u.org.Some? then Number(u.org.value) else row["organization_id"])
  {
    UpdatedRow(row, u, now, "email");
    UpdatedRow(row, u, now, "role_id");
    UpdatedRow(row, u, now, "organization_id");
  }

  /** A row with existing references and an address of its own fits among the others. */
  lemma RowFits(users: map<int, Row>, roles: set<int>, orgs: set<int>, id: int, row: Row)
    requires Consistent(users, roles, orgs) && HasText(row, "email")
    requires Refers(row, "role_id", roles) && Refers(row, "organization_id", orgs)
    requires forall other :: other in users && other != id ==> users[other]["email"] != row["email"]
    ensures Consistent(users[id := row], roles, orgs)
  {
    OthersStay(users, id, row);
  }

  /** Nothing violated, nothing broken. */
  lemma KeepsConsistent(users: map<int, Row>, roles: set<int>, orgs: set<int>, u: Update, now: nat)
    requires Consistent(users, roles, orgs) && u.id in users && !Violates(users, roles, orgs, u)
    ensures Consistent(users[u.id := Updated(users[u.id], u, now)], roles, orgs)
  {
    var row := Updated(users[u.id], u, now);
    UpdatedReferences(users[u.id], u, now);
    forall other | other in users && other != u.id ensures users[other]["email"] != row["email"] {
      if u.email.Some? { assert !Taken(users, u.email.value, u.id); }
    }
    RowFits(users, roles, orgs, u.id, row);
  }

  /** A taken address, or a role or organisation that does not exist, leaves the table inconsistent. */
  lemma BreaksConsistent(users: map<int, Row>, roles: set<int>, orgs: set<int>, u: Update, now: nat)
    requires Consistent(users, roles, orgs) && u.id in users && Violates(users, roles, orgs, u)
    ensures !Consistent(users[u.id := Updated(users[u.id], u, now)], roles, orgs)
  {
    var users' := users[u.id := Updated(users[u.id], u, now)];
    UpdatedReferences(users[u.id], u, now);
    if u.email.Some? && Taken(users, u.email.value, u.id) {
      var other :| other in users && other != u.id && users[other]["email"] == Text(u.email.value);
      assert other in users' && users'[other]["email"] == users'[u.id]["email"];
    } else if u.roleId.Some? && u.roleId.value !in roles {
      assert !Refers(users'[u.id], "role_id", roles);
    } else {
      assert !Refers(users'[u.id], "organization_id", orgs);
    }
  }

  /** Among consistent rows that is exactly when the updated table would be inconsistent. */
  lemma ViolatesExactly(users: map<int, Row>, roles: set<int>, orgs: set<int>, u: Update, now: nat)
    requires Consistent(users, roles, orgs) && u.id in users
    ensures Consistent(users[u.id := Updated(users[u.id], u, now)], roles, orgs) <==> !Violates(users, roles, orgs, u)
  {
    if Violates(users, roles, orgs, u) {
      BreaksConsistent(users, roles, orgs, u, now);
    } else {
      KeepsConsistent(users, roles, orgs, u, now);
    }
  }

  /** The table after the statement, unless it addresses no row or violates a constraint. */
  function Outcome(after: Option<map<int, Row>>, roles: set<int>, orgs: set<int>): (r: Result<map<int, Row>, Error>)
    ensures r.Ok? ==> Consistent(r.value, roles, orgs)
  {
    if after.None? then Err(NoRows)
    else if !Consistent(after.value, roles, orgs) then Err(ConstraintViolated)
    else Ok(after.value)
  }

  lemma StatementOutcome(users: map<int, Row>, roles: set<int>, orgs: set<int>, fields: seq<Field>, u: Update, now: nat)
    requires Consistent(users, roles, orgs) && fields != [] && PlainColumns(fields)
    requires AsMap(fields) == Supplied(u) + map["updated_at" := Instant(now)]
    ensures var query := HEAD + Join(Clauses(fields, 1), ", ") + WHERE + "$" + Decimal.Print(|fields| + 1);
            Outcome(Executed(users, query, Values(fields) + [Number(u.id)]), roles, orgs) ==
            if u.id !in users then Err(NoRows)
            else if Violates(users, roles, orgs, u) then Err(ConstraintViolated)
            else Ok(users[u.id := Updated(users[u.id], u, now)])
  {
    QueryUpdatesFields(users, fields, u.id);
    if u.id in users {
      ViolatesExactly(users, roles, orgs, u, now);
      assert Updated(users[u.id], u, now) == users[u.id] + AsMap(fields);
    }
  }

  class UserTable {
    var users: map<int, Row>
    var roles: set<int>
    var orgs: set<int>

    predicate Valid()
      reads this
    {
      Consistent(users, roles, orgs)
    }

    /** Without any field, and then without an id, nothing changes. Otherwise the addressed row, if there is one, gets
        exactly the supplied columns and a new `updated_at`, unless that would violate a constraint; no other row
        changes. */
    method UpdateUserPartial(u: Update, now: nat) returns (r: Result<Row, Error>)
      requires Valid()
      modifies this`users
      ensures Valid()
      ensures r == Err(NoFields) <==>
                && u.fullName.None? && u.email.None? && u.password.None? && u.roleId.None? && u.active.None?
                && u.photo.None? && u.org.None?
      ensures r == Err(IdRequired) <==> r != Err(NoFields) && u.id == 0
      ensures r == Err(NoRows) <==> r != Err(NoFields) && u.id != 0 && u.id !in old(users)
      ensures r == Err(ConstraintViolated) <==>
                && r != Err(NoFields) && u.id != 0 && u.id in old(users)
                && ((u.email.Some? && exists other :: other in old(users) && other != u.id && "email" in old(users)[other]
                                        && old(users)[other]["email"] == Text(u.email.value))
                    || (u.roleId.Some? && u.roleId.value !in roles) || (u.org.Some? && u.org.value !in orgs))
      ensures r.Err? ==> users == old(users)
      ensures r.Ok? ==> users == old(users)[u.id := Updated(old(users)[u.id], u, now)] && r == Ok(users[u.id])
    {
      SuppliedNothing(u);
      var query, args;
      ghost var fields;
      query, args, fields := BuildQuery(u, now);
      if query.Err? { return Err(query.error); }
      StatementOutcome(users, roles, orgs, fields, u, now);
      var result := Outcome(Executed(users, query.value, args), roles, orgs);
      if result.Err? { return Err(result.error); }
      users := result.value;
      return Ok(users[u.id]);
    }
  }

  lemma NotEmpty(fields: seq<Field>)
    requires fields != []
    ensures AsMap(fields) != map[]
  {
    assert fields[|fields| - 1].column in AsMap(fields);
  }
}
