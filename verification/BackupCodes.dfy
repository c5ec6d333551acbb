/** Two-factor backup codes: stored hashed with their dash, looked up without it. */
module BackupCodes {
  import opened Prelude

  const CHARSET: string := "ABCDEFGHJKLMNPQRSTUVWXYZ23456789"
  const CODE_COUNT: nat := 10
  const CODE_LENGTH: nat := 8

  type Random = r: seq<Byte> | |r| == CODE_LENGTH witness seq(CODE_LENGTH, _ => 0)

  // As written, a code is hashed as it is shown to the user; corrected, what is hashed is the code without dashes.
  datatype Variant = AsWritten | Corrected

  datatype Row = Row(user: int, hash: string, used: bool)

  /** strings.ReplaceAll(s, "-", "") */
  function RemoveDashes(s: string): (r: string)
    ensures forall i :: 0 <= i < |r| ==> r[i] != '-'
  {
    if s == "" then ""
    else RemoveDashes(s[..|s| - 1]) + if s[|s| - 1] == '-' then "" else [s[|s| - 1]]
  }

  function Characters(random: Random): (s: string)
    ensures |s| == CODE_LENGTH && forall i :: 0 <= i < |s| ==> s[i] != '-'
  {
    seq(CODE_LENGTH, i requires 0 <= i < CODE_LENGTH => CHARSET[random[i] % |CHARSET|])
  }

  /** A code as the user sees it. */
  function Shown(random: Random): string {
    Characters(random)[..4] + "-" + Characters(random)[4..]
  }

  lemma {:induction false} NoDashesToRemove(s: string)
    requires forall i :: 0 <= i < |s| ==> s[i] != '-'
    ensures RemoveDashes(s) == s
  {
    if s != "" { NoDashesToRemove(s[..|s| - 1]); }
  }

  lemma {:induction false} RemoveDashesDistributes(a: string, b: string)
    ensures RemoveDashes(a + b) == RemoveDashes(a) + RemoveDashes(b)
    decreases |b|
  {
    if b == "" {
      assert a + b == a;
    } else {
      assert (a + b)[..|a + b| - 1] == a + b[..|b| - 1];
      RemoveDashesDistributes(a, b[..|b| - 1]);
    }
  }

  /** Typed with its dash or without, a code has the same normal form. */
  lemma EitherSpelling(random: Random)
    ensures RemoveDashes(Shown(random)) == RemoveDashes(Characters(random)) == Characters(random)
  {
    var c := Characters(random);
    RemoveDashesDistributes(c[..4] + "-", c[4..]);
    RemoveDashesDistributes(c[..4], "-");
    NoDashesToRemove(c[..4]);
    NoDashesToRemove(c[4..]);
    NoDashesToRemove(c);
    assert RemoveDashes("-") == "" by { assert "-"[..0] == ""; }
    assert c[..4] + c[4..] == c;
  }

  function Stored(v: Variant, code: string): string {
    if v.AsWritten? then code else RemoveDashes(code)
  }

  function Without(rows: seq<Row>, user: int): seq<Row> {
    if rows == [] then []
    else Without(rows[..|rows| - 1], user) + if rows[|rows| - 1].user == user then [] else [rows[|rows| - 1]]
  }

  function NewRows(v: Variant, hash: Hash, user: int, randoms: seq<Random>): seq<Row> {
    seq(|randoms|, i requires 0 <= i < |randoms| => Row(user, hash(Stored(v, Shown(randoms[i]))), false))
  }

  function Generated(rows: seq<Row>, v: Variant, hash: Hash, user: int, randoms: seq<Random>): seq<Row> {
    Without(rows, user) + NewRows(v, hash, user, randoms)
  }

  /** Generating keeps exactly the other users' rows and then adds an unused row of the user for each code shown, with the
      code's hash, or corrected the hash of its normal form. */
  lemma GeneratedRows(rows: seq<Row>, v: Variant, hash: Hash, user: int, randoms: seq<Random>, i: nat)
    requires i < |randoms|
    ensures var rows' := Generated(rows, v, hash, user, randoms);
            var kept := |rows'| - |randoms|;
            && kept >= 0
            && (forall row :: row in rows'[..kept] <==> row in rows && row.user != user)
            && rows'[kept + i] ==
               Row(user, hash(if v.AsWritten? then Shown(randoms[i]) else RemoveDashes(Shown(randoms[i]))), false)
  {
    var others, added := Without(rows, user), NewRows(v, hash, user, randoms);
    WithoutKeeps(rows, user);
    var rows' := others + added;
    assert rows' == Generated(rows, v, hash, user, randoms) && |rows'| - |randoms| == |others|;
    assert rows'[..|others|] == others;
    assert rows'[|others| + i] == added[i] == Row(user, hash(Stored(v, Shown(randoms[i]))), false);
  }

  predicate Redeemable(row: Row, user: int, h: string) {
    row.user == user && row.hash == h && !row.used
  }

  predicate Validates(rows: seq<Row>, hash: Hash, user: int, input: string) {
    exists i :: 0 <= i < |rows| && Redeemable(rows[i], user, hash(RemoveDashes(input)))
  }

  function Redeemed(rows: seq<Row>, hash: Hash, user: int, input: string): seq<Row> {
    seq(|rows|, i requires 0 <= i < |rows| =>
      if Redeemable(rows[i], user, hash(RemoveDashes(input))) then rows[i].(used := true) else rows[i])
  }

  /** generateBackupCode, given its random bytes. */
  method GenerateBackupCode(random: Random) returns (code: string)
    ensures code == Shown(random)
    ensures |code| == 9 && code[4] == '-'
    ensures forall i :: 0 <= i < 8 ==>
              code[if i < 4 then i else i + 1] == "ABCDEFGHJKLMNPQRSTUVWXYZ23456789"[random[i] % 32]
  {
    var chars := new char[CODE_LENGTH];
    for i := 0 to CODE_LENGTH
      invariant forall j :: 0 <= j < i ==> chars[j] == Characters(random)[j]
    {
      chars[i] := CHARSET[random[i] % |CHARSET|];
    }
    assert chars[..] == Characters(random);
    assert chars[..4] == chars[..][..4] && chars[4..] == chars[..][4..];
    return chars[..4] + "-" + chars[4..];
  }

  lemma NewRowsGain(v: Variant, hash: Hash, user: int, randoms: seq<Random>, i: nat)
    requires i < |randoms|
    ensures NewRows(v, hash, user, randoms)[..i + 1] ==
            NewRows(v, hash, user, randoms)[..i] + [Row(user, hash(Stored(v, Shown(randoms[i]))), false)]
  {}

  class BackupCodeTable {
    var rows: seq<Row>
    const hash: Hash
    const variant: Variant

    constructor (hash: Hash, variant: Variant)
      ensures rows == [] && this.hash == hash && this.variant == variant
    {
      rows, this.hash, this.variant := [], hash, variant;
    }

    method GenerateBackupCodes(user: int, randoms: seq<Random>) returns (codes: seq<string>)
      requires |randoms| == CODE_COUNT
      modifies this`rows
      ensures rows == Generated(old(rows), variant, hash, user, randoms)
      ensures |codes| == CODE_COUNT && forall i :: 0 <= i < CODE_COUNT ==> codes[i] == Shown(randoms[i])
    {
      DeleteBackupCodes(user);
      ghost var kept := rows;
      codes := [];
      for i := 0 to CODE_COUNT
        invariant |codes| == i && forall j :: 0 <= j < i ==> codes[j] == Shown(randoms[j])
        invariant rows == kept + NewRows(variant, hash, user, randoms)[..i]
      {
        var code := GenerateBackupCode(randoms[i]);
        codes := codes + [code];
        NewRowsGain(variant, hash, user, randoms, i);
        rows := rows + [Row(user, hash(Stored(variant, code)), false)];
      }
      assert NewRows(variant, hash, user, randoms)[..CODE_COUNT] == NewRows(variant, hash, user, randoms);
    }

    /** The UPDATE marks the user's unused rows with the input's hash; success means there was one. No spelling of the
        input validates for the user again, and no other row changes. */
    method ValidateBackupCode(user: int, code: string) returns (ok: bool)
      modifies this`rows
      ensures ok == Validates(old(rows), hash, user, code)
      ensures rows == Redeemed(old(rows), hash, user, code)
      ensures ok <==> exists row :: row in old(rows) && row.user == user && row.hash == hash(RemoveDashes(code)) && !row.used
      ensures |rows| == |old(rows)|
      ensures forall i :: 0 <= i < |rows| ==>
                var row := old(rows)[i];
                rows[i] == if row.user == user && row.hash == hash(RemoveDashes(code)) then row.(used := true) else row
      ensures forall input :: RemoveDashes(input) == RemoveDashes(code) ==> !Validates(rows, hash, user, input)
      ensures forall row: Row :: row.user != user || row.hash != hash(RemoveDashes(code)) || row.used ==>
                (row in old(rows) ==> row in rows)
    {
      var codeHash := hash(RemoveDashes(code));
      var affected := 0;
      for i := 0 to |rows|
        invariant |rows| == |old(rows)|
        invariant forall j :: 0 <= j < i ==>
                    rows[j] == if Redeemable(old(rows)[j], user, codeHash) then old(rows)[j].(used := true) else old(rows)[j]
        invariant forall j :: i <= j < |rows| ==> rows[j] == old(rows)[j]
        invariant affected > 0 <==> exists j :: 0 <= j < i && Redeemable(old(rows)[j], user, codeHash)
      {
        var row := rows[i];
        if row.user == user && row.hash == codeHash && !row.used {
          assert Redeemable(old(rows)[i], user, codeHash);
          rows := rows[i := row.(used := true)];
          affected := affected + 1;
        }
      }
      if i :| 0 <= i < |old(rows)| && Redeemable(old(rows)[i], user, codeHash) { assert old(rows)[i] in old(rows); }
      forall row | row in old(rows) && !Redeemable(row, user, codeHash) ensures row in rows {
        var i :| 0 <= i < |old(rows)| && old(rows)[i] == row;
        assert rows[i] == row;
      }
      ok := affected > 0;
    }

    /** The user has no code left, and everyone else's rows stay. */
    method DeleteBackupCodes(user: int)
      modifies this`rows
      ensures rows == Without(old(rows), user)
      ensures forall row :: row in rows <==> row in old(rows) && row.user != user
      ensures forall input :: !Validates(rows, hash, user, input)
    {
      var kept: seq<Row> := [];
      for i := 0 to |rows|
        invariant rows == old(rows) && kept == Without(rows[..i], user)
      {
        assert rows[..i + 1][..i] == rows[..i];
        if rows[i].user != user { kept := kept + [rows[i]]; }
      }
      assert rows[..|rows|] == rows;
      rows := kept;
      WithoutKeeps(old(rows), user);
      assert forall i :: 0 <= i < |rows| ==> rows[i] in rows;
    }
  }

  // ---- runs ----

  datatype Step =
    | Generate(user: int, randoms: seq<Random>)
    | Validate(user: int, input: string)
    | Disable(user: int)

  function Next(rows: seq<Row>, v: Variant, hash: Hash, step: Step): seq<Row> {
    match step
    case Generate(user, randoms) => Generated(rows, v, hash, user, randoms)
    case Validate(user, input) => Redeemed(rows, hash, user, input)
    case Disable(user) => Without(rows, user)
  }

  function Run(rows: seq<Row>, v: Variant, hash: Hash, steps: seq<Step>): seq<Row> {
    if steps == [] then rows
    else Next(Run(rows, v, hash, steps[..|steps| - 1]), v, hash, steps[|steps| - 1])
  }

  lemma {:induction false} WithoutKeeps(rows: seq<Row>, user: int)
    ensures forall row :: row in Without(rows, user) <==> row in rows && row.user != user
  {
    if rows != [] { WithoutKeeps(rows[..|rows| - 1], user); }
  }

  ghost predicate AllDashed(rows: seq<Row>, hash: Hash) {
    forall row :: row in rows ==> exists random: Random :: row.hash == hash(Shown(random))
  }

  lemma NewRowsAreDashed(hash: Hash, user: int, randoms: seq<Random>)
    ensures AllDashed(NewRows(AsWritten, hash, user, randoms), hash)
  {
    var added := NewRows(AsWritten, hash, user, randoms);
    forall row | row in added ensures exists random: Random :: row.hash == hash(Shown(random)) {
      var i :| 0 <= i < |added| && added[i] == row;
      assert added[i] == Row(user, hash(Stored(AsWritten, Shown(randoms[i]))), false);
      assert row.hash == hash(Shown(randoms[i]));
    }
  }

  lemma {:induction false} StoredWithDashes(hash: Hash, steps: seq<Step>)
    ensures AllDashed(Run([], AsWritten, hash, steps), hash)
  {
    if steps != [] {
      var rows := Run([], AsWritten, hash, steps[..|steps| - 1]);
      StoredWithDashes(hash, steps[..|steps| - 1]);
      match steps[|steps| - 1]
      case Generate(user, randoms) =>
        WithoutKeeps(rows, user);
        NewRowsAreDashed(hash, user, randoms);
      case Validate(user, input) =>
        forall row | row in Redeemed(rows, hash, user, input)
          ensures exists random: Random :: row.hash == hash(Shown(random))
        {
          var i :| 0 <= i < |rows| && Redeemed(rows, hash, user, input)[i] == row;
          assert rows[i] in rows && rows[i].hash == row.hash;
        }
      case Disable(user) => WithoutKeeps(rows, user);
    }
  }

  /** As written, no run ever reaches a state in which any input validates for any user. */
  lemma NoCodeEverValidatesAsWritten(hash: Hash, steps: seq<Step>, user: int, input: string)
    requires Injective(hash)
    ensures !Validates(Run([], AsWritten, hash, steps), hash, user, input)
  {
    var rows := Run([], AsWritten, hash, steps);
    StoredWithDashes(hash, steps);
    forall i | 0 <= i < |rows| ensures !Redeemable(rows[i], user, hash(RemoveDashes(input))) {
      assert rows[i] in rows;
      var random: Random :| rows[i].hash == hash(Shown(random));
      assert Shown(random)[4] == '-';
    }
  }

  // ---- corrected ----

  /** The normal forms a user may still redeem. */
  type Ledger = map<int, set<string>>

  function NormalForms(randoms: seq<Random>): set<string> {
    set i | 0 <= i < |randoms| :: Characters(randoms[i])
  }

  function Left(l: Ledger, user: int): set<string> {
    if user in l then l[user] else {}
  }

  function Record(l: Ledger, step: Step): Ledger {
    match step
    case Generate(user, randoms) => l[user := NormalForms(randoms)]
    case Validate(user, input) => l[user := Left(l, user) - {RemoveDashes(input)}]
    case Disable(user) => l - {user}
  }

  function RunLedger(l: Ledger, steps: seq<Step>): Ledger {
    if steps == [] then l else Record(RunLedger(l, steps[..|steps| - 1]), steps[|steps| - 1])
  }

  ghost predicate Stands(rows: seq<Row>, l: Ledger, hash: Hash) {
    forall user, form :: form in Left(l, user) <==> Row(user, hash(form), false) in rows
  }

  lemma GenerateStands(rows: seq<Row>, l: Ledger, hash: Hash, user: int, randoms: seq<Random>)
    requires Injective(hash) && Stands(rows, l, hash)
    ensures Stands(Generated(rows, Corrected, hash, user, randoms), Record(l, Generate(user, randoms)), hash)
  {
    WithoutKeeps(rows, user);
    var added := NewRows(Corrected, hash, user, randoms);
    forall i | 0 <= i < |randoms| ensures added[i] == Row(user, hash(Characters(randoms[i])), false) {
      EitherSpelling(randoms[i]);
      assert added[i] == Row(user, hash(RemoveDashes(Shown(randoms[i]))), false);
    }
    forall form ensures form in NormalForms(randoms) <==> Row(user, hash(form), false) in added {
      if form in NormalForms(randoms) {
        var i :| 0 <= i < |randoms| && Characters(randoms[i]) == form;
        assert added[i] == Row(user, hash(form), false);
      }
      if Row(user, hash(form), false) in added {
        var i :| 0 <= i < |added| && added[i] == Row(user, hash(form), false);
        assert form == Characters(randoms[i]);
      }
    }
    var rows' := Generated(rows, Corrected, hash, user, randoms);
    var l' := Record(l, Generate(user, randoms));
    forall u, form ensures form in Left(l', u) <==> Row(u, hash(form), false) in rows' {
      assert form in Left(l, u) <==> Row(u, hash(form), false) in rows;
    }
  }

  lemma ValidateStands(rows: seq<Row>, l: Ledger, hash: Hash, user: int, input: string)
    requires Injective(hash) && Stands(rows, l, hash)
    ensures Stands(Redeemed(rows, hash, user, input), Record(l, Validate(user, input)), hash)
  {
    var rows' := Redeemed(rows, hash, user, input);
    var l' := Record(l, Validate(user, input));
    forall u, form ensures form in Left(l', u) <==> Row(u, hash(form), false) in rows' {
      var row := Row(u, hash(form), false);
      assert form in Left(l, u) <==> row in rows;
      if row in rows && !Redeemable(row, user, hash(RemoveDashes(input))) {
        var i :| 0 <= i < |rows| && rows[i] == row;
        assert rows'[i] == row;
      }
    }
  }

  lemma {:induction false} RunStands(hash: Hash, steps: seq<Step>)
    requires Injective(hash)
    ensures Stands(Run([], Corrected, hash, steps), RunLedger(map[], steps), hash)
  {
    if steps != [] {
      var before := steps[..|steps| - 1];
      var rows := Run([], Corrected, hash, before);
      RunStands(hash, before);
      match steps[|steps| - 1]
      case Generate(user, randoms) => GenerateStands(rows, RunLedger(map[], before), hash, user, randoms);
      case Validate(user, input) => ValidateStands(rows, RunLedger(map[], before), hash, user, input);
      case Disable(user) => DisableStands(rows, RunLedger(map[], before), hash, user);
    }
  }

  lemma DisableStands(rows: seq<Row>, l: Ledger, hash: Hash, user: int)
    requires Stands(rows, l, hash)
    ensures Stands(Without(rows, user), l - {user}, hash)
  {
    WithoutKeeps(rows, user);
    forall u, form ensures form in Left(l - {user}, u) <==> Row(u, hash(form), false) in Without(rows, user) {
      assert form in Left(l, u) <==> Row(u, hash(form), false) in rows;
    }
  }

  /** The step redeems what the user typed for this normal form. */
  predicate Spends(step: Step, user: int, form: string) {
    step.Validate? && step.user == user && RemoveDashes(step.input) == form
  }

  predicate Concerns(step: Step, user: int) {
    step.user == user && !step.Validate?
  }

  lemma {:induction false} LeftAfter(l: Ledger, user: int, after: seq<Step>, form: string)
    requires forall i :: 0 <= i < |after| ==> !Concerns(after[i], user)
    ensures form in Left(RunLedger(l, after), user) <==>
            && form in Left(l, user)
            && forall i :: 0 <= i < |after| ==> !Spends(after[i], user, form)
  {
    if after != [] {
      var before := after[..|after| - 1];
      LeftAfter(l, user, before, form);
      assert forall i :: 0 <= i < |before| ==> before[i] == after[i];
    }
  }

  lemma {:induction false} LedgerAppends(l: Ledger, a: seq<Step>, b: seq<Step>)
    ensures RunLedger(l, a + b) == RunLedger(RunLedger(l, a), b)
    decreases |b|
  {
    if b == [] {
      assert a + b == a;
    } else {
      assert (a + b)[..|a + b| - 1] == a + b[..|b| - 1];
      LedgerAppends(l, a, b[..|b| - 1]);
    }
  }

  /** Corrected, an input validates exactly when it spells one of the user's latest codes and nothing that spells the
      same code was validated since: each code works once. */
  lemma EachCodeValidatesOnceWhenCorrected(hash: Hash, before: seq<Step>, user: int, randoms: seq<Random>,
                                           after: seq<Step>, input: string)
    requires Injective(hash)
    requires forall i :: 0 <= i < |after| ==> !Concerns(after[i], user)
    ensures Validates(Run([], Corrected, hash, before + [Generate(user, randoms)] + after), hash, user, input) <==>
            && (exists i :: 0 <= i < |randoms| && RemoveDashes(input) == Characters(randoms[i]))
            && forall i :: 0 <= i < |after| ==> !Spends(after[i], user, RemoveDashes(input))
  {
    var steps := before + [Generate(user, randoms)] + after;
    var rows := Run([], Corrected, hash, steps);
    var form := RemoveDashes(input);
    RunStands(hash, steps);
    LedgerAppends(map[], before + [Generate(user, randoms)], after);
    var l := RunLedger(map[], before + [Generate(user, randoms)]);
    assert (before + [Generate(user, randoms)])[..|before|] == before;
    assert Left(l, user) == NormalForms(randoms);
    LeftAfter(l, user, after, form);
    assert form in Left(RunLedger(map[], steps), user) <==> Row(user, hash(form), false) in rows;
    if Row(user, hash(form), false) in rows {
      var i :| 0 <= i < |rows| && rows[i] == Row(user, hash(form), false);
      assert Redeemable(rows[i], user, hash(form));
    }
    if Validates(rows, hash, user, input) {
      var i :| 0 <= i < |rows| && Redeemable(rows[i], user, hash(form));
      assert rows[i] == Row(user, hash(form), false);
    }
  }
}
