/** Login lockout: counting failures on a user row and locking it. */
module Lockout {
  import opened Prelude

  const MAX_LOGIN_ATTEMPTS: nat := 5

  datatype Row = Row(active: bool, locked: bool, failures: nat)

  datatype Reply =
    | InvalidCredentials          // no such user
    | Deactivated
    | AccountLocked
    | LockedOut                   // this failure locked the account
    | WrongPassword(remaining: int)
    | LoggedIn

  /** One undisturbed login attempt with a right or wrong password. */
  function Attempt(row: Row, correct: bool): (Row, Reply) {
    if !row.active then (row, Deactivated)
    else if row.locked then (row, AccountLocked)
    else if correct then (row.(failures := 0), LoggedIn)
    else if row.failures + 1 >= MAX_LOGIN_ATTEMPTS then (row.(failures := row.failures + 1, locked := true), LockedOut)
    else (row.(failures := row.failures + 1), WrongPassword(MAX_LOGIN_ATTEMPTS - (row.failures + 1)))
  }

  function Unlocked(row: Row): Row {
    row.(locked := false, failures := 0)
  }

  class UserRepository {
    var users: map<int, Row>

    method GetUser(id: int) returns (row: Option<Row>)
      ensures row == if id in users then Some(users[id]) else None
    {
      row := if id in users then Some(users[id]) else None;
    }

    /** The new count, or nothing when no row was updated. */
    method IncrementFailedAttempts(id: int) returns (count: Option<nat>)
      modifies this
      ensures id in old(users) ==>
                && users == old(users)[id := old(users)[id].(failures := old(users)[id].failures + 1)]
                && count == Some(users[id].failures)
      ensures id !in old(users) ==> users == old(users) && count == None
    {
      count := None;
      if id in users {
        users := users[id := users[id].(failures := users[id].failures + 1)];
        count := Some(users[id].failures);
      }
    }

    method ResetFailedAttempts(id: int)
      modifies this
      ensures users == if id in old(users) then old(users)[id := old(users)[id].(failures := 0)] else old(users)
    {
      if id in users { users := users[id := users[id].(failures := 0)]; }
    }

    method LockAccount(id: int)
      modifies this
      ensures users == if id in old(users) then old(users)[id := old(users)[id].(locked := true)] else old(users)
    {
      if id in users { users := users[id := users[id].(locked := true)]; }
    }

    method UnlockAccount(id: int)
      modifies this
      ensures users == if id in old(users) then old(users)[id := Row(old(users)[id].active, false, 0)] else old(users)
    {
      if id in users { users := users[id := users[id].(locked := false, failures := 0)]; }
    }
  }

  /** The handler with nothing between its statements: row and answer are those of one attempt, and which answer, and
      what becomes of the row, depends on the row's own fields. */
  method LoginHandler(repo: UserRepository, id: int, correct: bool) returns (reply: Reply)
    modifies repo
    ensures id !in old(repo.users) ==> repo.users == old(repo.users) && reply == InvalidCredentials
    ensures id in old(repo.users) ==>
              && repo.users == old(repo.users)[id := Attempt(old(repo.users)[id], correct).0]
              && reply == Attempt(old(repo.users)[id], correct).1
    ensures reply == InvalidCredentials <==> id !in old(repo.users)
    ensures reply == Deactivated <==> id in old(repo.users) && !old(repo.users)[id].active
    ensures reply == AccountLocked <==>
              id in old(repo.users) && old(repo.users)[id].active && old(repo.users)[id].locked
    ensures reply == LoggedIn <==>
              id in old(repo.users) && old(repo.users)[id].active && !old(repo.users)[id].locked && correct
    ensures reply == LockedOut <==>
              && id in old(repo.users) && old(repo.users)[id].active && !old(repo.users)[id].locked
              && !correct && old(repo.users)[id].failures >= 4
    ensures reply.WrongPassword? <==>
              && id in old(repo.users) && old(repo.users)[id].active && !old(repo.users)[id].locked
              && !correct && old(repo.users)[id].failures < 4
    ensures reply.WrongPassword? ==> reply.remaining == 4 - old(repo.users)[id].failures
    ensures repo.users == match reply
              case LoggedIn => old(repo.users)[id := Row(true, false, 0)]
              case LockedOut => old(repo.users)[id := Row(true, true, old(repo.users)[id].failures + 1)]
              case WrongPassword(_) => old(repo.users)[id := Row(true, false, old(repo.users)[id].failures + 1)]
              case _ => old(repo.users)
  {
    var found := repo.GetUser(id);
    if found.None? { return InvalidCredentials; }
    if !found.value.active { return Deactivated; }
    if found.value.locked { return AccountLocked; }
    if !correct {
      var count := repo.IncrementFailedAttempts(id);
      var failedCount := if count.Some? then count.value else 0;
      if failedCount >= MAX_LOGIN_ATTEMPTS {
        repo.LockAccount(id);
        return LockedOut;
      }
      return WrongPassword(MAX_LOGIN_ATTEMPTS - failedCount);
    }
    repo.ResetFailedAttempts(id);
    return LoggedIn;
  }

  // ---- attempts one after another ----

  function After(row: Row, attempts: seq<bool>): Row {
    if attempts == [] then row
    else Attempt(After(row, attempts[..|attempts| - 1]), attempts[|attempts| - 1]).0
  }

  /** The attempts from `i` on begin with five wrong passwords in a row. */
  predicate FiveWrong(attempts: seq<bool>, i: nat) {
    i + MAX_LOGIN_ATTEMPTS <= |attempts| && forall j :: i <= j < i + MAX_LOGIN_ATTEMPTS ==> !attempts[j]
  }

  /** How many wrong passwords the attempts end with. */
  function TrailingWrong(attempts: seq<bool>): nat {
    if attempts == [] || attempts[|attempts| - 1] then 0 else 1 + TrailingWrong(attempts[..|attempts| - 1])
  }

  lemma {:induction false} TrailingWrongIs(attempts: seq<bool>)
    ensures TrailingWrong(attempts) <= |attempts|
    ensures forall j :: |attempts| - TrailingWrong(attempts) <= j < |attempts| ==> !attempts[j]
    ensures TrailingWrong(attempts) < |attempts| ==> attempts[|attempts| - TrailingWrong(attempts) - 1]
  {
    if attempts != [] { TrailingWrongIs(attempts[..|attempts| - 1]); }
  }

  lemma {:induction false} CountsTrailing(attempts: seq<bool>)
    ensures var row := After(Row(true, false, 0), attempts);
            && row.active
            && (row.locked <==> exists i: nat :: FiveWrong(attempts, i))
            && (!row.locked ==> row.failures == TrailingWrong(attempts) < MAX_LOGIN_ATTEMPTS)
  {
    if attempts != [] {
      var before := attempts[..|attempts| - 1];
      CountsTrailing(before);
      TrailingWrongIs(attempts);
      if exists i: nat :: FiveWrong(before, i) {
        var i: nat :| FiveWrong(before, i);
        assert FiveWrong(attempts, i);
      } else if TrailingWrong(attempts) >= MAX_LOGIN_ATTEMPTS {
        assert FiveWrong(attempts, |attempts| - MAX_LOGIN_ATTEMPTS);
      } else {
        forall i: nat | FiveWrong(attempts, i) ensures false {
          if i + MAX_LOGIN_ATTEMPTS < |attempts| { assert FiveWrong(before, i); }
        }
      }
    }
  }

  /** Since its last unlock, an account is locked exactly when five wrong passwords came in a row. */
  lemma LockedExactlyAfterFiveFailures(row: Row, attempts: seq<bool>)
    requires row.active
    ensures After(Unlocked(row), attempts).locked <==> exists i: nat :: FiveWrong(attempts, i)
  {
    CountsTrailing(attempts);
  }
}
