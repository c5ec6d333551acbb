/** Overlapping login handlers on one user row. */
module LockoutInterleaved {
  import opened Prelude
  import opened Lockout

  // Where a handler stands: password not compared yet, wrong and not counted yet, counted past the
  // limit and about to lock, right and about to reset the counter.
  datatype Phase = Verifying | Failing | Locking | Succeeding

  // `evaluated` counts wrong passwords compared; `atLock` holds how many handlers were in flight when the lock landed;
  // `replies` are the answers given.
  datatype State = State(row: Row, handlers: map<nat, Phase>, evaluated: nat, atLock: Option<nat>,
                         replies: seq<(nat, Reply)>)

  datatype Step =
    | Begin(h: nat)
    | Compare(h: nat, correct: bool)
    | Increment(h: nat)
    | Lock(h: nat)
    | Reset(h: nat)
    | AdminLock
    | AdminUnlock
    | SetActive(active: bool)

  predicate At(s: State, h: nat, p: Phase) {
    h in s.handlers && s.handlers[h] == p
  }

  function LockRow(s: State): State {
    s.(row := s.row.(locked := true), atLock := if s.row.locked then s.atLock else Some(|s.handlers|))
  }

  function Answer(s: State, h: nat, reply: Reply): State {
    s.(handlers := s.handlers - {h}, replies := s.replies + [(h, reply)])
  }

  function DoBegin(s: State, h: nat): State {
    if h in s.handlers then s
    else if !s.row.active then Answer(s, h, Deactivated)
    else if s.row.locked then Answer(s, h, AccountLocked)
    else s.(handlers := s.handlers[h := Verifying])
  }

  function DoIncrement(s: State, h: nat): State {
    var row := s.row.(failures := s.row.failures + 1);
    if row.failures >= MAX_LOGIN_ATTEMPTS then s.(row := row, handlers := s.handlers[h := Locking])
    else Answer(s.(row := row), h, WrongPassword(MAX_LOGIN_ATTEMPTS - row.failures))
  }

  function DoCompare(s: State, h: nat, correct: bool): State {
    if correct then s.(handlers := s.handlers[h := Succeeding])
    else s.(handlers := s.handlers[h := Failing], evaluated := s.evaluated + 1)
  }

  function Next(s: State, step: Step): State {
    match step
    case Begin(h) => DoBegin(s, h)
    case Compare(h, correct) => if At(s, h, Verifying) then DoCompare(s, h, correct) else s
    case Increment(h) => if At(s, h, Failing) then DoIncrement(s, h) else s
    case Lock(h) => if At(s, h, Locking) then Answer(LockRow(s), h, LockedOut) else s
    case Reset(h) => if At(s, h, Succeeding) then Answer(s.(row := s.row.(failures := 0)), h, LoggedIn) else s
    case AdminLock => LockRow(s)
    case AdminUnlock => s.(row := Unlocked(s.row), atLock := None)
    case SetActive(active) => s.(row := s.row.(active := active))
  }

  function Run(s: State, steps: seq<Step>): State
    decreases |steps|
  {
    if steps == [] then s else Run(Next(s, steps[0]), steps[1..])
  }

  // ---- five failures are always about to lock ----

  ghost predicate LockComing(s: State) {
    exists h :: At(s, h, Locking)
  }

  ghost predicate Covered(s: State) {
    s.row.failures >= MAX_LOGIN_ATTEMPTS && !s.row.locked ==> LockComing(s)
  }

  lemma CoveredNext(s: State, step: Step)
    requires Covered(s)
    ensures Covered(Next(s, step))
  {
    var s' := Next(s, step);
    if step.Increment? && At(s, step.h, Failing) && s'.row.failures >= MAX_LOGIN_ATTEMPTS {
      assert At(s', step.h, Locking);
    } else if LockComing(s) {
      var h :| At(s, h, Locking);
      if !(step.Lock? && step.h == h) { assert At(s', h, Locking); }
    }
  }

  /** From any row with fewer than five failures, in every interleaving: five or more failures on an unlocked row
      mean some handler is between its increment and its lock. */
  lemma {:induction false} FiveFailuresAreBeingLocked(s: State, steps: seq<Step>)
    requires Covered(s)
    ensures Covered(Run(s, steps))
    decreases |steps|
  {
    if steps != [] {
      CoveredNext(s, steps[0]);
      FiveFailuresAreBeingLocked(Next(s, steps[0]), steps[1..]);
    }
  }

  // ---- how many wrong passwords get compared ----

  function In(handlers: map<nat, Phase>, p: Phase): set<nat> {
    set h | h in handlers && handlers[h] == p
  }

  function Guilty(handlers: map<nat, Phase>): nat {
    |In(handlers, Failing)| + |In(handlers, Locking)|
  }

  /** No step of the run resets the failure count. */
  predicate NoReset(steps: seq<Step>) {
    forall i :: 0 <= i < |steps| ==> !steps[i].Reset? && !steps[i].AdminUnlock?
  }

  function Min(a: nat, b: nat): nat { if a < b then a else b }

  predicate Budget(s: State) {
    if s.row.locked then
      s.atLock.Some? && s.evaluated + |In(s.handlers, Verifying)| <= MAX_LOGIN_ATTEMPTS - 1 + s.atLock.value
    else s.evaluated <= Min(s.row.failures, MAX_LOGIN_ATTEMPTS - 1) + Guilty(s.handlers)
  }

  lemma Moved(handlers: map<nat, Phase>, h: nat, p: Phase)
    ensures forall q :: q != p && (h in handlers ==> handlers[h] != q) ==> In(handlers[h := p], q) == In(handlers, q)
    ensures In(handlers[h := p], p) == In(handlers, p) + {h}
    ensures h in handlers && handlers[h] != p ==> In(handlers[h := p], handlers[h]) == In(handlers, handlers[h]) - {h}
  {
    assert forall q :: q != p && (h in handlers ==> handlers[h] != q) ==> In(handlers[h := p], q) == In(handlers, q);
  }

  lemma Left(handlers: map<nat, Phase>, h: nat)
    requires h in handlers
    ensures forall q :: q != handlers[h] ==> In(handlers - {h}, q) == In(handlers, q)
    ensures In(handlers - {h}, handlers[h]) == In(handlers, handlers[h]) - {h}
  {
    assert forall q :: q != handlers[h] ==> In(handlers - {h}, q) == In(handlers, q);
  }

  lemma PhasesAddUp(handlers: map<nat, Phase>)
    ensures |In(handlers, Verifying)| + Guilty(handlers) <= |handlers|
  {
    var v, f, l := In(handlers, Verifying), In(handlers, Failing), In(handlers, Locking);
    assert v + f + l <= handlers.Keys;
    SubsetSize(v + f + l, handlers.Keys);
    assert v !! f && (v + f) !! l;
    assert |v + f + l| == |v| + |f| + |l|;
    assert |handlers.Keys| == |handlers|;
  }

  lemma BudgetBegin(s: State, h: nat)
    requires Budget(s) && h !in s.handlers && !s.row.locked
    ensures Budget(s.(handlers := s.handlers[h := Verifying]))
  {
    Moved(s.handlers, h, Verifying);
  }

  lemma BudgetCompare(s: State, h: nat, correct: bool)
    requires Budget(s) && At(s, h, Verifying)
    ensures Budget(DoCompare(s, h, correct))
  {
    Moved(s.handlers, h, if correct then Succeeding else Failing);
    assert h in In(s.handlers, Verifying);
    if !correct {
      assert h !in In(s.handlers, Failing);
    }
  }

  lemma BudgetIncrement(s: State, h: nat)
    requires Budget(s) && At(s, h, Failing)
    ensures Budget(DoIncrement(s, h))
  {
    assert h in In(s.handlers, Failing) && h !in In(s.handlers, Locking);
    if s.row.failures + 1 >= MAX_LOGIN_ATTEMPTS {
      Moved(s.handlers, h, Locking);
    } else {
      Left(s.handlers, h);
    }
  }

  lemma BudgetLockRow(s: State)
    requires Budget(s)
    ensures Budget(LockRow(s))
  {
    PhasesAddUp(s.handlers);
  }

  lemma BudgetNext(s: State, step: Step)
    requires Budget(s) && !step.Reset? && !step.AdminUnlock?
    ensures Budget(Next(s, step))
  {
    match step
    case Begin(h) =>
      if h !in s.handlers {
        if s.row.active && !s.row.locked { BudgetBegin(s, h); } else { assert s.handlers - {h} == s.handlers; }
      }
    case Compare(h, correct) => if At(s, h, Verifying) { BudgetCompare(s, h, correct); }
    case Increment(h) => if At(s, h, Failing) { BudgetIncrement(s, h); }
    case Lock(h) =>
      if At(s, h, Locking) {
        BudgetLockRow(s);
        Left(s.handlers, h);
      }
    case AdminLock => BudgetLockRow(s);
    case SetActive(_) =>
  }

  lemma {:induction false} BudgetRun(s: State, steps: seq<Step>)
    requires Budget(s) && NoReset(steps)
    ensures Budget(Run(s, steps))
    decreases |steps|
  {
    if steps != [] {
      BudgetNext(s, steps[0]);
      BudgetRun(Next(s, steps[0]), steps[1..]);
    }
  }

  /** From a freshly reset row, with any handlers already in flight and any more arriving, until the next reset:
      at most 4 + k wrong passwords are compared, where k handlers were in flight when the lock landed
      (or, while it has not, are in flight now). */
  lemma GuessesAreBounded(row: Row, handlers: map<nat, Phase>, steps: seq<Step>)
    requires !row.locked && row.failures == 0 && NoReset(steps)
    ensures var s := Run(State(row, handlers, 0, None, []), steps);
            && (s.row.locked ==> s.atLock.Some? && s.evaluated <= MAX_LOGIN_ATTEMPTS - 1 + s.atLock.value)
            && (!s.row.locked ==> s.evaluated <= MAX_LOGIN_ATTEMPTS - 1 + |s.handlers|)
  {
    BudgetRun(State(row, handlers, 0, None, []), steps);
    PhasesAddUp(Run(State(row, handlers, 0, None, []), steps).handlers);
  }

  /** Only UnlockAccount lifts a lock, whatever handlers are still in flight. */
  lemma {:induction false} LockHoldsUntilUnlocked(s: State, steps: seq<Step>)
    requires s.row.locked && forall i :: 0 <= i < |steps| ==> !steps[i].AdminUnlock?
    ensures Run(s, steps).row.locked
    decreases |steps|
  {
    if steps != [] { LockHoldsUntilUnlocked(Next(s, steps[0]), steps[1..]); }
  }

  /** A handler nothing overlaps changes the row and answers as one call of Attempt. */
  lemma AloneIsAttempt(s: State, h: nat, correct: bool)
    requires h !in s.handlers
    ensures var end := Run(s, [Begin(h), Compare(h, correct), Increment(h), Lock(h), Reset(h)]);
            && end.row == Attempt(s.row, correct).0
            && end.replies == s.replies + [(h, Attempt(s.row, correct).1)]
            && end.handlers == s.handlers
  {
    RunFive(s, Begin(h), Compare(h, correct), Increment(h), Lock(h), Reset(h));
    var s1 := Next(s, Begin(h));
    if s.row.active && !s.row.locked {
      AfterBegin(s1, h, correct);
      assert s1.handlers - {h} == s.handlers;
    } else {
      assert s1.handlers == s.handlers;
    }
  }

  lemma RunFive(s: State, a: Step, b: Step, c: Step, d: Step, e: Step)
    ensures Run(s, [a, b, c, d, e]) == Next(Next(Next(Next(Next(s, a), b), c), d), e)
  {
    var t := Next(Next(s, a), b);
    assert [c, d, e][1..] == [d, e] && [d, e][1..] == [e] && [e][1..] == [];
    assert Run(Next(Next(Next(t, c), d), e), []) == Next(Next(Next(t, c), d), e);
    assert Run(Next(Next(t, c), d), [e]) == Next(Next(Next(t, c), d), e);
    assert Run(Next(t, c), [d, e]) == Next(Next(Next(t, c), d), e);
    assert Run(t, [c, d, e]) == Next(Next(Next(t, c), d), e);
    assert [a, b, c, d, e][1..] == [b, c, d, e] && [b, c, d, e][1..] == [c, d, e];
    assert Run(Next(s, a), [b, c, d, e]) == Run(t, [c, d, e]);
  }

  lemma AfterBegin(s: State, h: nat, correct: bool)
    requires At(s, h, Verifying) && s.row.active && !s.row.locked
    ensures var end := Next(Next(Next(Next(s, Compare(h, correct)), Increment(h)), Lock(h)), Reset(h));
            && end.row == Attempt(s.row, correct).0
            && end.replies == s.replies + [(h, Attempt(s.row, correct).1)]
            && end.handlers == s.handlers - {h}
  {
    var t := Next(s, Compare(h, correct));
    if correct {
      assert Next(Next(t, Increment(h)), Lock(h)) == t;
      assert t.handlers - {h} == s.handlers - {h};
    } else {
      var u := Next(t, Increment(h));
      assert u.handlers - {h} == s.handlers - {h};
    }
  }

  // ---- who is logged in ----

  lemma {:induction false} RunLast(s: State, before: seq<Step>, last: Step)
    ensures Run(s, before + [last]) == Next(Run(s, before), last)
    decreases |before|
  {
    if before == [] {
      assert [] + [last] == [last] && [last][1..] == [];
      assert Run(Next(s, last), []) == Next(s, last);
    } else {
      assert (before + [last])[1..] == before[1..] + [last];
      RunLast(Next(s, before[0]), before[1..], last);
    }
  }

  /** At step `a` the handler began on an active, unlocked row. */
  ghost predicate AdmittedAt(s: State, steps: seq<Step>, h: nat, a: nat) {
    && a < |steps| && steps[a] == Begin(h)
    && Run(s, steps[..a]).row.active && !Run(s, steps[..a]).row.locked
  }

  /** At step `b` its password was compared and was right. */
  ghost predicate RightAt(s: State, steps: seq<Step>, h: nat, b: nat) {
    b < |steps| && steps[b] == Compare(h, true) && At(Run(s, steps[..b]), h, Verifying)
  }

  ghost predicate WasAdmitted(s: State, steps: seq<Step>, h: nat) {
    exists a: nat :: AdmittedAt(s, steps, h, a)
  }

  ghost predicate WasRight(s: State, steps: seq<Step>, h: nat) {
    exists a: nat, b: nat :: a < b && AdmittedAt(s, steps, h, a) && RightAt(s, steps, h, b)
  }

  /** Since `n` answers had been given, `h` has been answered LoggedIn. */
  ghost predicate LoggedInSince(s: State, n: nat, h: nat) {
    exists i :: n <= i < |s.replies| && s.replies[i] == (h, LoggedIn)
  }

  lemma EarlierStays(s: State, before: seq<Step>, last: Step, h: nat)
    ensures WasAdmitted(s, before, h) ==> WasAdmitted(s, before + [last], h)
    ensures WasRight(s, before, h) ==> WasRight(s, before + [last], h)
  {
    var steps := before + [last];
    assert forall a :: 0 <= a <= |before| ==> steps[..a] == before[..a];
    if a: nat :| AdmittedAt(s, before, h, a) { assert AdmittedAt(s, steps, h, a); }
    if a: nat, b: nat :| a < b && AdmittedAt(s, before, h, a) && RightAt(s, before, h, b) {
      assert AdmittedAt(s, steps, h, a) && RightAt(s, steps, h, b);
    }
  }

  /** How a handler comes to each stage. */
  lemma StageNext(s: State, step: Step, h: nat)
    ensures var s' := Next(s, step);
            && (At(s', h, Verifying) && !At(s, h, Verifying) ==> step == Begin(h) && s.row.active && !s.row.locked)
            && (At(s', h, Succeeding) && !At(s, h, Succeeding) ==> step == Compare(h, true) && At(s, h, Verifying))
            && (s'.replies == s.replies || exists r :: s'.replies == s.replies + [r] && (r == (h, LoggedIn) ==> At(s, h, Succeeding)))
  {
    var s' := Next(s, step);
    if s'.replies != s.replies {
      assert s'.replies == s.replies + [s'.replies[|s.replies|]];
    }
  }

  lemma {:induction false} Stages(s: State, steps: seq<Step>, h: nat)
    requires h !in s.handlers
    ensures var s' := Run(s, steps);
            && (At(s', h, Verifying) ==> WasAdmitted(s, steps, h))
            && (At(s', h, Succeeding) ==> WasRight(s, steps, h))
            && |s.replies| <= |s'.replies|
            && (LoggedInSince(s', |s.replies|, h) ==> WasRight(s, steps, h))
    decreases |steps|
  {
    if steps != [] {
      var before, last := steps[..|steps| - 1], steps[|steps| - 1];
      var mid := Run(s, before);
      assert steps == before + [last];
      Stages(s, before, h);
      RunLast(s, before, last);
      StageNext(mid, last, h);
      EarlierStays(s, before, last, h);
      assert steps[..|before|] == before;
      if last == Begin(h) && mid.row.active && !mid.row.locked { assert AdmittedAt(s, steps, h, |before|); }
      if last == Compare(h, true) && At(mid, h, Verifying) {
        var a: nat :| AdmittedAt(s, before, h, a);
        assert AdmittedAt(s, steps, h, a) by { assert steps[..a] == before[..a]; }
        assert RightAt(s, steps, h, |before|);
      }
      LoggedInFrom(mid, last, |s.replies|, h);
    }
  }

  lemma LoggedInFrom(s: State, step: Step, n: nat, h: nat)
    requires n <= |s.replies|
    ensures n <= |Next(s, step).replies|
    ensures LoggedInSince(Next(s, step), n, h) ==> LoggedInSince(s, n, h) || At(s, h, Succeeding)
  {
    StageNext(s, step, h);
    var s' := Next(s, step);
    if i :| n <= i < |s'.replies| && s'.replies[i] == (h, LoggedIn) {
      if i < |s.replies| { assert s.replies[i] == (h, LoggedIn); }
    }
  }

  /** In every interleaving LoggedIn is answered only to a handler that began on an active, unlocked row and whose
      password was then compared and was right. */
  lemma LoggedInWasAdmitted(row: Row, steps: seq<Step>, i: nat, h: nat)
    requires var s := Run(State(row, map[], 0, None, []), steps); i < |s.replies| && s.replies[i] == (h, LoggedIn)
    ensures WasRight(State(row, map[], 0, None, []), steps, h)
  {
    var s := State(row, map[], 0, None, []);
    assert LoggedInSince(Run(s, steps), 0, h);
    Stages(s, steps, h);
  }

  lemma {:induction false} LockedThroughout(s: State, steps: seq<Step>, a: nat)
    requires s.row.locked && a <= |steps| && forall i :: 0 <= i < |steps| ==> !steps[i].AdminUnlock?
    ensures Run(s, steps[..a]).row.locked
  {
    LockHoldsUntilUnlocked(s, steps[..a]);
  }

  /** From every state with a locked row, until an administrator unlocks it: a handler that begins is refused at once,
      and no handler not in flight already is ever answered LoggedIn. */
  lemma NobodyLogsInWhileLocked(s: State, h: nat, steps: seq<Step>)
    requires s.row.locked && h !in s.handlers && forall i :: 0 <= i < |steps| ==> !steps[i].AdminUnlock?
    ensures Next(s, Begin(h)).replies == s.replies + [(h, if s.row.active then AccountLocked else Deactivated)]
    ensures Next(s, Begin(h)).row == s.row && Next(s, Begin(h)).handlers == s.handlers
    ensures forall i :: |s.replies| <= i < |Run(s, steps).replies| ==> Run(s, steps).replies[i] != (h, LoggedIn)
  {
    assert s.handlers - {h} == s.handlers;
    Stages(s, steps, h);
    if LoggedInSince(Run(s, steps), |s.replies|, h) {
      var a: nat, b: nat :| a < b && AdmittedAt(s, steps, h, a) && RightAt(s, steps, h, b);
      LockedThroughout(s, steps, a);
      assert false;
    }
  }
}
