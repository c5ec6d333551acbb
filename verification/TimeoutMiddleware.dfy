/** The timeout middleware: a handler goroutine and the timeout branch share a mutex and a flag. */
module TimeoutMiddleware {
  import opened Prelude

  datatype Thread = Handler | Timer

  // AsWritten is the repository's code. In Corrected the timeout branch also sets wroteHeader, and the
  // recover branch, which already holds the mutex, writes without locking it again.
  datatype Variant = AsWritten | Corrected

  datatype HandlerPhase =
    | Running
    | Entered(code: int)    // in WriteHeader or Write, mutex held, flag not tested yet
    | Leaving               // about to unlock
    | Panicked              // recovered, about to lock
    | Recovering            // mutex held, flag not tested yet
    | Stuck                 // holds the mutex and waits to lock it
    | Exiting               // about to unlock and close the channel
    | Returned

  datatype TimerPhase =
    | Waiting
    | Fired                 // the context is done, about to lock
    | Checking              // mutex held
    | Finished(byTimeout: bool)

  // `sent` lists the statuses forwarded to the underlying writer.
  datatype State = State(holder: Option<Thread>, wroteHeader: bool, sent: seq<(Thread, int)>,
                         handler: HandlerPhase, timer: TimerPhase)

  datatype Step =
    | CallWriteHeader(code: int)
    | CallWrite
    | Panic
    | Return
    | HandlerMoves
    | Fire
    | SeeDone
    | TimerMoves

  const Start: State := State(None, false, [], Running, Waiting)

  const OK: int := 200
  const INTERNAL_ERROR: int := 500
  const UNAVAILABLE: int := 503

  function Enter(s: State, code: int): State {
    if s.handler.Running? && s.holder.None? then s.(holder := Some(Handler), handler := Entered(code)) else s
  }

  function Forward(s: State, thread: Thread, code: int): State {
    s.(sent := s.sent + [(thread, code)])
  }

  function HandlerNext(v: Variant, s: State): State {
    match s.handler
    case Entered(code) =>
      if s.wroteHeader then s.(handler := Leaving)
      else Forward(s, Handler, code).(wroteHeader := true, handler := Leaving)
    case Leaving => s.(holder := None, handler := Running)
    case Panicked => if s.holder.None? then s.(holder := Some(Handler), handler := Recovering) else s
    case Recovering =>
      if s.wroteHeader then s.(handler := Exiting)
      else if v.AsWritten? then s.(handler := Stuck)
      else Forward(s, Handler, INTERNAL_ERROR).(wroteHeader := true, handler := Exiting)
    case Stuck => if s.holder.None? then s.(holder := Some(Handler), handler := Recovering) else s
    case Exiting => s.(holder := None, handler := Returned)
    case Running => s
    case Returned => s
  }

  function TimerNext(v: Variant, s: State): State {
    match s.timer
    case Fired => if s.holder.None? then s.(holder := Some(Timer), timer := Checking) else s
    case Checking =>
      var free := s.(holder := None, timer := Finished(true));
      if s.wroteHeader then free
      else Forward(free, Timer, UNAVAILABLE).(wroteHeader := v.Corrected?)
    case Waiting => s
    case Finished(_) => s
  }

  function Next(v: Variant, s: State, step: Step): State {
    match step
    case CallWriteHeader(code) => Enter(s, code)
    case CallWrite => Enter(s, OK)
    case Panic => if s.handler.Running? then s.(handler := Panicked) else s
    case Return => if s.handler.Running? then s.(handler := Returned) else s
    case HandlerMoves => HandlerNext(v, s)
    case Fire => if s.timer.Waiting? then s.(timer := Fired) else s
    case SeeDone => if s.timer.Waiting? && s.handler.Returned? then s.(timer := Finished(false)) else s
    case TimerMoves => TimerNext(v, s)
  }

  function Run(v: Variant, s: State, steps: seq<Step>): State
    decreases |steps|
  {
    if steps == [] then s else Run(v, Next(v, s, steps[0]), steps[1..])
  }

  // ---- statuses ----

  predicate FromHandler(sent: seq<(Thread, int)>) {
    |sent| == 1 && sent[0].0 == Handler
  }

  predicate FromTimer(sent: seq<(Thread, int)>) {
    sent == [(Timer, UNAVAILABLE)]
  }

  predicate TimerThenHandler(sent: seq<(Thread, int)>) {
    |sent| == 2 && sent[0] == (Timer, UNAVAILABLE) && sent[1].0 == Handler
  }

  predicate HandlerHolds(p: HandlerPhase) {
    p.Entered? || p.Leaving? || p.Recovering? || p.Stuck? || p.Exiting?
  }

  predicate Inv(v: Variant, s: State) {
    && (s.holder == Some(Handler) <==> HandlerHolds(s.handler))
    && (s.holder == Some(Timer) <==> s.timer.Checking?)
    && (s.handler.Stuck? ==> v.AsWritten? && !s.wroteHeader)
    && (s.sent == [] || FromHandler(s.sent) || FromTimer(s.sent) || (v.AsWritten? && TimerThenHandler(s.sent)))
    && (s.wroteHeader <==> FromHandler(s.sent) || TimerThenHandler(s.sent) || (v.Corrected? && FromTimer(s.sent)))
    && (FromTimer(s.sent) || TimerThenHandler(s.sent) ==> s.timer == Finished(true))
    && (s.timer == Finished(true) ==> s.sent != [])
  }

  lemma {:induction false} InvRun(v: Variant, s: State, steps: seq<Step>)
    requires Inv(v, s)
    ensures Inv(v, Run(v, s, steps))
    decreases |steps|
  {
    if steps != [] {
      InvNext(v, s, steps[0]);
      InvRun(v, Next(v, s, steps[0]), steps[1..]);
    }
  }

  lemma InvNext(v: Variant, s: State, step: Step)
    requires Inv(v, s)
    ensures Inv(v, Next(v, s, step))
  {
    match step
    case HandlerMoves => InvHandler(v, s);
    case TimerMoves => InvTimer(v, s);
    case _ =>
  }

  lemma InvHandler(v: Variant, s: State)
    requires Inv(v, s)
    ensures Inv(v, HandlerNext(v, s))
  {}

  lemma InvTimer(v: Variant, s: State)
    requires Inv(v, s)
    ensures Inv(v, TimerNext(v, s))
  {}

  /** As written, in every interleaving: the 503 goes out only before any handler status, and never after one;
      at most one handler status and one 503 go out; and a timeout that ran to its end has left an answer. */
  lemma StatusesAsWritten(steps: seq<Step>)
    ensures var s := Run(AsWritten, Start, steps);
            && (s.sent == [] || FromHandler(s.sent) || FromTimer(s.sent) || TimerThenHandler(s.sent))
            && (s.timer == Finished(true) ==> s.sent != [])
            && (|s.sent| == 2 <==> s.wroteHeader && (Timer, UNAVAILABLE) in s.sent)
  {
    InvRun(AsWritten, Start, steps);
  }

  /** Once a handler status has been forwarded the timeout branch never sends, in any continuation. */
  lemma NothingAfterTheHandler(before: seq<Step>, after: seq<Step>)
    requires Run(AsWritten, Start, before).wroteHeader
    ensures Run(AsWritten, Run(AsWritten, Start, before), after).sent == Run(AsWritten, Start, before).sent
  {
    InvRun(AsWritten, Start, before);
    SentIsFinal(Run(AsWritten, Start, before), after);
  }

  lemma {:induction false} SentIsFinal(s: State, steps: seq<Step>)
    requires s.wroteHeader
    ensures Run(AsWritten, s, steps).sent == s.sent && Run(AsWritten, s, steps).wroteHeader
    decreases |steps|
  {
    if steps != [] { SentIsFinal(Next(AsWritten, s, steps[0]), steps[1..]); }
  }

  /** With the flag set by the timeout branch as well, no interleaving forwards two statuses. */
  lemma OneStatusWhenCorrected(steps: seq<Step>)
    ensures |Run(Corrected, Start, steps).sent| <= 1
    ensures Run(Corrected, Start, steps).timer == Finished(true) ==> |Run(Corrected, Start, steps).sent| == 1
  {
    InvRun(Corrected, Start, steps);
  }

  /** The guard of the branch that fails: the handler forwards its first status after the timeout branch has ended. */
  predicate AnswersLate(s: State, step: Step) {
    step.HandlerMoves? && s.handler.Entered? && !s.wroteHeader && s.timer == Finished(true)
  }

  lemma LateAnswerIsSecond(s: State, step: Step)
    requires Inv(AsWritten, s) && |s.sent| <= 1
    ensures |Next(AsWritten, s, step).sent| == 2 <==> AnswersLate(s, step)
  {}

  /** As written, in every interleaving and from every reachable state: two statuses go out exactly when at some step
      the handler answers late. */
  lemma {:induction false} TwoStatusesExactly(s: State, steps: seq<Step>)
    requires Inv(AsWritten, s) && |s.sent| <= 1
    ensures |Run(AsWritten, s, steps).sent| == 2 <==>
            exists i :: 0 <= i < |steps| && AnswersLate(Run(AsWritten, s, steps[..i]), steps[i])
    decreases |steps|
  {
    if steps != [] {
      var t := Next(AsWritten, s, steps[0]);
      assert steps[..0] == [] && Run(AsWritten, s, []) == s;
      InvRun(AsWritten, s, [steps[0]]);
      assert Run(AsWritten, s, [steps[0]]) == Run(AsWritten, t, []) == t;
      LateAnswerIsSecond(s, steps[0]);
      forall i | 0 < i < |steps| ensures Run(AsWritten, s, steps[..i]) == Run(AsWritten, t, steps[1..][..i - 1]) {
        assert steps[..i][0] == steps[0] && steps[..i][1..] == steps[1..][..i - 1];
      }
      if AnswersLate(s, steps[0]) {
        SentIsFinal(t, steps[1..]);
        assert AnswersLate(Run(AsWritten, s, steps[..0]), steps[0]);
      } else {
        TwoStatusesExactly(t, steps[1..]);
        LateAmongTheRest(s, steps);
      }
    }
  }

  lemma LateAmongTheRest(s: State, steps: seq<Step>)
    requires steps != [] && !AnswersLate(s, steps[0])
    ensures var t := Next(AsWritten, s, steps[0]);
            (exists i :: 0 <= i < |steps| && AnswersLate(Run(AsWritten, s, steps[..i]), steps[i])) <==>
            (exists i :: 0 <= i < |steps[1..]| && AnswersLate(Run(AsWritten, t, steps[1..][..i]), steps[1..][i]))
  {
    var t := Next(AsWritten, s, steps[0]);
    if i :| 0 <= i < |steps| && AnswersLate(Run(AsWritten, s, steps[..i]), steps[i]) {
      assert steps[..0] == [];
      assert i > 0 && steps[..i][1..] == steps[1..][..i - 1];
      assert AnswersLate(Run(AsWritten, t, steps[1..][..i - 1]), steps[1..][i - 1]);
    }
    if i :| 0 <= i < |steps[1..]| && AnswersLate(Run(AsWritten, t, steps[1..][..i]), steps[1..][i]) {
      assert steps[..i + 1][1..] == steps[1..][..i];
      assert AnswersLate(Run(AsWritten, s, steps[..i + 1]), steps[i + 1]);
    }
  }

  /** The handler enters WriteHeader or Write after the timeout branch has sent its 503. */
  predicate EntersLate(s: State, step: Step) {
    (step.CallWriteHeader? || step.CallWrite?) && s.handler.Running? && s.holder.None? && s.timer == Finished(true)
  }

  predicate LateInside(s: State) {
    s.handler.Entered? && s.timer == Finished(true) && !s.wroteHeader
  }

  lemma {:induction false} RunLast(s: State, before: seq<Step>, last: Step)
    ensures Run(AsWritten, s, before + [last]) == Next(AsWritten, Run(AsWritten, s, before), last)
    decreases |before|
  {
    if before == [] {
      assert [] + [last] == [last] && [last][1..] == [];
      assert Run(AsWritten, Next(AsWritten, s, last), []) == Next(AsWritten, s, last);
    } else {
      assert (before + [last])[1..] == before[1..] + [last];
      RunLast(Next(AsWritten, s, before[0]), before[1..], last);
    }
  }

  lemma StaysOutside(s: State, step: Step)
    requires Inv(AsWritten, s) && !LateInside(s) && !EntersLate(s, step)
    ensures !LateInside(Next(AsWritten, s, step))
  {}

  lemma StaysOutsideAfter(s: State, before: seq<Step>, last: Step)
    requires Inv(AsWritten, s) && !LateInside(Run(AsWritten, s, before)) && !EntersLate(Run(AsWritten, s, before), last)
    ensures !LateInside(Run(AsWritten, s, before + [last]))
  {
    InvRun(AsWritten, s, before);
    RunLast(s, before, last);
    StaysOutside(Run(AsWritten, s, before), last);
  }

  lemma {:induction false} NotInsideLate(s: State, steps: seq<Step>)
    requires Inv(AsWritten, s) && !LateInside(s)
    requires forall i :: 0 <= i < |steps| ==> !EntersLate(Run(AsWritten, s, steps[..i]), steps[i])
    ensures !LateInside(Run(AsWritten, s, steps))
    decreases |steps|
  {
    if steps != [] {
      var last := steps[|steps| - 1];
      var before := steps[..|steps| - 1];
      forall i | 0 <= i < |before| ensures !EntersLate(Run(AsWritten, s, before[..i]), before[i]) {
        assert before[..i] == steps[..i];
      }
      NotInsideLate(s, before);
      StaysOutsideAfter(s, before, last);
      assert steps == before + [last];
    }
  }

  /** A handler that never enters WriteHeader or Write after the 503 leaves one status at most. */
  lemma OneStatusUnlessEnteredLate(steps: seq<Step>)
    requires forall i :: 0 <= i < |steps| ==> !EntersLate(Run(AsWritten, Start, steps[..i]), steps[i])
    ensures |Run(AsWritten, Start, steps).sent| <= 1
  {
    InvRun(AsWritten, Start, steps);
    TwoStatusesExactly(Start, steps);
    forall i | 0 <= i < |steps| ensures !AnswersLate(Run(AsWritten, Start, steps[..i]), steps[i]) {
      forall j | 0 <= j < i ensures !EntersLate(Run(AsWritten, Start, steps[..i][..j]), steps[..i][j]) {
        assert steps[..i][..j] == steps[..j];
      }
      NotInsideLate(Start, steps[..i]);
    }
  }

  /** After a 503 the handler can always do so: entering and forwarding gives the second status. */
  lemma EnteringLateSendsASecond(s: State, code: int)
    requires Inv(AsWritten, s) && FromTimer(s.sent) && EntersLate(s, CallWriteHeader(code))
    ensures Run(AsWritten, s, [CallWriteHeader(code), HandlerMoves]).sent == [(Timer, UNAVAILABLE), (Handler, code)]
  {
    var t := Next(AsWritten, s, CallWriteHeader(code));
    var u := Next(AsWritten, t, HandlerMoves);
    assert u.sent == s.sent + [(Handler, code)] == [(Timer, UNAVAILABLE), (Handler, code)];
    assert Run(AsWritten, u, []) == u;
    assert [CallWriteHeader(code), HandlerMoves][1..] == [HandlerMoves] && [HandlerMoves][1..] == [];
    assert Run(AsWritten, t, [HandlerMoves]) == u;
  }

  /** Such a run from the start. */
  lemma TwoStatusesAsWritten()
    ensures exists steps :: Run(AsWritten, Start, steps).sent == [(Timer, 503), (Handler, 200)]
  {
    var a, b := [Fire, TimerMoves, TimerMoves], [CallWriteHeader(OK), HandlerMoves];
    var s1 := Next(AsWritten, Start, Fire);
    var s2 := Next(AsWritten, s1, TimerMoves);
    var s3 := Next(AsWritten, s2, TimerMoves);
    assert a == [] + [Fire] + [TimerMoves] + [TimerMoves];
    RunLast(Start, [], Fire);
    RunLast(Start, [] + [Fire], TimerMoves);
    RunLast(Start, [] + [Fire] + [TimerMoves], TimerMoves);
    assert Run(AsWritten, Start, a) == s3;
    InvRun(AsWritten, Start, a);
    EnteringLateSendsASecond(s3, OK);
    RunLast(Start, a, b[0]);
    RunLast(Start, a + [b[0]], b[1]);
    RunLast(s3, [], b[0]);
    RunLast(s3, [] + [b[0]], b[1]);
    assert [] + [b[0]] + [b[1]] == b;
    assert Run(AsWritten, Start, a + [b[0]] + [b[1]]).sent == [(Timer, UNAVAILABLE), (Handler, OK)];
  }

  // ---- what the client is sent ----

  /** Every status the handler's thread has sent, or is about to, is one it passed to WriteHeader, or 200 for a Write, or
      in the corrected variant the 500 of the recover branch. */
  ghost predicate Own(v: Variant, s: State, steps: seq<Step>) {
    && (forall i :: 0 <= i < |s.sent| ==>
          if s.sent[i].0 == Timer then s.sent[i].1 == 503
          else Passed(steps, s.sent[i].1) || (v.Corrected? && s.sent[i].1 == 500))
    && (s.handler.Entered? ==> Passed(steps, s.handler.code))
  }

  ghost predicate Passed(steps: seq<Step>, code: int) {
    CallWriteHeader(code) in steps || (code == 200 && CallWrite in steps)
  }

  lemma OwnNext(v: Variant, s: State, step: Step, steps: seq<Step>)
    requires Own(v, s, steps) && step in steps
    ensures Own(v, Next(v, s, step), steps)
  {}

  lemma {:induction false} OwnRun(v: Variant, s: State, steps: seq<Step>, all: seq<Step>)
    requires Own(v, s, all) && forall step :: step in steps ==> step in all
    ensures Own(v, Run(v, s, steps), all)
    decreases |steps|
  {
    if steps != [] {
      OwnNext(v, s, steps[0], all);
      OwnRun(v, Next(v, s, steps[0]), steps[1..], all);
    }
  }

  /** In every interleaving the timeout branch sends 503 and nothing else, and the handler's thread only statuses it was
      given. */
  lemma StatusesAreTheirOwn(v: Variant, steps: seq<Step>, i: nat)
    requires i < |Run(v, Start, steps).sent|
    ensures var sent := Run(v, Start, steps).sent[i];
            && (sent.0 == Timer ==> sent.1 == 503)
            && (sent.0 == Handler ==>
                  CallWriteHeader(sent.1) in steps || (sent.1 == 200 && CallWrite in steps) || (v.Corrected? && sent.1 == 500))
  {
    OwnRun(v, Start, steps, steps);
  }

  /** A handler that is left in peace sends its status, returns, and is seen to be done; one that never writes is answered
      for with 503. */
  lemma InPeace(v: Variant, code: int)
    ensures Next(v, Next(v, Next(v, Next(v, Next(v, Start, CallWriteHeader(code)), HandlerMoves), HandlerMoves), Return), SeeDone)
            == State(None, true, [(Handler, code)], Returned, Finished(false))
    ensures Next(v, Next(v, Next(v, Start, Fire), TimerMoves), TimerMoves)
            == State(None, v.Corrected?, [(Timer, 503)], Running, Finished(true))
  {}

  /** Corrected, a panic before any status is answered with 500, and the handler returns. */
  lemma PanicIsAnsweredWhenCorrected(s: State)
    requires Inv(Corrected, s) && s.handler.Panicked? && s.holder.None?
    ensures var end := Next(Corrected, Next(Corrected, Next(Corrected, s, HandlerMoves), HandlerMoves), HandlerMoves);
            && end.handler.Returned? && end.holder.None? && end.wroteHeader
            && end.sent == if s.wroteHeader then s.sent else [(Handler, 500)]
  {}

  // ---- a panic before any status ----

  /** As written, the recover branch locks a mutex it holds: from there on no continuation forwards any status,
      the handler never returns, and an unfinished timeout branch never finishes. */
  lemma PanicBeforeHeaderHangs(before: seq<Step>, after: seq<Step>)
    requires var s := Run(AsWritten, Start, before); s.handler.Recovering? && !s.wroteHeader
    ensures var s := Run(AsWritten, Start, before);
            var end := Run(AsWritten, s, [HandlerMoves] + after);
            && end.handler.Stuck? && end.holder == Some(Handler)
            && end.sent == s.sent
            && (!s.timer.Finished? ==> !end.timer.Finished? && end.sent == [])
  {
    var s := Run(AsWritten, Start, before);
    InvRun(AsWritten, Start, before);
    assert ([HandlerMoves] + after)[1..] == after;
    StuckForever(Next(AsWritten, s, HandlerMoves), after);
  }

  lemma {:induction false} StuckForever(s: State, steps: seq<Step>)
    requires s.handler.Stuck? && s.holder == Some(Handler) && !s.timer.Checking?
    ensures var end := Run(AsWritten, s, steps);
            && end.handler.Stuck? && end.holder == Some(Handler) && end.sent == s.sent
            && (end.timer.Finished? <==> s.timer.Finished?)
    decreases |steps|
  {
    if steps != [] { StuckForever(Next(AsWritten, s, steps[0]), steps[1..]); }
  }

  /** The handler is about to lock the mutex it holds, or does. */
  predicate Lost(s: State) {
    (s.handler.Panicked? || s.handler.Recovering? || s.handler.Stuck?) && !s.wroteHeader
  }

  lemma {:induction false} LostForever(s: State, steps: seq<Step>)
    requires Inv(AsWritten, s) && Lost(s)
    ensures Lost(Run(AsWritten, s, steps))
    decreases |steps|
  {
    if steps != [] {
      InvNext(AsWritten, s, steps[0]);
      LostForever(Next(AsWritten, s, steps[0]), steps[1..]);
    }
  }

  lemma RunThree(s: State, a: Step, b: Step, c: Step)
    ensures Run(AsWritten, s, [a, b, c]) == Next(AsWritten, Next(AsWritten, Next(AsWritten, s, a), b), c)
  {
    RunLast(s, [a, b], c);
    RunLast(s, [a], b);
    RunLast(s, [], a);
    assert [a, b] + [c] == [a, b, c] && [a] + [b] == [a, b] && [] + [a] == [a];
  }

  /** After these steps the handler has returned and its channel is closed. */
  predicate Closes(s: State, steps: seq<Step>) {
    Run(AsWritten, s, steps).handler.Returned?
  }

  lemma HeldByAThread(s: State)
    ensures s.holder.None? || s.holder == Some(Handler) || s.holder == Some(Timer)
  {
    if s.holder.Some? {
      match s.holder.value
      case Handler =>
      case Timer =>
    }
  }

  /** With the flag set the recover branch writes nothing and leaves, once the timeout branch has unlocked the mutex. */
  lemma RecoveredReturns(s: State)
    requires Inv(AsWritten, s) && (s.handler.Panicked? || s.handler.Recovering?) && s.wroteHeader
    requires s.holder != Some(Timer)
    ensures Run(AsWritten, s, [HandlerMoves, HandlerMoves, HandlerMoves]).handler.Returned?
  {
    RunThree(s, HandlerMoves, HandlerMoves, HandlerMoves);
    HeldByAThread(s);
    var t := HandlerNext(AsWritten, s);
    assert t.handler.Recovering? || t.handler.Exiting?;
    assert HandlerNext(AsWritten, HandlerNext(AsWritten, t)).handler.Returned?;
  }

  /** As written, from every state in which the handler has panicked: some continuation closes its channel if and only
      if a status had been forwarded before. */
  lemma PanicIsAnsweredExactly(s: State)
    requires Inv(AsWritten, s) && (s.handler.Panicked? || s.handler.Recovering?)
    ensures (exists steps :: Closes(s, steps)) <==> s.wroteHeader
  {
    if !s.wroteHeader {
      forall steps ensures !Closes(s, steps) { LostForever(s, steps); }
    } else if s.holder == Some(Timer) {
      var moves := [HandlerMoves, HandlerMoves, HandlerMoves];
      var t := Next(AsWritten, s, TimerMoves);
      InvNext(AsWritten, s, TimerMoves);
      RecoveredReturns(t);
      var steps := [TimerMoves] + moves;
      assert steps[0] == TimerMoves && steps[1..] == moves;
      assert Run(AsWritten, s, steps) == Run(AsWritten, t, moves);
      assert Closes(s, steps);
    } else {
      RecoveredReturns(s);
      assert Closes(s, [HandlerMoves, HandlerMoves, HandlerMoves]);
    }
  }

  /** A panic can come first: this run stands in the recover branch with no status forwarded. */
  lemma PanicCanComeFirst()
    ensures exists steps ::
              var s := Run(AsWritten, Start, steps);
              s.handler.Recovering? && !s.wroteHeader && s.sent == [] && s.timer.Waiting?
  {
    RunLast(Start, [], Panic);
    RunLast(Start, [] + [Panic], HandlerMoves);
    var s := Run(AsWritten, Start, [] + [Panic] + [HandlerMoves]);
    assert s.handler.Recovering? && !s.wroteHeader && s.sent == [] && s.timer.Waiting?;
  }

  // ---- the response writer as an object ----

  class TimeoutResponseWriter {
    var wroteHeader: bool
    var forwarded: seq<int>

    method WriteHeader(code: int)
      modifies this
      ensures wroteHeader
      ensures forwarded == if old(wroteHeader) then old(forwarded) else old(forwarded) + [code]
    {
      if wroteHeader { return; }
      wroteHeader := true;
      forwarded := forwarded + [code];
    }

    method Write()
      modifies this
      ensures wroteHeader
      ensures forwarded == if old(wroteHeader) then old(forwarded) else old(forwarded) + [OK]
    {
      if !wroteHeader {
        wroteHeader := true;
        forwarded := forwarded + [OK];
      }
    }
  }

  // ---- choosing the timeout ----

  /** The exact route's timeout, else that of the longest non-empty prefix, else the default;
      the order in which the map is walked does not matter. */
  method TimeoutForRoute(path: string, routes: map<string, nat>, default: nat) returns (timeout: nat)
    ensures path in routes ==> timeout == routes[path]
    ensures path !in routes ==>
              || (timeout == default && forall p :: p in routes && p <= path ==> p == "")
              || (exists best :: best in routes && best <= path && best != "" && timeout == routes[best]
                                 && forall p :: p in routes && p <= path ==> |p| <= |best|)
  {
    if path in routes { return routes[path]; }
    var bestMatch := "";
    timeout := default;
    var rest := routes.Keys;
    while rest != {}
      invariant rest <= routes.Keys
      invariant forall p :: p in routes && p !in rest && p <= path ==> |p| <= |bestMatch|
      invariant bestMatch == "" ==> timeout == default
      invariant bestMatch != "" ==> bestMatch in routes && bestMatch <= path && timeout == routes[bestMatch]
      decreases rest
    {
      var prefix :| prefix in rest;
      if prefix <= path && |prefix| > |bestMatch| {
        bestMatch := prefix;
        timeout := routes[prefix];
      }
      rest := rest - {prefix};
    }
  }

  /** The contract of TimeoutForRoute leaves one answer: two prefixes of one path and one length are the same. */
  lemma LongestPrefixIsUnique(path: string, p: string, q: string)
    requires p <= path && q <= path && |p| == |q|
    ensures p == q
  {
    assert p == path[..|p|] && q == path[..|q|];
  }
}
