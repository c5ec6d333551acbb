/** The limiter when the Redis commands of overlapping requests for one key interleave. */
module RateLimitInterleaved {
  import opened Prelude
  import opened Redis
  import opened RateLimit

  // The command a request issues next.
  datatype Phase = Creating | Reading | Counting | Expiring

  datatype State = State(slot: Slot, now: nat, requests: map<nat, Phase>)

  datatype Step =
    | Advance(d: nat)
    | Arrive(h: nat)
    | Proceed(h: nat)
    | Clear

  const Empty: State := State(None, 0, map[])

  /** EXISTS decides between SET and GET. */
  function DoArrive(s: State, h: nat): State {
    if h in s.requests then s
    else s.(requests := s.requests[h := if Alive(s.slot, s.now) then Reading else Creating])
  }

  /** The request's next command. GET of a key that has expired meanwhile fails and lets the request through. */
  function DoProceed(c: Config, s: State, h: nat): State
    requires h in s.requests
  {
    var gone := s.(requests := s.requests - {h});
    match s.requests[h]
    case Creating => gone.(slot := Some(Stored(1, c.window, s.now)))
    case Reading =>
      if !Alive(s.slot, s.now) || s.slot.value.value >= c.limit then gone
      else s.(requests := s.requests[h := Counting])
    case Counting =>
      var next := Incremented(s.slot, s.now);
      if next.value == 2 then s.(slot := Some(next), requests := s.requests[h := Expiring])
      else gone.(slot := Some(next))
    case Expiring => gone.(slot := Expired(s.slot, c.window, s.now))
  }

  function Next(c: Config, s: State, step: Step): State {
    match step
    case Advance(d) => s.(now := s.now + d)
    case Arrive(h) => DoArrive(s, h)
    case Proceed(h) => if h in s.requests then DoProceed(c, s, h) else s
    case Clear => s.(slot := None)
  }

  function Run(c: Config, s: State, steps: seq<Step>): State
    decreases |steps|
  {
    if steps == [] then s else Run(c, Next(c, s, steps[0]), steps[1..])
  }

  /** Some request is about to give the key its expiry. */
  predicate ExpiryComing(s: State) {
    exists h :: h in s.requests && s.requests[h].Expiring?
  }

  ghost predicate Inv(c: Config, s: State) {
    && (Alive(s.slot, s.now) ==>
          && s.slot.value.value >= 1
          && (s.slot.value.expiresAt.Some? ==> s.slot.value.expiresAt.value <= s.now + c.window)
          && (s.slot.value.expiresAt.None? ==> c.limit >= 2 && (s.slot.value.value == 1 || ExpiryComing(s))))
    && (forall h :: h in s.requests && s.requests[h].Counting? ==> c.limit >= 2)
  }

  lemma InvProceed(c: Config, s: State, h: nat)
    requires c.window > 0 && Inv(c, s) && h in s.requests
    ensures Inv(c, DoProceed(c, s, h))
  {
    var s' := DoProceed(c, s, h);
    match s.requests[h]
    case Creating =>
    case Reading =>
      if ExpiryComing(s) {
        var g :| g in s.requests && s.requests[g].Expiring?;
        assert g in s'.requests && s'.requests[g].Expiring?;
      }
    case Counting =>
      if ExpiryComing(s) {
        var g :| g in s.requests && s.requests[g].Expiring?;
        assert g in s'.requests && s'.requests[g].Expiring?;
      }
      if Incremented(s.slot, s.now).value == 2 {
        assert s'.requests[h].Expiring?;
      }
    case Expiring =>
  }

  lemma InvNext(c: Config, s: State, step: Step)
    requires c.window > 0 && Inv(c, s)
    ensures Inv(c, Next(c, s, step))
  {
    match step
    case Advance(_) =>
    case Arrive(h) =>
      if ExpiryComing(s) {
        var g :| g in s.requests && s.requests[g].Expiring?;
        assert DoArrive(s, h).requests[g].Expiring?;
      }
    case Proceed(h) => if h in s.requests { InvProceed(c, s, h); }
    case Clear =>
  }

  lemma {:induction false} InvRun(c: Config, s: State, steps: seq<Step>)
    requires c.window > 0 && Inv(c, s)
    ensures Inv(c, Run(c, s, steps))
    decreases |steps|
  {
    if steps != [] {
      InvNext(c, s, steps[0]);
      InvRun(c, Next(c, s, steps[0]), steps[1..]);
    }
  }

  /** In every interleaving a counter of two or more has an expiry, or a request is about to give it one. */
  lemma CountersExpire(c: Config, steps: seq<Step>)
    requires c.window > 0
    ensures var s := Run(c, Empty, steps);
            Alive(s.slot, s.now) && s.slot.value.value >= 2 && s.slot.value.expiresAt.None? ==> ExpiryComing(s)
  {
    InvRun(c, Empty, steps);
  }

  /** Unless some request is about to run its EXPIRE, a client that waits one window is admitted. */
  lemma NobodyIsBlockedForever(c: Config, steps: seq<Step>)
    requires c.window > 0 && !ExpiryComing(Run(c, Empty, steps))
    ensures var s := Run(c, Empty, steps); Check(c, s.slot, s.now + c.window).1
  {
    InvRun(c, Empty, steps);
  }

  /** Commands no other request falls between are one call of Check. */
  lemma AloneIsCheck(c: Config, s: State, h: nat)
    requires h !in s.requests
    ensures var end := Run(c, s, [Arrive(h), Proceed(h), Proceed(h), Proceed(h)]);
            end == s.(slot := Check(c, s.slot, s.now).0)
  {
    var s1 := Next(c, s, Arrive(h));
    var s2 := Next(c, s1, Proceed(h));
    var s3 := Next(c, s2, Proceed(h));
    var s4 := Next(c, s3, Proceed(h));
    var steps := [Arrive(h), Proceed(h), Proceed(h), Proceed(h)];
    assert steps[1..] == [Proceed(h), Proceed(h), Proceed(h)];
    assert steps[1..][1..] == [Proceed(h), Proceed(h)];
    assert steps[1..][1..][1..] == [Proceed(h)];
    assert Run(c, s4, []) == s4;
    assert Run(c, s3, [Proceed(h)]) == s4;
    assert Run(c, s2, [Proceed(h), Proceed(h)]) == s4;
    assert Run(c, s1, [Proceed(h), Proceed(h), Proceed(h)]) == s4;
  }
}
