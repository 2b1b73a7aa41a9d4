/** The client's exponential backoff and how many requests fit into one session. */
module Backoff {
  import opened Prelude
  import Transport

  function Pow2(n: nat): nat {
    if n == 0 then 1 else 2 * Pow2(n - 1)
  }

  /** `get_client_retry_interval`, in milliseconds. */
  function Interval(attempt: nat): nat {
    200 * Pow2(if attempt < 5 then attempt else 5)
  }

  /** The time the first `n` nominal waits take. */
  function Waited(n: nat): nat {
    if n == 0 then 0 else Waited(n - 1) + Interval(n - 1)
  }

  /** The capped doubling sum in closed form. */
  lemma {:induction false} WaitedClosedForm(n: nat)
    ensures n <= 5 ==> Waited(n) == 200 * (Pow2(n) - 1)
    ensures n >= 5 ==> Waited(n) == 6200 + 6400 * (n - 5)
  {
    assert Pow2(5) == 32;
    if n > 0 {
      WaitedClosedForm(n - 1);
    }
  }

  /** Nothing ever arrives and every send goes through. */
  ghost predicate Silent(rounds: seq<Transport.Round>) {
    forall k | 0 <= k < |rounds| :: rounds[k].sent && rounds[k].receive.NoResponse?
  }

  /** Each wait takes at least its nominal interval. */
  ghost predicate WaitsAtLeast(rounds: seq<Transport.Round>) {
    forall k | 0 <= k < |rounds| - 1 :: rounds[k + 1].elapsed >= rounds[k].elapsed + Interval(k)
  }

  /** Each wait takes exactly its nominal interval. */
  ghost predicate WaitsExactly(rounds: seq<Transport.Round>) {
    forall k | 0 <= k < |rounds| :: rounds[k].elapsed == Waited(k)
  }

  lemma {:induction false} ElapsedAtLeast(rounds: seq<Transport.Round>, k: nat)
    requires WaitsAtLeast(rounds) && k < |rounds|
    ensures rounds[k].elapsed >= Waited(k)
  {
    if k > 0 {
      ElapsedAtLeast(rounds, k - 1);
    }
  }

  /** A silent run sends once per round until the session is over, and then stops for good. */
  lemma {:induction false} SilentRun(s: Transport.Session, rounds: seq<Transport.Round>)
    requires Silent(rounds) && WaitsAtLeast(rounds)
    ensures var q := Transport.Run(s, rounds);
            && q.sends <= |rounds| && q.sends <= 23
            && (q.result == None ==> q.sends == q.attempt == |rounds|)
            && (q.result.Some? ==> q.result == Some(Err(Transport.TimedOut)))
            && (q.result == None <==> forall k | 0 <= k < |rounds| :: rounds[k].elapsed < Transport.SESSION_TIMEOUT)
  {
    if rounds != [] {
      SilentRun(s, Front(rounds));
      ElapsedAtLeast(rounds, |rounds| - 1);
      WaitedClosedForm(|rounds| - 1);
    }
  }

  /**
   With waits no shorter than nominal, a session without an answer multicasts its
   request at most 23 times, however long the rounds are observed.
   */
  lemma AtMost23Requests(s: Transport.Session, rounds: seq<Transport.Round>)
    requires Silent(rounds) && WaitsAtLeast(rounds)
    ensures Transport.Run(s, rounds).sends <= 23
    ensures |rounds| > 23 ==> Transport.Run(s, rounds).result == Some(Err(Transport.TimedOut))
  {
    SilentRun(s, rounds);
    if |rounds| > 23 {
      ElapsedAtLeast(rounds, 23);
      WaitedClosedForm(23);
    }
  }

  lemma ExactIsAtLeast(rounds: seq<Transport.Round>)
    requires WaitsExactly(rounds)
    ensures WaitsAtLeast(rounds)
  {
    forall k | 0 <= k < |rounds| - 1 ensures rounds[k + 1].elapsed >= rounds[k].elapsed + Interval(k) {
      assert rounds[k + 1].elapsed == Waited(k + 1);
    }
  }

  /** With exact waits the session is over at a round exactly when 23 waits lie behind it. */
  lemma OverFrom23(rounds: seq<Transport.Round>, k: nat)
    requires WaitsExactly(rounds) && k < |rounds|
    ensures rounds[k].elapsed >= Transport.SESSION_TIMEOUT <==> k >= 23
    ensures k == 23 ==> rounds[k].elapsed == 121_400
  {
    WaitedClosedForm(k);
    assert forall n: nat | n <= 5 :: Pow2(n) <= 32;
  }

  /** With exact waits it sends exactly 23 times and gives up at 121.4 s, not at 120 s. */
  lemma ExactWaitsEndAt121400(s: Transport.Session, rounds: seq<Transport.Round>)
    requires Silent(rounds) && WaitsExactly(rounds) && |rounds| >= 24
    ensures rounds[23].elapsed == 121_400
    ensures Transport.Run(s, rounds).result == Some(Err(Transport.TimedOut))
    ensures Transport.Run(s, rounds).sends == 23
  {
    var last, before := rounds[..24], rounds[..23];
    forall k: nat | k < |rounds| {
      OverFrom23(rounds, k);
    }
    ExactIsAtLeast(before);
    SilentRun(s, before);
    ExactIsAtLeast(last);
    assert Front(last) == before && Last(last) == rounds[23];
    assert Transport.Run(s, last) == Transport.Step(s, Transport.Run(s, before), rounds[23]);
    Transport.Stuck(s, rounds, 24);
  }

  /** What `send_fn` answered, and how much time had passed when it did. */
  datatype Attempt = Failed | Answered | Silence(elapsed: nat)

  predicate SilentBefore(a: Attempt, maxDuration: nat) {
    a.Silence? && a.elapsed < maxDuration
  }

  function Ending(a: Attempt): Result<bool, ()> {
    match a
    case Failed => Err(())
    case Answered => Ok(true)
    case Silence(_) => Ok(false)
  }

  /**
   `retransmit_with_backoff`: unlike the session loop it looks at the clock after a
   send, so it sends once more. The result tells whether an answer arrived;
   `sleeps` holds the intervals it slept.
   */
  method RetransmitWithBackoff(answers: seq<Attempt>, maxDuration: nat)
    returns (result: Option<Result<bool, ()>>, calls: nat, sleeps: seq<nat>)
    ensures calls <= |answers|
    ensures result.None? <==> calls == |answers| && |sleeps| == calls
    ensures |sleeps| == if result.None? then calls else calls - 1
    ensures forall k | 0 <= k < |sleeps| :: sleeps[k] == Interval(k) && SilentBefore(answers[k], maxDuration)
    ensures result.Some? ==> calls > 0 && result.value == Ending(answers[calls - 1])
    ensures result.Some? ==> (result.value == Ok(true) <==> answers[calls - 1].Answered?)
    ensures result.Some? ==> (result.value.Err? <==> answers[calls - 1].Failed?)
    ensures result == Some(Ok(false)) ==> answers[calls - 1].elapsed >= maxDuration
  {
    var attempt := 0;
    calls, sleeps := 0, [];
    while calls < |answers|
      invariant attempt == calls == |sleeps| <= |answers|
      invariant forall k | 0 <= k < |sleeps| :: sleeps[k] == Interval(k) && SilentBefore(answers[k], maxDuration)
    {
      var answer := answers[calls];
      calls := calls + 1;
      match answer {
        case Failed =>
          return Some(Err(())), calls, sleeps;
        case Answered =>
          return Some(Ok(true)), calls, sleeps;
        case Silence(elapsed) =>
          if elapsed >= maxDuration {
            return Some(Ok(false)), calls, sleeps;
          }
          sleeps := sleeps + [Interval(attempt)];
          attempt := attempt + 1;
      }
    }
    result := None;
  }
}
