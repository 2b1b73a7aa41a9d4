/** Temporal identifiers: a keyed hash of the current minute, accepted for two windows. */
module Temporal {
  import opened Prelude

  const TIME_WINDOW_SECONDS: nat := 60

  /** The window a moment (seconds since the epoch) falls into. */
  function Window(t: nat): nat {
    t / TIME_WINDOW_SECONDS
  }

  /**
   `verify_temporal_identifier`: the current window is read at `t1`; only if that
   does not match is the clock read again, at `t2`, for the previous one. `mac` is
   the truncated HMAC under one key, so this covers the 16-byte and the BLE form.
   */
  function Verify(mac: nat -> Bytes, id: Bytes, t1: nat, t2: nat): Result<bool, ()> {
    if id == mac(Window(t1)) then Ok(true)
    else if Window(t2) == 0 then Err(())
    else Ok(id == mac(Window(t2) - 1))
  }

  /** No two of these windows share an identifier. */
  ghost predicate NoCollision(mac: nat -> Bytes, windows: set<nat>) {
    forall v, w | v in windows && w in windows && mac(v) == mac(w) :: v == w
  }

  /**
   Exactly when an identifier made at `t` is accepted with reads `t1 <= t2`: its
   window is the one of the first read, or the one before that of the second.
   */
  lemma AcceptedIff(mac: nat -> Bytes, t: nat, t1: nat, t2: nat)
    requires t <= t1 <= t2
    requires NoCollision(mac, {Window(t), Window(t1), if Window(t2) == 0 then 0 else Window(t2) - 1})
    ensures Verify(mac, mac(Window(t)), t1, t2) == Ok(true)
            <==> Window(t1) == Window(t) || Window(t2) == Window(t) + 1
  {
    assert Window(t) <= Window(t1) <= Window(t2);
  }

  /** Verification fails only in the first minute after the epoch, where no window precedes the current one. */
  lemma FailsIff(mac: nat -> Bytes, id: Bytes, t1: nat, t2: nat)
    ensures Verify(mac, id, t1, t2).Err? <==> id != mac(t1 / 60) && t2 < 60
  {
  }

  /**
   A minute is always enough and two minutes always too long, even when a window
   boundary falls between the two clock reads, and verification does not fail.
   */
  lemma MinuteAndTwoMinutes(mac: nat -> Bytes, t: nat, t1: nat, t2: nat)
    requires t <= t1 <= t2
    requires NoCollision(mac, {Window(t), Window(t1), if Window(t2) == 0 then 0 else Window(t2) - 1})
    ensures t2 - t <= 60 ==> Verify(mac, mac(Window(t)), t1, t2) == Ok(true)
    ensures t1 - t >= 120 ==> Verify(mac, mac(Window(t)), t1, t2) == Ok(false)
  {
    AcceptedIff(mac, t, t1, t2);
    assert Window(t) <= Window(t1) <= Window(t2);
    assert t2 - t <= 60 ==> Window(t2) <= Window(t) + 1;
    assert t1 - t >= 120 ==> Window(t1) >= Window(t) + 2;
  }

  /**
   Reading the clock twice costs something: an identifier that is valid when
   verification begins can be refused because the boundary passes in between.
   */
  lemma BoundaryBetweenReadsRefuses(mac: nat -> Bytes)
    requires NoCollision(mac, {0, 1})
    ensures Verify(mac, mac(Window(59)), 119, 119) == Ok(true)
    ensures Verify(mac, mac(Window(59)), 119, 120) == Ok(false)
  {
  }
}
