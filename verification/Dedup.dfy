/**
 Per-user deduplication of authentication requests. A request reads the clock
 first and waits for the lock afterwards, so timestamps can reach the lock out of
 order. Times are milliseconds.
 */
module Dedup {
  import opened Prelude

  const DEDUP_WINDOW: nat := 1000
  const PRUNE_AGE: nat := 2000

  /** The clock read before the lock, and the moment the lock was granted. */
  datatype Request = Request(user: string, now: nat, lockedAt: nat)

  /** `Instant::duration_since`, which saturates. */
  function Since(now: nat, earlier: nat): nat {
    if now < earlier then 0 else now - earlier
  }

  /** The map after one locked section, and whether the request was accepted. */
  function Handle(recent: map<string, nat>, r: Request): (map<string, nat>, bool) {
    var kept := map u | u in recent && Since(r.now, recent[u]) < PRUNE_AGE :: recent[u];
    if r.user in kept && Since(r.now, kept[r.user]) < DEDUP_WINDOW then (kept, false)
    else (kept[r.user := r.now], true)
  }

  function Run(rs: seq<Request>): map<string, nat> {
    if rs == [] then map[] else Handle(Run(Front(rs)), Last(rs)).0
  }

  /** Whether the last request of `rs` was accepted. */
  predicate Accepted(rs: seq<Request>)
    requires rs != []
  {
    Handle(Run(Front(rs)), Last(rs)).1
  }

  /** The time stamps of a user's accepted requests, oldest first, were none ever pruned. */
  function History(rs: seq<Request>, user: string): seq<nat> {
    if rs == [] then []
    else
      var before := History(Front(rs), user);
      var r := Last(rs);
      if r.user != user then before
      else if before != [] && Since(r.now, Last(before)) < DEDUP_WINDOW then before
      else before + [r.now]
  }

  /** The lock is granted in order, never before the clock was read, and within `wait` of it. */
  ghost predicate Orderly(rs: seq<Request>, wait: nat) {
    && (forall i | 0 <= i < |rs| :: rs[i].now <= rs[i].lockedAt <= rs[i].now + wait)
    && (forall i, j | 0 <= i < j < |rs| :: rs[i].lockedAt <= rs[j].lockedAt)
  }

  /**
   The map against the full history: an entry is the user's latest accepted time,
   and what was pruned lies so far back that no request still to come can be a
   duplicate of it.
   */
  ghost predicate Agrees(recent: map<string, nat>, rs: seq<Request>, user: string) {
    var h := History(rs, user);
    && (user in recent ==> h != [] && recent[user] == Last(h))
    && (user !in recent && h != [] ==> rs != [] && Last(h) + PRUNE_AGE <= Last(rs).lockedAt)
  }

  lemma {:induction false} MapAgreesWithHistory(rs: seq<Request>, user: string)
    requires Orderly(rs, DEDUP_WINDOW)
    ensures Agrees(Run(rs), rs, user)
  {
    if rs != [] {
      var front, r := Front(rs), Last(rs);
      MapAgreesWithHistory(front, user);
      var h := History(front, user);
      if r.user == user && user !in Run(front) && h != [] {
        assert Last(front) == rs[|rs| - 2];
        assert Since(r.now, Last(h)) >= DEDUP_WINDOW;
      }
      if user !in Run(front) && h != [] {
        assert Last(front).lockedAt <= r.lockedAt;
      }
    }
  }

  /**
   Pruning is invisible: when no request waits more than a second for the lock,
   every request is accepted or refused exactly as the unpruned history of its
   user says.
   */
  lemma PrunedDecidesAsHistory(rs: seq<Request>)
    requires rs != [] && Orderly(rs, DEDUP_WINDOW)
    ensures var h := History(Front(rs), Last(rs).user);
            Accepted(rs) <==> h == [] || Last(rs).now >= Last(h) + DEDUP_WINDOW
  {
    var front, r := Front(rs), Last(rs);
    MapAgreesWithHistory(front, r.user);
    if r.user !in Run(front) && History(front, r.user) != [] {
      assert Last(front) == rs[|rs| - 2];
    }
  }

  ghost predicate Spaced(h: seq<nat>) {
    forall i, j | 0 <= i < j < |h| :: h[j] >= h[i] + DEDUP_WINDOW
  }

  lemma {:induction false} HistorySpaced(rs: seq<Request>, user: string)
    ensures Spaced(History(rs, user))
  {
    if rs != [] {
      HistorySpaced(Front(rs), user);
      var before, h := History(Front(rs), user), History(rs, user);
      if |h| > |before| && before != [] {
        assert h == before + [Last(rs).now] && Last(rs).now >= Last(before) + DEDUP_WINDOW;
        assert forall i | 0 <= i < |before| :: Last(before) >= before[i];
      }
    }
  }

  /** The positions of `rs` that were accepted for `user`. */
  ghost predicate AcceptedAt(rs: seq<Request>, i: nat, user: string) {
    i < |rs| && rs[i].user == user && Accepted(rs[..i + 1])
  }

  /** Two accepted requests of one user are at least a second apart. */
  lemma AcceptedAreASecondApart(rs: seq<Request>, i: nat, j: nat, user: string)
    requires Orderly(rs, DEDUP_WINDOW)
    requires i < j && AcceptedAt(rs, i, user) && AcceptedAt(rs, j, user)
    ensures rs[j].now >= rs[i].now + DEDUP_WINDOW
  {
    var a := InHistory(rs, i, j, user);
    var h := History(rs[..j], user);
    HistorySpaced(rs[..j], user);
    assert Front(rs[..j + 1]) == rs[..j];
    PrunedDecidesAsHistory(rs[..j + 1]);
  }

  /** An accepted time stamp is in the history from then on. */
  lemma {:induction false} InHistory(rs: seq<Request>, i: nat, n: nat, user: string) returns (a: nat)
    requires Orderly(rs, DEDUP_WINDOW)
    requires i < n <= |rs| && AcceptedAt(rs, i, user)
    ensures a < |History(rs[..n], user)| && History(rs[..n], user)[a] == rs[i].now
  {
    assert Front(rs[..n]) == rs[..n - 1];
    if n == i + 1 {
      PrunedDecidesAsHistory(rs[..n]);
      a := |History(rs[..n], user)| - 1;
    } else {
      a := InHistory(rs, i, n - 1, user);
    }
  }

  /** In every run with waits up to `wait`, accepted requests of one user are a second apart. */
  ghost predicate KeepsApart(wait: nat) {
    forall rs: seq<Request>, i: nat, j: nat, user: string
      | Orderly(rs, wait) && i < j && AcceptedAt(rs, i, user) && AcceptedAt(rs, j, user) ::
      rs[j].now >= rs[i].now + DEDUP_WINDOW
  }

  /** Deduplication does its job exactly as long as no request waits over a second for the lock. */
  lemma KeepsApartIffWaitsAtMostASecond(wait: nat)
    ensures KeepsApart(wait) <==> wait <= DEDUP_WINDOW
  {
    if wait <= DEDUP_WINDOW {
      forall rs: seq<Request>, i: nat, j: nat, user: string
        | Orderly(rs, wait) && i < j && AcceptedAt(rs, i, user) && AcceptedAt(rs, j, user)
        ensures rs[j].now >= rs[i].now + DEDUP_WINDOW
      {
        assert Orderly(rs, DEDUP_WINDOW);
        AcceptedAreASecondApart(rs, i, j, user);
      }
    } else {
      var rs := LongerWaitsBreakIt();
      assert Orderly(rs, wait);
    }
  }

  /**
   With a wait of 1001 ms, a request of another user can prune the entry that would
   have caught a duplicate: two accepted requests of one user end up 999 ms apart.
   */
  lemma LongerWaitsBreakIt() returns (rs: seq<Request>)
    ensures Orderly(rs, DEDUP_WINDOW + 1)
    ensures AcceptedAt(rs, 0, "ann") && AcceptedAt(rs, 2, "ann")
    ensures rs[2].now < rs[0].now + DEDUP_WINDOW
  {
    var a, b, c := Request("ann", 0, 0), Request("bob", 2000, 2000), Request("ann", 999, 2000);
    rs := [a, b, c];
    assert rs[..1] == [a] && rs[..2] == [a, b] && rs[..3] == rs;
    assert Front([a]) == [] && Front([a, b]) == [a] && Front(rs) == [a, b];
    assert Run([a]) == map["ann" := 0];
    assert "ann" != "bob";
    assert Run([a, b]) == map["bob" := 2000];
  }

  /** `recent_requests`. */
  class RecentRequests {
    var recent: map<string, nat>

    constructor ()
      ensures recent == map[]
    {
      recent := map[];
    }

    /** The locked section of `handle_pam_authenticate`. */
    method Admit(r: Request) returns (accepted: bool)
      modifies this
      ensures (recent, accepted) == Handle(old(recent), r)
      ensures accepted <==> r.user !in old(recent) || r.now >= old(recent)[r.user] + 1000
      ensures forall u | u != r.user :: u in recent <==> u in old(recent) && r.now < old(recent)[u] + 2000
      ensures forall u | u in recent && u != r.user :: recent[u] == old(recent)[u]
      ensures r.user in recent && recent[r.user] == if accepted then r.now else old(recent)[r.user]
    {
      recent := map u | u in recent && Since(r.now, recent[u]) < PRUNE_AGE :: recent[u];
      var isDuplicate := r.user in recent && Since(r.now, recent[r.user]) < DEDUP_WINDOW;
      if isDuplicate {
        return false;
      }
      recent := recent[r.user := r.now];
      return true;
    }
  }
}
