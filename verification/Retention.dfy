/** Which sessions an expiry takes up: `expired_sessions`, with the retention arithmetic it relies on. */
module Retention {
  import opened Wrappers
  import opened Entries
  import opened SessionStore

  /** `expires_at`: saturates at the last instant there is. */
  function ExpiresAt(created: int, ttl: nat, last: int): (at: int)
    ensures at <= last
  {
    if created + ttl <= last then created + ttl else last
  }

  predicate IsPastTtl(created: int, ttl: nat, now: int, last: int) {
    ExpiresAt(created, ttl, last) < now
  }

  /**
   * For every instant there is, saturating decides as exact arithmetic would: a
   * session is past its time exactly when the whole period lies before now. So a
   * longer retention never expires more, and what is past stays past.
   */
  lemma PastExactly(created: int, ttl: nat, now: int, last: int)
    requires now <= last
    ensures IsPastTtl(created, ttl, now, last) <==> created + ttl < now
    ensures forall longer: nat, later :: ttl <= longer && later <= now && IsPastTtl(created, longer, later, last) ==>
              IsPastTtl(created, ttl, now, last)
  {
  }

  predicate IsExpirable(state: SessionState) {
    state.Complete? || state.InProgress?
  }

  /** Complete or left in progress, its whole retention before now (as all of time may be), and nobody working on it. */
  ghost predicate Due(found: StoredSession, ttl: nat, now: int, last: int, probe: Taken) {
    && (found.session.state == Complete || found.session.state == InProgress)
    && (found.session.createdAt + ttl < now || last < now) && probe == Held
  }

  /** Session `i` of the store is due: of an expirable state, past its time, and nobody is working on it. */
  predicate IsDue(found: StoredSession, ttl: nat, now: int, last: int, probe: Taken) {
    IsExpirable(found.session.state) && IsPastTtl(found.session.createdAt, ttl, now, last) && probe.Held?
  }

  /** The due ids among the first `n`, in the store's order. */
  function DueAmong(
    found: seq<StoredSession>, ttl: nat, now: int, last: int, probes: nat -> Taken, n: nat): (due: seq<string>)
    requires n <= |found|
  {
    if n == 0 then []
    else
      DueAmong(found, ttl, now, last, probes, n - 1)
      + if IsDue(found[n - 1], ttl, now, last, probes(n - 1)) then [found[n - 1].id] else []
  }

  lemma {:induction false} DueExactly(
    found: seq<StoredSession>, ttl: nat, now: int, last: int, probes: nat -> Taken, n: nat, id: string)
    requires n <= |found|
    ensures id in DueAmong(found, ttl, now, last, probes, n) <==>
            exists i: nat :: i < n && found[i].id == id && Due(found[i], ttl, now, last, probes(i))
  {
    if n > 0 {
      DueExactly(found, ttl, now, last, probes, n - 1, id);
      assert IsDue(found[n - 1], ttl, now, last, probes(n - 1)) <==> Due(found[n - 1], ttl, now, last, probes(n - 1));
    }
  }

  /** Each due session is taken up once, in the store's order: `at` says which they are. */
  lemma {:induction false} DueInOrder(
    found: seq<StoredSession>, ttl: nat, now: int, last: int, probes: nat -> Taken, n: nat) returns (at: seq<nat>)
    requires n <= |found|
    ensures |at| == |DueAmong(found, ttl, now, last, probes, n)|
    ensures forall j :: 0 <= j < |at| ==> at[j] < n && DueAmong(found, ttl, now, last, probes, n)[j] == found[at[j]].id
    ensures forall i, j :: 0 <= i < j < |at| ==> at[i] < at[j]
    ensures forall i: nat :: i < n ==> (i in at <==> Due(found[i], ttl, now, last, probes(i)))
  {
    at := [];
    if n > 0 {
      at := DueInOrder(found, ttl, now, last, probes, n - 1);
      assert n - 1 !in at;
      if IsDue(found[n - 1], ttl, now, last, probes(n - 1)) {
        at := at + [n - 1];
      }
      hide DueAmong;
    }
  }

  /** `expired_sessions`: the loop over the store, skipping what is not for an unattended expiry. */
  method ExpiredSessions(found: seq<StoredSession>, ttl: nat, now: int, last: int, probes: nat -> Taken)
    returns (due: seq<string>)
    ensures due == DueAmong(found, ttl, now, last, probes, |found|)
    ensures forall id :: id in due ==>
              exists i: nat :: i < |found| && found[i].id == id && !found[i].session.state.Restoring? && probes(i).Held?
  {
    due := [];
    for i := 0 to |found|
      invariant due == DueAmong(found, ttl, now, last, probes, i)
    {
      if !IsExpirable(found[i].session.state) {
        continue;
      }
      if !IsPastTtl(found[i].session.createdAt, ttl, now, last) {
        continue;
      }
      if !probes(i).Held? {
        continue;
      }
      due := due + [found[i].id];
    }
    forall id | id in due
      ensures exists i: nat :: i < |found| && found[i].id == id && !found[i].session.state.Restoring? && probes(i).Held?
    {
      DueExactly(found, ttl, now, last, probes, |found|, id);
      var i: nat :| i < |found| && found[i].id == id && Due(found[i], ttl, now, last, probes(i));
    }
  }
}
