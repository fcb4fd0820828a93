/**
 * The `cleanup_expired_tokens` management command: delete every token that
 * is expired or exhausted at `now`, and report how many went.
 */
module Cleanup {
  import opened Common
  import opened Tokens

  /**
   * `Q(expires_at__isnull=False, expires_at__lte=now)
   *  | Q(max_uses__isnull=False, max_uses__lte=F("times_accessed"))`.
   */
  predicate Doomed(t: AccessToken, now: int) {
    (t.expiresAt.Some? && t.expiresAt.value <= now)
    || (t.maxUses.Some? && t.maxUses.value <= t.timesAccessed)
  }

  /** The rows the deletion leaves, in their original order: none of them doomed. */
  function Survivors(store: Store, now: int): (r: Store)
    ensures |r| <= |store|
    ensures forall i :: 0 <= i < |r| ==> !Doomed(r[i], now)
  {
    if store == [] then []
    else if Doomed(store[0], now) then Survivors(store[1..], now)
    else [store[0]] + Survivors(store[1..], now)
  }

  lemma {:induction false} SurvivorsAppend(a: Store, b: Store, now: int)
    ensures Survivors(a + b, now) == Survivors(a, now) + Survivors(b, now)
  {
    if a == [] {
      assert a + b == b;
    } else {
      assert (a + b)[0] == a[0] && (a + b)[1..] == a[1..] + b;
      SurvivorsAppend(a[1..], b, now);
      if !Doomed(a[0], now) {
        assert [a[0]] + (Survivors(a[1..], now) + Survivors(b, now))
            == ([a[0]] + Survivors(a[1..], now)) + Survivors(b, now);
      }
    }
  }

  /** What survives is exactly the rows that are not doomed. */
  lemma {:induction false} SurvivorsAreTheUndoomed(store: Store, now: int)
    ensures forall t :: t in Survivors(store, now) <==> t in store && !Doomed(t, now)
  {
    if store != [] {
      SurvivorsAreTheUndoomed(store[1..], now);
      assert store == [store[0]] + store[1..];
    }
  }

  /**
   * `expired.count()` followed by `expired.delete()`: the rows kept, in their
   * order, and the number removed.
   */
  method CleanupExpired(store: Store, now: int) returns (kept: Store, count: nat)
    ensures kept == Survivors(store, now)
    ensures count + |kept| == |store|
    ensures forall i :: 0 <= i < |store| ==> (store[i] in kept <==> !Doomed(store[i], now))
  {
    kept := [];
    count := 0;
    var i := 0;
    while i < |store|
      invariant 0 <= i <= |store|
      invariant kept == Survivors(store[..i], now)
      invariant count + |kept| == i
    {
      SurvivorsAppend(store[..i], [store[i]], now);
      assert store[..i + 1] == store[..i] + [store[i]];
      if Doomed(store[i], now) {
        count := count + 1;
      } else {
        kept := kept + [store[i]];
      }
      i := i + 1;
    }
    assert store[..i] == store;
    SurvivorsAreTheUndoomed(store, now);
  }

  /** For the same instant, deletion is the exact complement of the expiry and use-count clauses. */
  lemma DoomedIffFailsLimits(t: AccessToken, now: int)
    ensures Doomed(t, now) <==> !(NotExpired(t, now) && UsesLeft(t))
  {
  }

  /** A token with neither limit is never deleted. */
  lemma UnlimitedSurvives(store: Store, now: int, i: nat)
    requires i < |store| && store[i].expiresAt.None? && store[i].maxUses.None?
    ensures store[i] in Survivors(store, now)
  {
    SurvivorsAreTheUndoomed(store, now);
  }

  /** A token the middleware would accept at `now` is never deleted at `now`. */
  lemma AcceptedNeverDeleted(store: Store, now: int, i: nat, value: string, path: string)
    requires i < |store| && Accepts(store[i], value, path, now)
    ensures store[i] in Survivors(store, now)
  {
    SurvivorsAreTheUndoomed(store, now);
  }

  /** Revocation and path play no part: changing either never changes the verdict. */
  lemma DeletionIgnoresRevocationAndPath(t: AccessToken, now: int, valid: bool, path: string)
    ensures Doomed(t.(isValid := valid, path := path), now) == Doomed(t, now)
  {
  }
}
