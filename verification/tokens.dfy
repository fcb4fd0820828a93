/**
 * The `AccessToken` records and the validation query of the middleware:
 * which records accept a presented value for a canonical path at a given
 * instant, and the `update()` that records an access.
 */
module Tokens {
  import opened Common

  /**
   * One `AccessToken` row. Instants are integers on a single clock; the two
   * limits are optional, `None` standing for SQL `NULL`.
   */
  datatype AccessToken = AccessToken(
    id: nat,
    description: string,
    path: string,
    token: string,
    isValid: bool,
    expiresAt: Option<int>,
    maxUses: Option<int>,
    createdAt: int,
    timesAccessed: int,
    lastAccessed: Option<int>)

  /** The table, in primary-key order. */
  type Store = seq<AccessToken>

  /** The `token` column is unique. */
  predicate UniqueTokens(store: Store) {
    forall i, j :: 0 <= i < |store| && 0 <= j < |store| && store[i].token == store[j].token ==> i == j
  }

  /** `Q(expires_at__isnull=True) | Q(expires_at__gt=now)`. */
  predicate NotExpired(t: AccessToken, now: int) {
    t.expiresAt.None? || t.expiresAt.value > now
  }

  /** `Q(max_uses__isnull=True) | Q(max_uses__gt=F("times_accessed"))`. */
  predicate UsesLeft(t: AccessToken) {
    t.maxUses.None? || t.maxUses.value > t.timesAccessed
  }

  /**
   * The whole filter chain for one row: value, revocation flag, canonical path,
   * expiry, use count. Both limits are strict: a row expiring at `now`, or
   * with as many accesses as its limit, is refused.
   */
  predicate Accepts(t: AccessToken, value: string, path: string, now: int)
    ensures t.expiresAt == Some(now) ==> !Accepts(t, value, path, now)
    ensures t.maxUses == Some(t.timesAccessed) ==> !Accepts(t, value, path, now)
    ensures Accepts(t, value, path, now) ==> forall earlier :: earlier <= now ==> NotExpired(t, earlier)
  {
    t.token == value && t.isValid && t.path == path && NotExpired(t, now) && UsesLeft(t)
  }

  /** `.exists()` on the filtered query set. */
  predicate AnyAccepts(store: Store, value: string, path: string, now: int) {
    exists i :: 0 <= i < |store| && Accepts(store[i], value, path, now)
  }

  /** A row after one recorded access. */
  function Touched(t: AccessToken, now: int): AccessToken {
    t.(timesAccessed := t.timesAccessed + 1, lastAccessed := Some(now))
  }

  /**
   * `db_token.update(last_accessed=now, times_accessed=F("times_accessed") + 1)`:
   * the update applies to every row the filter selects.
   */
  function RecordAccess(store: Store, value: string, path: string, now: int): (s: Store)
    ensures |s| == |store|
    ensures forall i :: 0 <= i < |store| ==>
      s[i].id == store[i].id && s[i].token == store[i].token && s[i].path == store[i].path
      && s[i].isValid == store[i].isValid && s[i].maxUses == store[i].maxUses
      && s[i].expiresAt == store[i].expiresAt
    ensures forall i :: 0 <= i < |store| ==>
      s[i].description == store[i].description && s[i].createdAt == store[i].createdAt
    ensures forall i :: 0 <= i < |store| ==>
      s[i].timesAccessed == store[i].timesAccessed + (if Accepts(store[i], value, path, now) then 1 else 0)
    ensures forall i :: 0 <= i < |store| ==>
      s[i].lastAccessed == (if Accepts(store[i], value, path, now) then Some(now) else store[i].lastAccessed)
  {
    seq(|store|, i requires 0 <= i < |store| =>
      if Accepts(store[i], value, path, now) then Touched(store[i], now) else store[i])
  }

  /**
   * With unique token values an accepted access changes exactly one row, and
   * that row only in its two access columns.
   */
  lemma ExactlyOneRowChanges(store: Store, value: string, path: string, now: int)
    requires UniqueTokens(store) && AnyAccepts(store, value, path, now)
    ensures var s := RecordAccess(store, value, path, now);
      exists k :: 0 <= k < |store| && s[k] == Touched(store[k], now)
        && forall i :: 0 <= i < |store| && i != k ==> s[i] == store[i]
  {
    var k :| 0 <= k < |store| && Accepts(store[k], value, path, now);
    var s := RecordAccess(store, value, path, now);
    forall i | 0 <= i < |store| && i != k ensures s[i] == store[i] {
      assert store[i].token != value;
    }
  }

  /** No accepted row, no change. */
  lemma NothingAcceptedNothingChanges(store: Store, value: string, path: string, now: int)
    requires !AnyAccepts(store, value, path, now)
    ensures RecordAccess(store, value, path, now) == store
  {
  }

  /** Recording an access keeps the token column unique. */
  lemma RecordAccessKeepsUnique(store: Store, value: string, path: string, now: int)
    requires UniqueTokens(store)
    ensures UniqueTokens(RecordAccess(store, value, path, now))
  {
  }

  // ---- repeated use ----

  /**
   * The number of grants when the same value is presented for the same path
   * at the instants `nows`, one request after the other.
   */
  function Grants(store: Store, value: string, path: string, nows: seq<int>): nat
    decreases |nows|
  {
    if nows == [] then 0
    else if AnyAccepts(store, value, path, nows[0]) then
      1 + Grants(RecordAccess(store, value, path, nows[0]), value, path, nows[1..])
    else Grants(store, value, path, nows[1..])
  }

  /** The accesses a row with a use limit still has. */
  function Remaining(t: AccessToken): nat
    requires t.maxUses.Some?
  {
    if t.maxUses.value > t.timesAccessed then t.maxUses.value - t.timesAccessed else 0
  }

  /**
   * A token with `max_uses = N` is accepted at most `N - times_accessed`
   * more times, whatever the instants of the requests.
   */
  lemma {:induction false} UseLimitBoundsGrants(store: Store, value: string, path: string, nows: seq<int>, k: nat)
    requires UniqueTokens(store)
    requires k < |store| && store[k].token == value && store[k].maxUses.Some?
    ensures Grants(store, value, path, nows) <= Remaining(store[k])
    decreases |nows|
  {
    if nows != [] {
      var s := RecordAccess(store, value, path, nows[0]);
      RecordAccessKeepsUnique(store, value, path, nows[0]);
      UseLimitBoundsGrants(s, value, path, nows[1..], k);
      UseLimitBoundsGrants(store, value, path, nows[1..], k);
      if AnyAccepts(store, value, path, nows[0]) {
        var i :| 0 <= i < |store| && Accepts(store[i], value, path, nows[0]);
        assert i == k;
        assert Remaining(s[k]) == Remaining(store[k]) - 1;
      }
    }
  }

  /** Once exhausted, a token stays exhausted: it is never accepted again. */
  lemma ExhaustedStaysExhausted(store: Store, value: string, path: string, nows: seq<int>, k: nat)
    requires UniqueTokens(store)
    requires k < |store| && store[k].token == value && !UsesLeft(store[k])
    ensures Grants(store, value, path, nows) == 0
  {
    UseLimitBoundsGrants(store, value, path, nows, k);
  }

  // ---- the `access_granted` payload ----

  /** The first row, in primary-key order, that accepts the value. */
  function FirstAccepting(store: Store, value: string, path: string, now: int): (r: Option<nat>)
    ensures r.None? <==> !AnyAccepts(store, value, path, now)
    ensures r.Some? ==> r.value < |store| && Accepts(store[r.value], value, path, now)
    ensures r.Some? ==> forall j :: 0 <= j < r.value ==> !Accepts(store[j], value, path, now)
  {
    var b := seq(|store|, i requires 0 <= i < |store| => Accepts(store[i], value, path, now));
    assert forall i :: 0 <= i < |store| ==> (b[i] <==> Accepts(store[i], value, path, now));
    FirstTrue(b)
  }

  /**
   * `db_token.first()` as the code evaluates it: AFTER the update, so the
   * filter runs again against the incremented row.
   */
  function GrantedTokenAsWritten(store: Store, value: string, path: string, now: int): (r: Option<AccessToken>)
    ensures r.Some? ==> exists k :: 0 <= k < |store| && Accepts(store[k], value, path, now)
                                    && r.value == Touched(store[k], now) && UsesLeft(r.value)
  {
    var s := RecordAccess(store, value, path, now);
    match FirstAccepting(s, value, path, now)
    case None => None
    case Some(i) => Some(s[i])
  }

  /** The granted row as updated: the row the filter selected before the increment. */
  function GrantedToken(store: Store, value: string, path: string, now: int): (r: Option<AccessToken>)
    ensures r.Some? <==> AnyAccepts(store, value, path, now)
    ensures r.Some? ==> exists k :: 0 <= k < |store| && Accepts(store[k], value, path, now)
                                    && r.value == Touched(store[k], now)
  {
    match FirstAccepting(store, value, path, now)
    case None => None
    case Some(i) => Some(Touched(store[i], now))
  }

  /**
   * On the last permitted use of a limited token the as-written payload is
   * `None`: the incremented row no longer passes the use-count clause.
   */
  lemma LastUsePayloadIsNone(store: Store, value: string, path: string, now: int, k: nat)
    requires UniqueTokens(store)
    requires k < |store| && Accepts(store[k], value, path, now)
    requires store[k].maxUses == Some(store[k].timesAccessed + 1)
    ensures GrantedTokenAsWritten(store, value, path, now).None?
    ensures GrantedToken(store, value, path, now) == Some(Touched(store[k], now))
  {
    var s := RecordAccess(store, value, path, now);
    RecordAccessKeepsUnique(store, value, path, now);
    forall i | 0 <= i < |s| ensures !Accepts(s[i], value, path, now) {
      if s[i].token == value {
        assert i == k;
      }
    }
    var j := FirstAccepting(store, value, path, now).value;
    assert j == k;
  }

  /**
   * With unique token values the as-written payload is lost exactly on the
   * last permitted use; whenever it is present, it is the intended payload.
   */
  lemma PayloadLostIffLastUse(store: Store, value: string, path: string, now: int, k: nat)
    requires UniqueTokens(store)
    requires k < |store| && Accepts(store[k], value, path, now)
    ensures GrantedTokenAsWritten(store, value, path, now).None? <==> store[k].maxUses == Some(store[k].timesAccessed + 1)
    ensures GrantedTokenAsWritten(store, value, path, now).Some? ==>
              GrantedTokenAsWritten(store, value, path, now) == GrantedToken(store, value, path, now)
  {
    var j := FirstAccepting(store, value, path, now).value;
    assert j == k;
    if store[k].maxUses == Some(store[k].timesAccessed + 1) {
      LastUsePayloadIsNone(store, value, path, now, k);
    } else {
      var s := RecordAccess(store, value, path, now);
      assert Accepts(s[k], value, path, now);
    }
    if GrantedTokenAsWritten(store, value, path, now).Some? {
      var i :| 0 <= i < |store| && Accepts(store[i], value, path, now)
               && GrantedTokenAsWritten(store, value, path, now).value == Touched(store[i], now);
      assert i == k;
    }
  }

  /**
   * A fresh single-use record accepts its value once; the recorded access
   * spends it, and from then on it accepts nothing at any instant.
   */
  lemma SingleUseSpends(t: AccessToken, now: int, later: int)
    requires t.isValid && t.maxUses == Some(1) && t.timesAccessed == 0 && NotExpired(t, now)
    ensures AnyAccepts([t], t.token, t.path, now)
    ensures RecordAccess([t], t.token, t.path, now) == [Touched(t, now)]
    ensures !AnyAccepts([Touched(t, now)], t.token, t.path, later)
  {
    assert Accepts([t][0], t.token, t.path, now);
    var s := RecordAccess([t], t.token, t.path, now);
    assert s[0] == Touched(t, now);
    assert !Accepts([Touched(t, now)][0], t.token, t.path, later);
  }

  /** A concrete row: first (and only) use of a single-use token. */
  lemma SingleUseExample()
    ensures var t := AccessToken(1, "d", "protected/", "T", true, None, Some(1), 0, 0, None);
      GrantedTokenAsWritten([t], "T", "protected/", 5) == None
      && GrantedToken([t], "T", "protected/", 5) == Some(t.(timesAccessed := 1, lastAccessed := Some(5)))
  {
    var t := AccessToken(1, "d", "protected/", "T", true, None, Some(1), 0, 0, None);
    LastUsePayloadIsNone([t], "T", "protected/", 5, 0);
  }
}
