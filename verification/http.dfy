/**
 * The parts of a Django request the middleware reads: the path, the query
 * string as a `QueryDict` (a multi-valued mapping that keeps URL order) and
 * the cookies.
 */
module Http {
  import opened Common

  datatype QueryPair = QueryPair(key: string, value: string)

  /** The query string, one pair per occurrence, in URL order. */
  type Query = seq<QueryPair>

  datatype Request = Request(path: string, query: Query, cookies: map<string, string>)

  /** `QueryDict.get(key)`: the LAST value given for `key`, or `None`. */
  function QueryGet(q: Query, key: string): (r: Option<string>)
    ensures r.None? <==> forall i :: 0 <= i < |q| ==> q[i].key != key
    ensures r.Some? ==> exists i :: 0 <= i < |q| && q[i] == QueryPair(key, r.value)
                                    && forall j :: i < j < |q| ==> q[j].key != key
  {
    if q == [] then None
    else
      var later := QueryGet(q[1..], key);
      if later.Some? then
        assert exists i :: 0 <= i < |q| && q[i] == QueryPair(key, later.value)
                           && forall j :: i < j < |q| ==> q[j].key != key by {
          var i :| 0 <= i < |q[1..]| && q[1..][i] == QueryPair(key, later.value)
                   && forall j :: i < j < |q[1..]| ==> q[1..][j].key != key;
          assert forall j :: i + 1 < j < |q| ==> q[j] == q[1..][j - 1];
        }
        later
      else if q[0].key == key then Some(q[0].value)
      else None
  }

  /** `query_dict.pop(key)` on a copy: every occurrence of `key` goes, the rest stays in order. */
  function RemoveKey(q: Query, key: string): (r: Query)
    ensures |r| <= |q|
    ensures forall p :: p in r <==> p in q && p.key != key
  {
    if q == [] then []
    else if q[0].key == key then RemoveKey(q[1..], key)
    else [q[0]] + RemoveKey(q[1..], key)
  }

  /** Removing a key works occurrence by occurrence, so it splits over concatenation (order is kept). */
  lemma {:induction false} RemoveKeyAppend(a: Query, b: Query, key: string)
    ensures RemoveKey(a + b, key) == RemoveKey(a, key) + RemoveKey(b, key)
  {
    if a != [] {
      assert (a + b)[0] == a[0] && (a + b)[1..] == a[1..] + b;
      RemoveKeyAppend(a[1..], b, key);
      if a[0].key != key {
        assert [a[0]] + (RemoveKey(a[1..], key) + RemoveKey(b, key))
            == ([a[0]] + RemoveKey(a[1..], key)) + RemoveKey(b, key);
      }
    } else {
      assert a + b == b;
    }
  }

  /** A query without the key is left exactly as it was. */
  lemma {:induction false} RemoveAbsentKey(q: Query, key: string)
    requires forall i :: 0 <= i < |q| ==> q[i].key != key
    ensures RemoveKey(q, key) == q
  {
    if q != [] {
      RemoveAbsentKey(q[1..], key);
      assert [q[0]] + q[1..] == q;
    }
  }

  /** After the removal the key is gone: `get` finds nothing. */
  lemma RemovedKeyIsAbsent(q: Query, key: string)
    ensures QueryGet(RemoveKey(q, key), key).None?
  {
    var r := RemoveKey(q, key);
    forall i | 0 <= i < |r| ensures r[i].key != key {
      assert r[i] in r;
    }
  }

  /** Every other key answers `get` exactly as before the removal. */
  lemma {:induction false} RemoveKeyKeepsOthers(q: Query, key: string, other: string)
    requires other != key
    ensures QueryGet(RemoveKey(q, key), other) == QueryGet(q, other)
  {
    if q != [] {
      RemoveKeyKeepsOthers(q[1..], key, other);
      if q[0].key != key {
        var r := RemoveKey(q, key);
        assert r[0] == q[0] && r[1..] == RemoveKey(q[1..], key);
      }
    }
  }
}
