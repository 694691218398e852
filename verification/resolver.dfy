/** Turning a requested symbol into a provider ID through the symbol index. */
module Resolver {
  import opened Wrappers
  import opened Ascii
  import opened Directory

  /** Looks the upper-cased request up in the index. */
  function Resolve(index: Index, symbol: string): (r: Option<int>)
    ensures r.Some? ==> r.value in index.Values
  {
    var key := ToUpper(symbol);
    if key in index then Some(index[key]) else None
  }

  /** A request resolves exactly when some index key without lower-case letters matches
      it up to letter case, and then it resolves to that key's ID. */
  lemma ResolveMatchesKeyIgnoringCase(index: Index, symbol: string)
    ensures Resolve(index, symbol).Some? <==> exists k :: k in index && NoLower(k) && EqualIgnoringCase(symbol, k)
    ensures forall k :: k in index && NoLower(k) && EqualIgnoringCase(symbol, k) ==> Resolve(index, symbol) == Some(index[k])
  {
    var key := ToUpper(symbol);
    SameUpperIffEqualIgnoringCase(symbol, key);
    ToUpperIdempotent(symbol);
    forall k | k in index && NoLower(k) && EqualIgnoringCase(symbol, k)
      ensures k == key
    {
      SameUpperIffEqualIgnoringCase(symbol, k);
      ToUpperOfNoLower(k);
    }
  }

  /** Requests that differ only in letter case resolve to the same ID, or both fail. */
  lemma ResolveIgnoresCase(index: Index, a: string, b: string)
    requires EqualIgnoringCase(a, b)
    ensures Resolve(index, a) == Resolve(index, b)
  {
    SameUpperIffEqualIgnoringCase(a, b);
  }

  /** `btc` and `BTC` name the same currency. */
  lemma LowerAndUpperRequestAgree(index: Index)
    ensures Resolve(index, "btc") == Resolve(index, "BTC")
  {
    ResolveIgnoresCase(index, "btc", "BTC");
  }

  /** Index keys are not normalised: a currency listed only under a lower-case symbol
      cannot be requested, whatever the request's case. */
  lemma LowerCaseKeyUnreachable(id: int, request: string)
    ensures Resolve(BuildIndex([Entry(id, "Bitcoin", "btc", "bitcoin")]), request) == None
  {
    var index := BuildIndex([Entry(id, "Bitcoin", "btc", "bitcoin")]);
    assert index.Keys == {"btc"};
    assert IsLower("btc"[0]);
  }
}
