/** The provider's currency listing and the symbol index built from it at start-up. */
module Directory {

  /** One listing record as the provider returns it. */
  datatype Entry = Entry(id: int, name: string, symbol: string, websiteSlug: string)

  /** Ticker symbol to provider ID. */
  type Index = map<string, int>

  /** Entry `j` is the last one in the listing whose symbol is `key`. */
  predicate IsLastWith(entries: seq<Entry>, j: int, key: string) {
    && 0 <= j < |entries|
    && entries[j].symbol == key
    && forall i :: j < i < |entries| ==> entries[i].symbol != key
  }

  /** `m` is the index of `entries` under last-write-wins: its keys are exactly the listed
      symbols, and each maps to the ID of the last entry carrying it. */
  ghost predicate IndexesLastWins(entries: seq<Entry>, m: Index) {
    && (forall k :: k in m <==> exists i :: 0 <= i < |entries| && entries[i].symbol == k)
    && (forall k :: k in m ==> exists j :: IsLastWith(entries, j, k) && m[k] == entries[j].id)
  }

  /** Folds the listing into the index, in listing order, so a repeated symbol keeps
      the ID of its last entry. Symbols are used exactly as listed. */
  function BuildIndex(entries: seq<Entry>): (m: Index)
    ensures IndexesLastWins(entries, m)
  {
    if |entries| == 0 then map[]
    else
      var last := entries[|entries| - 1];
      var prev := BuildIndex(entries[..|entries| - 1]);
      IndexStep(entries, prev);
      prev[last.symbol := last.id]
  }

  /** Adding the last entry to the index of the others gives the index of all of them. */
  lemma IndexStep(entries: seq<Entry>, prev: Index)
    requires |entries| > 0
    requires IndexesLastWins(entries[..|entries| - 1], prev)
    ensures IndexesLastWins(entries, prev[entries[|entries| - 1].symbol := entries[|entries| - 1].id])
  {
    var n := |entries| - 1;
    var init := entries[..n];
    var last := entries[n];
    var m := prev[last.symbol := last.id];
    forall k | k in m
      ensures exists i :: 0 <= i < |entries| && entries[i].symbol == k
      ensures exists j :: IsLastWith(entries, j, k) && m[k] == entries[j].id
    {
      if k == last.symbol {
        assert IsLastWith(entries, n, k);
      } else {
        var j :| IsLastWith(init, j, k) && prev[k] == init[j].id;
        assert IsLastWith(entries, j, k);
      }
    }
    forall k | exists i :: 0 <= i < |entries| && entries[i].symbol == k
      ensures k in m
    {
      var i :| 0 <= i < |entries| && entries[i].symbol == k;
      if i < n {
        assert init[i].symbol == k;
      }
    }
  }

  /** Last write wins: the key of an entry that no later entry repeats maps to that entry's ID. */
  lemma LastWriteWins(entries: seq<Entry>, j: int)
    requires 0 <= j < |entries|
    requires forall i :: j < i < |entries| ==> entries[i].symbol != entries[j].symbol
    ensures BuildIndex(entries)[entries[j].symbol] == entries[j].id
  {
    var k := entries[j].symbol;
    var m := BuildIndex(entries);
    assert k in m;
    var j' :| IsLastWith(entries, j', k) && m[k] == entries[j'].id;
    if j' < j {
      assert false;
    } else if j < j' {
      assert false;
    }
  }
}
