/** One resolution-and-fetch pass over the working set: the program's `makeOutput`. */
module Output {
  import opened Wrappers
  import opened Ascii
  import opened Directory
  import opened Resolver
  import opened Ticker

  /** What a pass that does not end the process leaves behind. */
  datatype Pass = Pass(
    output: string,               // the concatenated segments
    symbols: seq<string>,         // the working set for the next pass
    fetched: seq<int>,            // the IDs fetched, in call order
    warning: Option<string>)      // the upper-cased symbol reported as not found

  /** A pass either exits the process fatally or continues with a `Pass`. */
  datatype Outcome = Fatal(message: string) | Continue(pass: Pass)

  const NoSymbolsLeft: string := "No symbols left to try"

  /** Every requested symbol resolves. */
  predicate AllResolve(index: Index, syms: seq<string>) {
    forall i :: 0 <= i < |syms| ==> Resolve(index, syms[i]).Some?
  }

  /** Position `k` holds the first symbol that does not resolve. */
  predicate FirstMiss(index: Index, syms: seq<string>, k: int) {
    && 0 <= k < |syms|
    && Resolve(index, syms[k]).None?
    && forall i :: 0 <= i < k ==> Resolve(index, syms[i]).Some?
  }

  /** `s` without its element at position `k`, the rest kept in order. */
  function RemoveAt<T>(s: seq<T>, k: nat): (r: seq<T>)
    requires k < |s|
    ensures |r| == |s| - 1
    ensures forall i :: 0 <= i < k ==> r[i] == s[i]
    ensures forall i :: k <= i < |r| ==> r[i] == s[i + 1]
  {
    s[..k] + s[k + 1..]
  }

  /** The IDs of the symbols before the first one that does not resolve, in order. */
  function ResolvedPrefix(index: Index, syms: seq<string>): (ids: seq<int>)
    ensures |ids| <= |syms|
    ensures forall i :: 0 <= i < |ids| ==> Resolve(index, syms[i]) == Some(ids[i])
    ensures |ids| < |syms| ==> Resolve(index, syms[|ids|]).None?
  {
    if |syms| == 0 then []
    else match Resolve(index, syms[0])
      case None => []
      case Some(id) => [id] + ResolvedPrefix(index, syms[1..])
  }

  /** The resolved prefix covers the whole working set exactly when every symbol
      resolves, and otherwise ends at the first miss. */
  lemma PrefixStopsAtFirstMiss(index: Index, syms: seq<string>)
    ensures |ResolvedPrefix(index, syms)| == |syms| <==> AllResolve(index, syms)
    ensures |ResolvedPrefix(index, syms)| < |syms| ==> FirstMiss(index, syms, |ResolvedPrefix(index, syms)|)
  {
  }

  /** The quotes returned for the given IDs, one call each, in order. */
  function FetchAll(fetch: int -> Ticker, ids: seq<int>): (quotes: seq<Ticker>)
    ensures |quotes| == |ids|
    ensures forall i :: 0 <= i < |ids| ==> quotes[i] == fetch(ids[i])
  {
    seq(|ids|, i requires 0 <= i < |ids| => fetch(ids[i]))
  }

  /** The loop's own way of building the output: starting from `acc`, fetch each ID in
      turn and append its segment. */
  function Accumulate(acc: string, ids: seq<int>, fetch: int -> Ticker, fixed2: real -> string): string
    decreases |ids|
  {
    if |ids| == 0 then acc
    else Accumulate(acc + Segment(fetch(ids[0]), fixed2), ids[1..], fetch, fixed2)
  }

  /** Appending segment by segment to `acc` yields `acc` followed by the rendering of
      all fetched quotes. */
  lemma {:induction false} AccumulateIsRender(acc: string, ids: seq<int>, fetch: int -> Ticker, fixed2: real -> string)
    ensures Accumulate(acc, ids, fetch, fixed2) == acc + Render(FetchAll(fetch, ids), fixed2)
    decreases |ids|
  {
    if |ids| > 0 {
      var q := fetch(ids[0]);
      var rest := FetchAll(fetch, ids[1..]);
      AccumulateIsRender(acc + Segment(q, fixed2), ids[1..], fetch, fixed2);
      assert FetchAll(fetch, ids) == [q] + rest;
      RenderAppend([q], rest, fixed2);
      assert Render([q], fixed2) == Render([], fixed2) + Segment(q, fixed2);
    } else {
      assert FetchAll(fetch, ids) == [];
    }
  }

  /** The pass: walk the working set in order, fetch and render each symbol that
      resolves, and on the first one that does not, drop it from the working set and
      stop. An empty working set afterwards is fatal. */
  function MakeOutput(syms: seq<string>, index: Index, fetch: int -> Ticker, fixed2: real -> string): (o: Outcome)
    ensures o.Fatal? <==> |syms| == 0 || (|syms| == 1 && Resolve(index, syms[0]).None?)
    ensures o.Fatal? ==> o.message == NoSymbolsLeft
    ensures o.Continue? && AllResolve(index, syms) ==>
      o.pass.symbols == syms && o.pass.warning == None && |o.pass.fetched| == |syms|
    ensures o.Continue? && !AllResolve(index, syms) ==>
      exists k :: FirstMiss(index, syms, k)
        && o.pass.symbols == RemoveAt(syms, k)
        && o.pass.warning == Some(ToUpper(syms[k]))
        && |o.pass.fetched| == k
    ensures o.Continue? ==>
      && |o.pass.symbols| > 0
      && (forall i :: 0 <= i < |o.pass.fetched| ==> Resolve(index, syms[i]) == Some(o.pass.fetched[i]))
      && (forall i :: 0 <= i < |o.pass.fetched| ==> o.pass.fetched[i] in index.Values)
      && o.pass.output == Render(FetchAll(fetch, o.pass.fetched), fixed2)
  {
    var ids := ResolvedPrefix(index, syms);
    var k := |ids|;
    var missed := k < |syms|;
    PrefixStopsAtFirstMiss(index, syms);
    var remaining := if missed then RemoveAt(syms, k) else syms;
    if |remaining| == 0 then Fatal(NoSymbolsLeft)
    else
      Continue(Pass(
        Render(FetchAll(fetch, ids), fixed2),
        remaining,
        ids,
        if missed then Some(ToUpper(syms[k])) else None))
  }

  /** A pass removes at most one symbol, and removes one exactly when some symbol misses. */
  lemma PassShrinksByMiss(syms: seq<string>, index: Index, fetch: int -> Ticker, fixed2: real -> string)
    ensures var o := MakeOutput(syms, index, fetch, fixed2);
      o.Continue? ==>
        && |o.pass.symbols| <= |syms|
        && (|o.pass.symbols| == |syms| <==> AllResolve(index, syms))
        && (|o.pass.symbols| == |syms| - 1 <==> !AllResolve(index, syms))
  {
    var o := MakeOutput(syms, index, fetch, fixed2);
    if o.Continue? && !AllResolve(index, syms) {
      var k :| FirstMiss(index, syms, k) && o.pass.symbols == RemoveAt(syms, k);
    }
  }

  /** A pass over a working set in which nothing resolves drops the first symbol,
      fetches nothing and prints nothing; it is fatal when that symbol was the only one. */
  lemma PassAllMissing(syms: seq<string>, index: Index, fetch: int -> Ticker, fixed2: real -> string)
    requires |syms| > 0
    requires forall i :: 0 <= i < |syms| ==> Resolve(index, syms[i]).None?
    ensures var o := MakeOutput(syms, index, fetch, fixed2);
      && (o.Fatal? <==> |syms| == 1)
      && (o.Continue? ==> o.pass.symbols == syms[1..] && o.pass.fetched == [] && o.pass.output == "")
  {
    assert FirstMiss(index, syms, 0);
    var o := MakeOutput(syms, index, fetch, fixed2);
    if o.Continue? {
      var k :| FirstMiss(index, syms, k) && o.pass.symbols == RemoveAt(syms, k) && |o.pass.fetched| == k;
      assert k == 0;
      assert o.pass.fetched == [];
      assert FetchAll(fetch, []) == [];
    }
  }

  /** The output of a continuing pass is what the loop accumulates: the empty string
      extended, for each fetched ID in order, by the segment of its quote. */
  lemma OutputIsLoopAccumulation(syms: seq<string>, index: Index, fetch: int -> Ticker, fixed2: real -> string)
    ensures var o := MakeOutput(syms, index, fetch, fixed2);
      o.Continue? ==> o.pass.output == Accumulate("", o.pass.fetched, fetch, fixed2)
  {
    var o := MakeOutput(syms, index, fetch, fixed2);
    if o.Continue? {
      AccumulateIsRender("", o.pass.fetched, fetch, fixed2);
    }
  }
}
