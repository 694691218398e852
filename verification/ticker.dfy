/** The per-currency quote record and the text segment printed for it. */
module Ticker {

  /** One quote as the provider's ticker endpoint returns it (USD figures). */
  datatype Ticker = Ticker(
    id: int,
    name: string,
    symbol: string,
    websiteSlug: string,
    rank: int,
    circulatingSupply: real,
    totalSupply: real,
    maxSupply: real,
    price: real,
    volume24H: real,
    marketCap: real,
    percentChange1H: real,
    percentChange24H: real,
    percentChange7D: real,
    lastUpdated: int)

  /** The segment for one quote. `fixed2` stands for Go's `%.2f` rendering of a number.
      The change is followed by the two characters `%%`, since they are substituted
      through a `%s` verb and so are not unescaped. */
  function Segment(t: Ticker, fixed2: real -> string): string {
    t.symbol + ": $" + fixed2(t.price) + " (" + fixed2(t.percentChange24H) + "%%)\t"
  }

  /** All segments, one per quote, in order. */
  function Render(quotes: seq<Ticker>, fixed2: real -> string): string
  {
    if |quotes| == 0 then "" else Render(quotes[..|quotes| - 1], fixed2) + Segment(quotes[|quotes| - 1], fixed2)
  }

  /** Rendering distributes over concatenation of quote lists. */
  lemma {:induction false} RenderAppend(a: seq<Ticker>, b: seq<Ticker>, fixed2: real -> string)
    ensures Render(a + b, fixed2) == Render(a, fixed2) + Render(b, fixed2)
  {
    if |b| > 0 {
      var b' := b[..|b| - 1];
      assert (a + b)[..|a + b| - 1] == a + b';
      RenderAppend(a, b', fixed2);
    } else {
      assert a + b == a;
    }
  }

  /** Number of tab characters in `s`. */
  function Tabs(s: string): nat {
    if |s| == 0 then 0 else Tabs(s[..|s| - 1]) + (if s[|s| - 1] == '\t' then 1 else 0)
  }

  lemma {:induction false} TabsAppend(a: string, b: string)
    ensures Tabs(a + b) == Tabs(a) + Tabs(b)
  {
    if |b| > 0 {
      assert (a + b)[..|a + b| - 1] == a + b[..|b| - 1];
      TabsAppend(a, b[..|b| - 1]);
    } else {
      assert a + b == a;
    }
  }

  /** When neither the symbols nor the number renderings hold a tab, the rendered
      line holds exactly one tab per quote: one segment each and nothing else. */
  lemma {:induction false} RenderOneSegmentPerQuote(quotes: seq<Ticker>, fixed2: real -> string)
    requires forall i :: 0 <= i < |quotes| ==> '\t' !in quotes[i].symbol
    requires forall x :: '\t' !in fixed2(x)
    ensures Tabs(Render(quotes, fixed2)) == |quotes|
  {
    if |quotes| > 0 {
      var init := quotes[..|quotes| - 1];
      var q := quotes[|quotes| - 1];
      RenderOneSegmentPerQuote(init, fixed2);
      var head := q.symbol + ": $" + fixed2(q.price) + " (" + fixed2(q.percentChange24H) + "%%)";
      assert Segment(q, fixed2) == head + "\t";
      NoTabCount(q.symbol);
      NoTabCount(fixed2(q.price));
      NoTabCount(fixed2(q.percentChange24H));
      TabsAppend(q.symbol, ": $");
      TabsAppend(q.symbol + ": $", fixed2(q.price));
      TabsAppend(q.symbol + ": $" + fixed2(q.price), " (");
      TabsAppend(q.symbol + ": $" + fixed2(q.price) + " (", fixed2(q.percentChange24H));
      TabsAppend(q.symbol + ": $" + fixed2(q.price) + " (" + fixed2(q.percentChange24H), "%%)");
      TabsAppend(head, "\t");
      TabsAppend(Render(init, fixed2), Segment(q, fixed2));
    }
  }

  lemma {:induction false} NoTabCount(s: string)
    requires '\t' !in s
    ensures Tabs(s) == 0
  {
    if |s| > 0 {
      assert s[|s| - 1] in s;
      assert forall c :: c in s[..|s| - 1] ==> c in s;
      NoTabCount(s[..|s| - 1]);
    }
  }
}
