# gotick, modelled in Dafny

gotick is a small command-line tool. It prints the USD price and 24-hour change for
a list of cryptocurrency ticker symbols, either once or redrawn on a timer (watch mode).
At start-up it loads the provider's currency listing and folds it into a symbol index
(symbol to provider ID). Then it runs `makeOutput`. That pass walks the requested
symbols (the working set) in order, upper-cases each one and looks it up, fetches a
quote for each symbol that resolves, and appends one text segment per quote. On the
first symbol that does not resolve, it removes that symbol from the working set and
stops the pass. If the working set is then empty, the run ends fatally.

This project models that logic as pure functions over sequences and maps:

- `Ascii`: the ASCII upper-casing used on requests, and what "equal ignoring case" means.
- `SymbolFlag`: the repeatable `-t` flag value (`Set`, `String`) and the default
  working set `BTC ETH BCH`.
- `Directory`: listing entries and the last-write-wins symbol index.
- `Resolver`: looking up a request in the index.
- `Ticker`: the quote record and its output segment.
- `Output`: the `makeOutput` pass. It returns either `Fatal` or the output, the next
  working set, the IDs fetched, and the warning printed.
- `Driver`: start-up, one-shot mode, and the watch loop as a sequence of passes.

The HTTP fetch is a function parameter `fetch` from provider ID to quote. In watch mode
it also takes the pass number, because quotes change between redraws. Go's `%.2f` is a
parameter `fixed2` from number to text.

When a symbol does not resolve, the warning says "Continuing without it..."
(gotick.go:115), but the `break` at gotick.go:118 ends the pass there. So the symbols
after the miss are neither fetched nor shown in that pass. In one-shot mode they are
never shown. A one-shot run with two or more symbols, none of which resolves, prints an
empty line and ends normally (`Driver.OneShotAllMissingPrintsBlank`). In watch mode
the same run ends fatally, on the pass that removes the last symbol
(`Driver.WatchAllMissingHalts`). When the listing repeats a symbol, the last entry
wins (gotick.go:87-89).

## Model

| member | source | states |
|---|---|---|
| `SymbolFlag.Set` | gotick.go:71-74 | the value is appended after the existing entries, which stay unchanged, and the returned error is always nil |
| `SymbolFlag.SetAllKeepsOrder` | gotick.go:71-74 | one `Set` call per `-t` occurrence records every value once, in command-line order |
| `SymbolFlag.SplitString` | gotick.go:67-69 | `String` joins the values with single spaces and loses nothing: splitting it at spaces gives back a non-empty list of space-free values |
| `SymbolFlag.InitialSymbols` | gotick.go:83-85 | the working set is never empty: it is the flag values when any were given, otherwise exactly `BTC`, `ETH`, `BCH` |
| `Directory.BuildIndex` | gotick.go:87-89 | the index keys are exactly the listed symbols, and each key maps to the ID of the last entry with exactly that symbol |
| `Directory.LastWriteWins` | gotick.go:87-89 | an entry whose symbol no later entry repeats decides that symbol's ID, whatever earlier entries said |
| `Ascii.ToUpper` | gotick.go:112 | the result has the request's length, no lower-case letter, and the same letters up to case at every position |
| `Ascii.ToUpperIdempotent` | gotick.go:112 | upper-casing an already upper-cased request changes nothing |
| `Ascii.SameUpperIffEqualIgnoringCase` | gotick.go:112 | two requests have the same upper-case form if and only if they differ only in letter case |
| `Resolver.Resolve` | gotick.go:112-113 | every ID a lookup returns is a value stored in the index |
| `Resolver.ResolveMatchesKeyIgnoringCase` | gotick.go:112-113 | a request resolves if and only if some index key with no lower-case letter equals it up to case, and then it resolves to that key's ID |
| `Resolver.ResolveIgnoresCase` | gotick.go:112-113 | requests that differ only in case resolve to the same ID, or both fail |
| `Resolver.LowerAndUpperRequestAgree` | gotick.go:112-113 | `btc` and `BTC` resolve identically |
| `Resolver.LowerCaseKeyUnreachable` | gotick.go:87-113 | index keys are not normalised: a currency listed only as `btc` cannot be resolved by any request |
| `Ticker.RenderAppend` | gotick.go:121-123 | appending segments in walk order is the same as rendering the concatenated quote list |
| `Ticker.RenderOneSegmentPerQuote` | gotick.go:121-123 | if no symbol or formatted number contains a tab, the output holds exactly one tab-terminated segment per quote |
| `Output.RemoveAt` | gotick.go:116 | the splice removes exactly one element and keeps the others in their original order |
| `Output.ResolvedPrefix` | gotick.go:111-120 | the walk gives, in order, the IDs of the symbols before the first unresolved one, and stops exactly at that symbol |
| `Output.PrefixStopsAtFirstMiss` | gotick.go:111-119 | the walk covers the whole working set if and only if every symbol resolves; otherwise it ends at the first miss |
| `Output.MakeOutput` | gotick.go:108-131 | fatal (`No symbols left to try`) if and only if the set was empty or its only symbol misses; if all resolve, the set is unchanged and every symbol is fetched; otherwise exactly the first miss is removed, the rest keep their order, and that upper-cased symbol is the warning; only the prefix before the miss is fetched, each ID is an index value, and the output is one segment per fetched quote |
| `Output.AccumulateIsRender` | gotick.go:120-123 | appending one segment per fetched ID, in order, to a running string gives that string followed by the rendering of all the fetched quotes |
| `Output.OutputIsLoopAccumulation` | gotick.go:109-123 | a continuing pass's output is what the loop builds: the empty string extended, for each fetched ID in order, by the segment of the quote fetched for it |
| `Output.PassShrinksByMiss` | gotick.go:111-119 | a pass removes at most one symbol; the set keeps its length if and only if every symbol resolves, and loses exactly one otherwise |
| `Output.PassAllMissing` | gotick.go:111-127 | when no symbol resolves, the pass removes the first symbol and fetches and prints nothing; it is fatal if and only if that symbol was the only one |
| `Driver.Step` | gotick.go:92-101 | one watch iteration: a halted run stays halted; it halts, keeping its frames, if and only if the set is empty or its only symbol misses; otherwise it keeps the earlier frames, adds one, and keeps the set when all resolve or shrinks it by one otherwise |
| `Driver.StepIsPass` | gotick.go:93-97 | the frame a continuing iteration adds is the rendering of the quotes fetched during that pass for the resolved prefix; on a miss, exactly the first unresolved symbol leaves the set and the rest keep their order |
| `Driver.WatchFrames` | gotick.go:91-101 | a running watch has one frame per completed pass and never more symbols than it started with; it halts only with `No symbols left to try` |
| `Driver.WatchStep` | gotick.go:91-101 | between consecutive passes the working set stays the same if every symbol resolves, and otherwise loses exactly one symbol |
| `Driver.WatchMonotone` | gotick.go:91-101 | the working-set length never increases across watch passes |
| `Driver.WatchShrinksUntilSettled` | gotick.go:91-127 | until every remaining symbol resolves, each pass removes one symbol |
| `Driver.WatchSettles` | gotick.go:91-127 | after as many passes as there were symbols, the run is fatal or every remaining symbol resolves |
| `Driver.StepAllMissing` | gotick.go:92-127 | a watch iteration over unresolvable symbols drops the first one and shows an empty frame, or halts when it was the last |
| `Driver.WatchAllMissingHalts` | gotick.go:91-127 | in watch mode, if no symbol resolves, pass `n` leaves the symbols from position `n` on, the run halts on the pass that would empty the set, and every frame is empty |
| `Driver.Launch` | gotick.go:80-106 | a non-zero interval selects watch mode over the initial working set and the listing's index; with a zero interval the run exits with `No symbols left to try` if and only if the initial set is a single unresolvable symbol, and otherwise prints the rendering of the quotes of the resolved prefix followed by a newline |
| `Driver.DefaultsNeverFatal` | gotick.go:83-106 | with no `-t` flag, one-shot mode is never fatal |
| `Driver.OneShotAllMissingPrintsBlank` | gotick.go:104-129 | in one-shot mode with two or more symbols, none of which resolves, the program prints just a newline instead of failing |

## Left out

- `getTicker` and `listing.update` (gotick.go:133-167): HTTP requests and JSON decoding. The fetch is a function parameter from ID to `Ticker`. The listing is an input sequence of entries. Transport and decode failures are fatal in the source, and they are not modelled.
- `%.2f` number formatting (gotick.go:121-122): float rounding is a parameter `fixed2`. Prices and changes are `real`, not `float64`.
- The display: `fmt.Println` in one-shot mode, and `goterm` clear, cursor move, `Printf` and flush in watch mode, plus `time.Now`. Watch frames are the raw pass outputs. Watch mode passes the output to `goterm.Printf` as a format string, which turns the segment's literal `%%` into `%`; one-shot `Println` prints `%%` as is. That difference is not modelled.
- `time.Sleep` (gotick.go:100, 117) and the `log` warning output (gotick.go:115): the warning is kept only as the upper-cased symbol in `Pass.warning`.
- Flag registration and parsing by the `flag` package (gotick.go:62, 81-82): `SetAll` stands for the repeated `Set` calls; the `-w` interval is an integer input, and only whether it is zero matters.
- `Ascii.ToUpper`: upper-cases ASCII letters only, unlike Go's full Unicode `strings.ToUpper`. Non-ASCII characters are left unchanged.
- The infinite watch loop (gotick.go:92-101) is modelled as its first `passes` iterations.
- Listing and ticker metadata fields (`timestamp`, `num_cryptocurrencies`, `error`): not read by the program.
- The file-scope globals (gotick.go:60-63) are explicit values passed through the functions.
