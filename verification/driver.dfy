/** The program's driver: start-up, then one pass (one-shot mode) or a pass per
    redraw (watch mode). */
module Driver {
  import opened Wrappers
  import opened Directory
  import opened Resolver
  import opened Ticker
  import opened Output
  import SymbolFlag

  /** Watch mode after some passes: still redrawing, or ended by a fatal error.
      `frames` holds the output of every completed pass, oldest first. */
  datatype WatchState =
    | Running(symbols: seq<string>, frames: seq<string>)
    | Halted(message: string, frames: seq<string>)

  /** The fetch as seen during pass number `pass`. */
  function AtPass(fetch: (nat, int) -> Ticker, pass: nat): int -> Ticker {
    id => fetch(pass, id)
  }

  /** One iteration of the watch loop, the `pass`-th (counting from zero): a pass over
      the current working set, whose output becomes the next frame. A fatal pass ends
      the process, so a halted run stays halted. */
  function Step(index: Index, s: WatchState, fetch: (nat, int) -> Ticker, fixed2: real -> string, pass: nat): (t: WatchState)
    ensures s.Halted? ==> t == s
    ensures t.Halted? <==> s.Halted? || |s.symbols| == 0 || (|s.symbols| == 1 && Resolve(index, s.symbols[0]).None?)
    ensures s.Running? && t.Halted? ==> t.frames == s.frames && t.message == NoSymbolsLeft
    ensures s.Running? && t.Running? ==>
      && |t.frames| == |s.frames| + 1
      && t.frames[..|s.frames|] == s.frames
      && (AllResolve(index, s.symbols) ==> t.symbols == s.symbols)
      && (!AllResolve(index, s.symbols) ==> |t.symbols| == |s.symbols| - 1)

  {
    match s
    case Halted(_, _) => s
    case Running(cur, frames) =>
      var f := AtPass(fetch, pass);
      PassShrinksByMiss(cur, index, f, fixed2);
      match MakeOutput(cur, index, f, fixed2)
      case Fatal(m) => Halted(m, frames)
      case Continue(p) => Running(p.symbols, frames + [p.output])
  }

  /** What a continuing watch iteration draws and keeps is the pass's own result: the
      new frame renders the quotes of the resolved prefix, fetched during this pass,
      and on a miss exactly the first unresolved symbol leaves the working set. */
  lemma StepIsPass(index: Index, s: WatchState, fetch: (nat, int) -> Ticker, fixed2: real -> string, pass: nat)
    ensures var t := Step(index, s, fetch, fixed2, pass);
      s.Running? && t.Running? ==>
        && t.frames == s.frames + [Render(FetchAll(AtPass(fetch, pass), ResolvedPrefix(index, s.symbols)), fixed2)]
        && (AllResolve(index, s.symbols) ==> t.symbols == s.symbols)
        && (!AllResolve(index, s.symbols) ==>
              exists k :: FirstMiss(index, s.symbols, k) && t.symbols == RemoveAt(s.symbols, k))
  {
  }

  /** The first `passes` iterations of the watch loop. Quotes may change over time,
      so `fetch` also takes the number of the pass it is called in. */
  function Watch(index: Index, syms: seq<string>, fetch: (nat, int) -> Ticker, fixed2: real -> string, passes: nat): WatchState
  {
    if passes == 0 then Running(syms, [])
    else Step(index, Watch(index, syms, fetch, fixed2, passes - 1), fetch, fixed2, passes - 1)
  }

  /** A watch run keeps one frame per completed pass, never holds more symbols than it
      started with, and only halts for lack of symbols. */
  lemma {:induction false} WatchFrames(index: Index, syms: seq<string>, fetch: (nat, int) -> Ticker, fixed2: real -> string, n: nat)
    ensures var s := Watch(index, syms, fetch, fixed2, n);
      && (s.Running? ==> |s.frames| == n && |s.symbols| <= |syms|)
      && (s.Halted? ==> |s.frames| < n && s.message == NoSymbolsLeft)
  {
    hide Step, Render, FetchAll, ResolvedPrefix, AllResolve;
    if n > 0 {
      WatchFrames(index, syms, fetch, fixed2, n - 1);
    }
  }

  /** One more pass never grows the working set, shrinks it by exactly one when a
      symbol misses, and leaves it alone when all resolve. */
  lemma WatchStep(index: Index, syms: seq<string>, fetch: (nat, int) -> Ticker, fixed2: real -> string, n: nat)
    ensures var before := Watch(index, syms, fetch, fixed2, n);
      var after := Watch(index, syms, fetch, fixed2, n + 1);
      after.Running? ==>
        && before.Running?
        && (AllResolve(index, before.symbols) ==> after.symbols == before.symbols)
        && (!AllResolve(index, before.symbols) ==> |after.symbols| == |before.symbols| - 1)
  {
    hide Step, Render, FetchAll, ResolvedPrefix, AllResolve;
  }

  /** Across passes the working set never grows. */
  lemma {:induction false} WatchMonotone(index: Index, syms: seq<string>, fetch: (nat, int) -> Ticker, fixed2: real -> string, m: nat, n: nat)
    requires m <= n
    ensures var later := Watch(index, syms, fetch, fixed2, n);
      later.Running? ==>
        Watch(index, syms, fetch, fixed2, m).Running?
        && |later.symbols| <= |Watch(index, syms, fetch, fixed2, m).symbols|
  {
    hide Step, Render, FetchAll, ResolvedPrefix, AllResolve;
    if m < n {
      WatchMonotone(index, syms, fetch, fixed2, m, n - 1);
      WatchStep(index, syms, fetch, fixed2, n - 1);
    }
  }

  /** Until the working set settles, every pass removes one symbol. */
  lemma {:induction false} WatchShrinksUntilSettled(index: Index, syms: seq<string>, fetch: (nat, int) -> Ticker, fixed2: real -> string, n: nat)
    ensures var s := Watch(index, syms, fetch, fixed2, n);
      s.Running? ==> AllResolve(index, s.symbols) || |s.symbols| <= |syms| - n
  {
    hide Step, Render, FetchAll, ResolvedPrefix, AllResolve;
    if n > 0 {
      WatchShrinksUntilSettled(index, syms, fetch, fixed2, n - 1);
      WatchStep(index, syms, fetch, fixed2, n - 1);
    }
  }

  /** After as many passes as there were symbols, the run has either died or reached a
      working set in which every symbol resolves, which later passes keep unchanged. */
  lemma WatchSettles(index: Index, syms: seq<string>, fetch: (nat, int) -> Ticker, fixed2: real -> string, n: nat)
    requires n >= |syms|
    ensures var s := Watch(index, syms, fetch, fixed2, n);
      s.Halted? || AllResolve(index, s.symbols)
  {
    hide Step, Render, FetchAll, ResolvedPrefix;
    WatchShrinksUntilSettled(index, syms, fetch, fixed2, n);
  }

  /** A pass in a run where nothing resolves drops the first symbol and adds an empty
      frame, or halts when that symbol was the last. */
  lemma StepAllMissing(index: Index, s: WatchState, fetch: (nat, int) -> Ticker, fixed2: real -> string, pass: nat)
    requires s.Running? && |s.symbols| > 0
    requires forall i :: 0 <= i < |s.symbols| ==> Resolve(index, s.symbols[i]).None?
    ensures var t := Step(index, s, fetch, fixed2, pass);
      && (t.Halted? <==> |s.symbols| == 1)
      && (t.Running? ==> t.symbols == s.symbols[1..] && t.frames == s.frames + [""])
  {
    PassAllMissing(s.symbols, index, AtPass(fetch, pass), fixed2);
  }

  /** In watch mode a working set in which nothing resolves loses its first symbol on
      each pass, dies on the pass that would empty it, and shows only empty frames. */
  lemma {:induction false} WatchAllMissingHalts(index: Index, syms: seq<string>, fetch: (nat, int) -> Ticker, fixed2: real -> string, n: nat)
    requires forall i :: 0 <= i < |syms| ==> Resolve(index, syms[i]).None?
    ensures var s := Watch(index, syms, fetch, fixed2, n);
      && (n < |syms| ==> s.Running? && s.symbols == syms[n..])
      && (n > 0 && n >= |syms| ==> s.Halted?)
      && (forall i :: 0 <= i < |s.frames| ==> s.frames[i] == "")
  {
    hide Step, Resolve;
    if n > 0 {
      WatchAllMissingHalts(index, syms, fetch, fixed2, n - 1);
      var before := Watch(index, syms, fetch, fixed2, n - 1);
      if before.Running? && |before.symbols| > 0 {
        var cur := before.symbols;
        assert cur == syms[n - 1..];
        assert forall i :: 0 <= i < |cur| ==> cur[i] == syms[n - 1 + i];
        StepAllMissing(index, before, fetch, fixed2, n - 1);
        assert cur[1..] == syms[n..];
      }
    }
  }

  /** The whole program run: the working set from the `-t` values (or the defaults),
      the index from the listing, then watch mode when the interval is non-zero and a
      single printed line otherwise. */
  datatype Run =
    | Printed(text: string)
    | Exited(message: string)
    | Watched(state: WatchState)

  function Launch(flag: SymbolFlag.SymbolFlag, entries: seq<Entry>, interval: int,
                  fetch: (nat, int) -> Ticker, fixed2: real -> string, passes: nat): (r: Run)
    ensures r.Watched? <==> interval != 0
    ensures r.Watched? ==> r.state == Watch(BuildIndex(entries), SymbolFlag.InitialSymbols(flag), fetch, fixed2, passes)
    ensures var syms := SymbolFlag.InitialSymbols(flag);
      var index := BuildIndex(entries);
      && (interval == 0 ==> (r.Exited? <==> |syms| == 1 && Resolve(index, syms[0]).None?))
      && (r.Printed? ==> r.text == Render(FetchAll(AtPass(fetch, 0), ResolvedPrefix(index, syms)), fixed2) + "\n")
    ensures r.Exited? ==> r.message == NoSymbolsLeft
  {
    var syms := SymbolFlag.InitialSymbols(flag);
    var index := BuildIndex(entries);
    if interval != 0 then Watched(Watch(index, syms, fetch, fixed2, passes))
    else match MakeOutput(syms, index, AtPass(fetch, 0), fixed2)
      case Fatal(m) => Exited(m)
      case Continue(p) => Printed(p.output + "\n")
  }

  /** With no `-t` flag the single pass of one-shot mode is never fatal: three
      default symbols cannot all be removed by one pass. */
  lemma DefaultsNeverFatal(entries: seq<Entry>, fetch: (nat, int) -> Ticker, fixed2: real -> string, passes: nat)
    ensures !Launch([], entries, 0, fetch, fixed2, passes).Exited?
  {
  }

  /** One-shot mode only ends fatally when a single requested symbol fails to resolve;
      with two or more symbols none of which resolves it prints an empty line. */
  lemma OneShotAllMissingPrintsBlank(flag: SymbolFlag.SymbolFlag, entries: seq<Entry>,
                                      fetch: (nat, int) -> Ticker, fixed2: real -> string, passes: nat)
    requires |flag| >= 2
    requires forall i :: 0 <= i < |flag| ==> Resolve(BuildIndex(entries), flag[i]).None?
    ensures Launch(flag, entries, 0, fetch, fixed2, passes) == Printed("\n")
  {
    var index := BuildIndex(entries);
    PrefixStopsAtFirstMiss(index, flag);
    assert FirstMiss(index, flag, 0);
  }
}
