/** The repeatable `-t` command-line value: an ordered list of requested ticker symbols. */
module SymbolFlag {
  import opened Wrappers

  type SymbolFlag = seq<string>

  /** What `Set` hands back: the updated list and the error it reports. */
  datatype SetResult = SetResult(flag: SymbolFlag, err: Option<string>)

  /** The symbols asked for when no `-t` flag is given. */
  const DefaultSymbols: seq<string> := ["BTC", "ETH", "BCH"]

  /** One `-t value` occurrence: the value goes to the end and the call never fails. */
  function Set(flag: SymbolFlag, value: string): (r: SetResult)
    ensures r.err == None
    ensures |r.flag| == |flag| + 1
    ensures r.flag[..|flag|] == flag
    ensures r.flag[|flag|] == value
  {
    SetResult(flag + [value], None)
  }

  /** The list after one `Set` call per occurrence of the flag, in command-line order. */
  function SetAll(values: seq<string>): SymbolFlag
  {
    if |values| == 0 then []
    else Set(SetAll(values[..|values| - 1]), values[|values| - 1]).flag
  }

  /** Repeated `Set` calls record every value, once each, in the order given. */
  lemma {:induction false} SetAllKeepsOrder(values: seq<string>)
    ensures SetAll(values) == values
  {
    if |values| > 0 {
      var init := values[..|values| - 1];
      SetAllKeepsOrder(init);
      var r := Set(SetAll(init), values[|values| - 1]);
      assert r.flag == r.flag[..|init|] + [r.flag[|init|]];
      assert values == init + [values[|values| - 1]];
    }
  }

  /** The working set the program starts from: the flag values, or the defaults when there are none. */
  function InitialSymbols(flag: SymbolFlag): (syms: seq<string>)
    ensures |syms| > 0
    ensures |flag| > 0 ==> syms == flag
    ensures |flag| == 0 ==> syms == DefaultSymbols
  {
    if |flag| == 0 then DefaultSymbols else flag
  }

  /** `strings.Join`: the parts with `sep` between neighbours and nowhere else. */
  function Join(parts: seq<string>, sep: string): string
  {
    if |parts| == 0 then ""
    else if |parts| == 1 then parts[0]
    else parts[0] + sep + Join(parts[1..], sep)
  }

  /** The flag's printable form: the values separated by single spaces. */
  function String(flag: SymbolFlag): string
  {
    Join(flag, " ")
  }

  /** Splitting at spaces, the inverse used to state that `String` loses nothing:
      the pieces between spaces, always at least one. */
  function Split(s: string): (parts: seq<string>)
    ensures |parts| >= 1
  {
    if |s| == 0 then [""]
    else
      var rest := Split(s[1..]);
      if s[0] == ' ' then [""] + rest
      else [[s[0]] + rest[0]] + rest[1..]
  }

  predicate NoSpace(s: string) {
    forall i :: 0 <= i < |s| ==> s[i] != ' '
  }

  /** A space-free string splits into itself. */
  lemma {:induction false} SplitNoSpace(a: string)
    requires NoSpace(a)
    ensures Split(a) == [a]
  {
    if |a| > 0 {
      SplitNoSpace(a[1..]);
      assert [a[0]] + a[1..] == a;
    }
  }

  /** Splitting stops at the first space after a space-free head. */
  lemma {:induction false} SplitAtSpace(a: string, b: string)
    requires NoSpace(a)
    ensures Split(a + " " + b) == [a] + Split(b)
  {
    if |a| == 0 {
      assert a + " " + b == [' '] + b;
      assert (a + " " + b)[1..] == b;
    } else {
      var s := a + " " + b;
      assert s[1..] == a[1..] + " " + b;
      SplitAtSpace(a[1..], b);
      assert [a[0]] + a[1..] == a;
    }
  }

  /** `String` loses nothing: splitting it at spaces gives the values back, provided
      there is at least one value and none holds a space. */
  lemma {:induction false} SplitString(flag: SymbolFlag)
    requires |flag| > 0
    requires forall i :: 0 <= i < |flag| ==> NoSpace(flag[i])
    ensures Split(String(flag)) == flag
  {
    if |flag| == 1 {
      SplitNoSpace(flag[0]);
    } else {
      SplitString(flag[1..]);
      SplitAtSpace(flag[0], Join(flag[1..], " "));
      assert flag == [flag[0]] + flag[1..];
    }
  }
}
