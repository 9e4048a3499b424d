/** Separator joins, as `string.Join` does them, and the split that undoes them. */
module Text {
  import opened Symbols

  /** The items with `sep` between consecutive ones; "" for no items. */
  function Join(items: seq<string>, sep: char): (r: string)
    ensures |items| == 1 ==> r == items[0]
    ensures |r| == SumLengths(items) + (if |items| == 0 then 0 else |items| - 1)
  {
    if |items| == 0 then ""
    else if |items| == 1 then items[0]
    else items[0] + [sep] + Join(items[1..], sep)
  }

  function SumLengths(items: seq<string>): nat
  {
    if |items| == 0 then 0 else |items[0]| + SumLengths(items[1..])
  }

  /** The pieces of `s` between occurrences of `sep`; always at least one piece. */
  function SplitAll(s: string, sep: char): (r: seq<string>)
    ensures |r| >= 1
  {
    if |s| == 0 then [""]
    else if s[0] == sep then [""] + SplitAll(s[1..], sep)
    else
      var rest := SplitAll(s[1..], sep);
      [[s[0]] + rest[0]] + rest[1..]
  }

  /** Split that maps the empty text to no pieces at all. */
  function Split(s: string, sep: char): seq<string>
  {
    if s == "" then [] else SplitAll(s, sep)
  }

  predicate Free(s: string, sep: char)
  {
    forall i :: 0 <= i < |s| ==> s[i] != sep
  }

  lemma {:induction false} SplitAllFree(x: string, sep: char)
    requires Free(x, sep)
    ensures SplitAll(x, sep) == [x]
  {
    if |x| > 0 {
      SplitAllFree(x[1..], sep);
      assert [x[0]] + x[1..] == x;
    }
  }

  lemma {:induction false} SplitAllPiece(x: string, sep: char, rest: string)
    requires Free(x, sep)
    ensures SplitAll(x + [sep] + rest, sep) == [x] + SplitAll(rest, sep)
  {
    if |x| == 0 {
      assert x + [sep] + rest == [sep] + rest;
      assert ([sep] + rest)[1..] == rest;
    } else {
      var s := x + [sep] + rest;
      assert s[0] == x[0];
      assert s[1..] == x[1..] + [sep] + rest;
      SplitAllPiece(x[1..], sep, rest);
      assert [x[0]] + x[1..] == x;
    }
  }

  /** Splitting a join gives the items back, provided no item holds the
      separator: a joined list of length n has exactly n entries, in order. */
  lemma {:induction false} SplitAllJoin(items: seq<string>, sep: char)
    requires |items| >= 1
    requires forall i :: 0 <= i < |items| ==> Free(items[i], sep)
    ensures SplitAll(Join(items, sep), sep) == items
  {
    if |items| == 1 {
      SplitAllFree(items[0], sep);
    } else {
      SplitAllJoin(items[1..], sep);
      SplitAllPiece(items[0], sep, Join(items[1..], sep));
      assert [items[0]] + items[1..] == items;
    }
  }

  lemma {:induction false} JoinEmpty(items: seq<string>, sep: char)
    requires forall i :: 0 <= i < |items| ==> items[i] != ""
    ensures Join(items, sep) == "" <==> |items| == 0
  {
    if |items| >= 2 {
      assert |Join(items, sep)| >= 1;
    }
  }

  /** The round trip `Split(Join(items)) == items` for separator-free,
      non-empty items, including the empty list. */
  lemma SplitJoin(items: seq<string>, sep: char)
    requires forall i :: 0 <= i < |items| ==> items[i] != "" && Free(items[i], sep)
    ensures Split(Join(items, sep), sep) == items
  {
    JoinEmpty(items, sep);
    if |items| >= 1 {
      SplitAllJoin(items, sep);
    }
  }

  /** A join holds a character only if an item does or it is the separator. */
  lemma {:induction false} JoinFree(items: seq<string>, sep: char, c: char)
    requires sep != c
    requires forall i :: 0 <= i < |items| ==> Free(items[i], c)
    ensures Free(Join(items, sep), c)
  {
    if |items| >= 2 {
      JoinFree(items[1..], sep, c);
      var r := Join(items, sep);
      var rest := Join(items[1..], sep);
      forall i | 0 <= i < |r| ensures r[i] != c {
        if i < |items[0]| { assert r[i] == items[0][i]; }
        else if i > |items[0]| { assert r[i] == rest[i - |items[0]| - 1]; }
      }
    }
  }

  /** The position of the first occurrence of `c` in `s`, if any. */
  function IndexOf(s: string, c: char): (r: Option<nat>)
    ensures r.Some? ==> r.value < |s| && s[r.value] == c && Free(s[..r.value], c)
    ensures r.None? ==> Free(s, c)
  {
    if |s| == 0 then None
    else if s[0] == c then Some(0)
    else match IndexOf(s[1..], c)
      case None => None
      case Some(i) => Some(i + 1)
  }

  /** The text before and after the first `c`. */
  function Cut(s: string, c: char): Option<(string, string)>
  {
    match IndexOf(s, c)
    case None => None
    case Some(i) => Some((s[..i], s[i + 1..]))
  }

  lemma CutAt(x: string, c: char, y: string)
    requires Free(x, c)
    ensures Cut(x + [c] + y, c) == Some((x, y))
  {
    var s := x + [c] + y;
    assert s[|x|] == c;
    var i := IndexOf(s, c).value;
    assert s[..i] == x;
    assert s[i + 1..] == y;
  }

  /** `s` with the fixed `prefix` taken off, if it starts with it. */
  function After(s: string, prefix: string): Option<string>
  {
    if |s| >= |prefix| && s[..|prefix|] == prefix then Some(s[|prefix|..]) else None
  }

  lemma AfterPrefix(prefix: string, rest: string)
    ensures After(prefix + rest, prefix) == Some(rest)
  {
    assert (prefix + rest)[..|prefix|] == prefix;
    assert (prefix + rest)[|prefix|..] == rest;
  }
}
