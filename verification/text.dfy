/** Joining strings into a comma-separated list the way the instruction
    formatter does (", " between items) and splitting such a list back. */
module Text {

  import opened Wrappers

  /** `c` does not occur in `s`. */
  predicate Free(s: string, c: char)
  {
    forall k | 0 <= k < |s| :: s[k] != c
  }

  /** The position of the first `c` in `s`, if any. */
  function IndexOf(s: string, c: char): (r: Option<nat>)
    ensures r.None? <==> Free(s, c)
    ensures r.Some? ==> r.value < |s| && s[r.value] == c && Free(s[..r.value], c)
  {
    if |s| == 0 then None
    else if s[0] == c then Some(0)
    else
      match IndexOf(s[1..], c)
      case None => None
      case Some(i) => Some(i + 1)
  }

  /** The first `c` in `x + [c] + y` is the one after `x` when `x` has
      none. */
  lemma IndexOfAfter(x: string, c: char, y: string)
    requires Free(x, c)
    ensures IndexOf(x + [c] + y, c) == Some(|x|)
  {
    assert (x + [c] + y)[|x|] == c;
  }

  /** Items separated by ", ", as Rust's `write!` lays out operands. */
  function CommaList(items: seq<string>): string
    requires 0 < |items|
  {
    if |items| == 1 then items[0] else items[0] + ", " + CommaList(items[1..])
  }

  /** A two-item list is the items around one ", ". */
  lemma CommaListOfTwo(a: string, b: string)
    ensures CommaList([a, b]) == a + ", " + b
  {
    assert [a, b][1..] == [b];
  }

  /** A three-item list is the items around two ", ". */
  lemma CommaListOfThree(a: string, b: string, c: string)
    ensures CommaList([a, b, c]) == a + ", " + (b + ", " + c)
  {
    assert [a, b, c][1..] == [b, c];
    CommaListOfTwo(b, c);
  }

  /** Splits at each ", "; a comma not followed by a space is malformed. */
  function SplitCommaList(s: string): (items: Option<seq<string>>)
    ensures items.Some? ==> 0 < |items.value|
    decreases |s|
  {
    match IndexOf(s, ',')
    case None => Some([s])
    case Some(i) =>
      if i + 1 < |s| && s[i + 1] == ' ' then
        match SplitCommaList(s[i + 2..])
        case Some(rest) => Some([s[..i]] + rest)
        case None => None
      else None
  }

  /** Splitting a comma list gives back its items, when no item holds a
      comma. */
  lemma {:induction false} CommaListRoundTrip(items: seq<string>)
    requires 0 < |items|
    requires forall k | 0 <= k < |items| :: Free(items[k], ',')
    ensures SplitCommaList(CommaList(items)) == Some(items)
  {
    if |items| > 1 {
      var rest := CommaList(items[1..]);
      assert items[0] + ", " + rest == items[0] + [','] + (" " + rest);
      IndexOfAfter(items[0], ',', " " + rest);
      var s := CommaList(items);
      assert s[|items[0]| + 2..] == rest;
      assert s[..|items[0]|] == items[0];
      CommaListRoundTrip(items[1..]);
      assert [items[0]] + items[1..] == items;
    } else {
      assert items == [items[0]];
    }
  }
}
