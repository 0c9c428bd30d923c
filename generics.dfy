/**
 * The generics, traits and lifetimes chapter: the generic `largest` over any `PartialOrd`
 * element type, `_longest` by byte length, and the `Summary` trait as `NewsArticle`
 * implements it.
 */
module Generics {
  import opened RustStr

  // ---------------------------------------------------------------------------
  // largest
  // ---------------------------------------------------------------------------

  /**
   * What `PartialOrd` promises of `>`: a strict partial order. No element is greater than
   * itself, and `>` chains.
   */
  ghost predicate StrictOrder<T(!new)>(gt: (T, T) -> bool) {
    (forall x :: !gt(x, x)) &&
    (forall x, y, z :: gt(x, y) && gt(y, z) ==> gt(x, z))
  }

  /** A total `>`: of any two different elements one is greater (i32 and char are such). */
  ghost predicate Connected<T(!new)>(gt: (T, T) -> bool) {
    forall x, y :: x != y ==> gt(x, y) || gt(y, x)
  }

  /**
   * The index `largest` holds after looking at the first n elements: it starts at 0 and
   * moves to an element only when that element is strictly greater than the one held.
   */
  function LargestPrefix<T>(list: seq<T>, gt: (T, T) -> bool, n: nat): (k: nat)
    requires 1 <= n <= |list|
    ensures k < n
    decreases n
  {
    if n == 1 then 0
    else
      var k := LargestPrefix(list, gt, n - 1);
      if gt(list[n - 1], list[k]) then n - 1 else k
  }

  /**
   * When nothing in the list is greater than its first element, `largest` keeps the first
   * element, whatever comes after it: for floats, a list that starts with NaN.
   */
  lemma {:induction false} LargestPrefixKeepsUnbeatenHead<T>(list: seq<T>, gt: (T, T) -> bool, n: nat)
    requires 1 <= n <= |list|
    requires forall j :: 0 <= j < |list| ==> !gt(list[j], list[0])
    ensures LargestPrefix(list, gt, n) == 0
    decreases n
  {
    if n > 1 {
      LargestPrefixKeepsUnbeatenHead(list, gt, n - 1);
    }
  }

  /**
   * `largest`: walks the list from `list[0]` and moves to an element only when it is
   * strictly greater than the one held. The returned reference is modelled by its index.
   * `list[0]` panics on an empty slice. The result is maximal, and it is the first
   * occurrence of its value; under a total order everything before it is strictly smaller,
   * so ties go to the earliest maximum. Under any order the result is the first element
   * unless it is greater than the first element, so a first element that nothing is greater
   * than (a leading NaN among floats) is returned; and the result is exactly the index
   * `LargestPrefix` gives for the whole list.
   */
  method Largest<T(==, !new)>(list: seq<T>, gt: (T, T) -> bool) returns (k: nat)
    requires |list| > 0
    requires StrictOrder(gt)
    ensures k < |list|
    ensures forall j :: 0 <= j < |list| ==> !gt(list[j], list[k])
    ensures forall j :: 0 <= j < k ==> list[j] != list[k]
    ensures Connected(gt) ==> forall j :: 0 <= j < k ==> gt(list[k], list[j])
    ensures k == 0 || gt(list[k], list[0])
    ensures k == LargestPrefix(list, gt, |list|)
  {
    k := 0;
    var i := 0;
    while i < |list|
      invariant 0 <= k <= i <= |list| && k < |list|
      invariant forall j :: 0 <= j < i ==> !gt(list[j], list[k])
      invariant forall j :: 0 <= j < k ==> list[j] != list[k]
      invariant k == 0 || gt(list[k], list[0])
      invariant i == 0 || k == LargestPrefix(list, gt, i)
    {
      if gt(list[i], list[k]) {
        k := i;
      }
      i := i + 1;
    }
  }

  /** `largest(&list)` and `largest(&char_list)` in `main`. */
  method LargestDemo() returns (n: int, c: char)
    ensures n == 6 && c == 'e'
  {
    var list := [1, 2, 3, 4, 5, 6];
    var k := Largest(list, (a: int, b: int) => a > b);
    assert !(list[5] > list[k]);
    n := list[k];
    var chars := ['a', 'b', 'c', 'd', 'e'];
    var m := Largest(chars, (a: char, b: char) => a > b);
    assert !(chars[4] > chars[m]);
    c := chars[m];
  }

  // ---------------------------------------------------------------------------
  // _longest
  // ---------------------------------------------------------------------------

  /**
   * `_longest`: whichever of x and y is longer in UTF-8 bytes (`str::len`); y on a tie.
   * The result is one of the two and at least as long as both.
   */
  function Longest(x: string, y: string): (r: string)
    ensures r == x || r == y
    ensures Utf8Len(r) >= Utf8Len(x) && Utf8Len(r) >= Utf8Len(y)
    ensures Utf8Len(x) <= Utf8Len(y) ==> r == y
  {
    if Utf8Len(x) > Utf8Len(y) then x else y
  }

  /** x is chosen exactly when it is strictly longer in bytes, or when it equals y. */
  lemma LongestPicksX(x: string, y: string)
    ensures Longest(x, y) == x <==> Utf8Len(x) > Utf8Len(y) || x == y
  {
  }

  /** A string never wins against an extension of itself: ties and longer both go to y. */
  lemma LongestPrefersExtension(x: string, y: string)
    ensures Longest(x, x + y) == x + y
  {
    Utf8LenConcat(x, y);
  }

  /**
   * Byte length, not character count, decides: "é" and "a" are one character each, but "é"
   * takes two bytes, so it is chosen although y would win a tie.
   */
  lemma LongestCountsBytes()
    ensures Longest("é", "a") == "é"
  {
    assert Utf8Len("é") == 2 by {
      assert Utf8Len("é"[1..]) == 0 by { assert "é"[1..] == []; }
    }
    assert Utf8Len("a") == 1 by {
      assert Utf8Len("a"[1..]) == 0 by { assert "a"[1..] == []; }
    }
  }

  // ---------------------------------------------------------------------------
  // Summary for NewsArticle
  // ---------------------------------------------------------------------------

  datatype NewsArticle = NewsArticle(author: string, title: string, content: string)

  /**
   * `summarize`: the author, " by ", the title, ": " and the content, in that order and
   * nothing else.
   */
  function Summarize(a: NewsArticle): (r: string)
    ensures |r| == |a.author| + |a.title| + |a.content| + 6
    ensures r[..|a.author|] == a.author
    ensures r[|a.author|..|a.author| + 4] == " by "
    ensures r[|a.author| + 4..|a.author| + 4 + |a.title|] == a.title
    ensures r[|a.author| + 4 + |a.title|..|a.author| + 6 + |a.title|] == ": "
    ensures r[|a.author| + 6 + |a.title|..] == a.content
  {
    a.author + " by " + a.title + ": " + a.content
  }

  /**
   * Once the lengths of author and title are known, the summary determines the article:
   * each part is read back from its position.
   */
  lemma SummarizeInjectiveForFixedLengths(a: NewsArticle, b: NewsArticle)
    requires |a.author| == |b.author| && |a.title| == |b.title|
    requires Summarize(a) == Summarize(b)
    ensures a == b
  {
    var s := Summarize(a);
    assert a.author == s[..|a.author|] == b.author;
    assert a.title == s[|a.author| + 4..|a.author| + 4 + |a.title|] == b.title;
    assert a.content == s[|a.author| + 6 + |a.title|..] == b.content;
  }

  /** `Summary::default`: the same fixed text for every article. */
  function DefaultSummary(a: NewsArticle): (r: string)
    ensures r == "Read more..."
  {
    "Read more..."
  }

  /** The summary of an article given by its three parts. */
  lemma SummaryParts(author: string, title: string, content: string)
    ensures Summarize(NewsArticle(author, title, content)) == author + " by " + title + ": " + content
  {
  }

  /** The pieces of the summary of the article of `main`, joined. */
  lemma DemoSummaryText()
    ensures "John" + " by " + "New Article" + ": " + "Article content"
         == "John by New Article: Article content"
  {
    assert "John" + " by " + "New Article" == "John by New Article";
    assert ": " + "Article content" == ": Article content";
  }

  /** The article of `main` and its summary. */
  lemma SummarizeDemo()
    ensures Summarize(NewsArticle("John", "New Article", "Article content"))
         == "John by New Article: Article content"
  {
    SummaryParts("John", "New Article", "Article content");
    DemoSummaryText();
  }
}
