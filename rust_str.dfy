/**
 * The parts of Rust's `str` API that the modelled code relies on, over Dafny strings
 * (sequences of Unicode scalar values):
 *   - `contains` with a string pattern,
 *   - `lines`,
 *   - `len` (the length of the UTF-8 encoding, in bytes),
 *   - `split_whitespace`,
 *   - `to_lowercase`, restricted to ASCII input.
 */
module RustStr {

  // ---------------------------------------------------------------------------
  // contains
  // ---------------------------------------------------------------------------

  /** The needle occurs in the haystack starting at offset i. */
  ghost predicate OccursAt(hay: string, needle: string, i: int) {
    0 <= i && i + |needle| <= |hay| && hay[i..i + |needle|] == needle
  }

  /**
   * The first m characters of the needle occur in the haystack at offset i.
   * Compared from the m-th character down, so that literal arguments unfold completely.
   */
  predicate PrefixAt(hay: string, needle: string, i: nat, m: nat)
    requires m <= |needle| && i + |needle| <= |hay|
    decreases m
  {
    m == 0 || (hay[i + m - 1] == needle[m - 1] && PrefixAt(hay, needle, i, m - 1))
  }

  /** The needle, whose length is m, occurs at some offset below k. */
  predicate OccursBelow(hay: string, needle: string, k: nat, m: nat)
    requires m == |needle| && k + m <= |hay| + 1
    decreases k
  {
    k > 0 && (PrefixAt(hay, needle, k - 1, m) || OccursBelow(hay, needle, k - 1, m))
  }

  /**
   * `hay.contains(needle)`: a search of every offset where the needle fits. A needle longer
   * than the haystack is never found, and the empty needle always is.
   */
  predicate Contains(hay: string, needle: string)
    ensures Contains(hay, needle) ==> |needle| <= |hay|
    ensures needle == [] ==> Contains(hay, needle)
  {
    |needle| <= |hay| && OccursBelow(hay, needle, |hay| - |needle| + 1, |needle|)
  }

  /** `PrefixAt` compares the first m characters of the needle with the haystack at i. */
  lemma {:induction false} PrefixAtIff(hay: string, needle: string, i: nat, m: nat)
    requires m <= |needle| && i + |needle| <= |hay|
    ensures PrefixAt(hay, needle, i, m) <==> hay[i..i + m] == needle[..m]
    decreases m
  {
    if m > 0 {
      PrefixAtIff(hay, needle, i, m - 1);
      assert hay[i..i + m] == hay[i..i + m - 1] + [hay[i + m - 1]];
      assert needle[..m] == needle[..m - 1] + [needle[m - 1]];
    }
  }

  /** `OccursBelow` finds the needle exactly when it occurs at some offset below k. */
  lemma {:induction false} OccursBelowIff(hay: string, needle: string, k: nat)
    requires k + |needle| <= |hay| + 1
    ensures OccursBelow(hay, needle, k, |needle|) <==> exists i :: 0 <= i < k && OccursAt(hay, needle, i)
    decreases k
  {
    if k > 0 {
      OccursBelowIff(hay, needle, k - 1);
      PrefixAtIff(hay, needle, k - 1, |needle|);
      assert needle[..|needle|] == needle;
      if OccursAt(hay, needle, k - 1) {
        assert exists i :: 0 <= i < k && OccursAt(hay, needle, i);
      }
    }
  }

  /** `contains` finds the needle exactly when it occurs at some offset. */
  lemma ContainsIff(hay: string, needle: string)
    ensures Contains(hay, needle) <==> exists i :: OccursAt(hay, needle, i)
  {
    if |needle| <= |hay| {
      OccursBelowIff(hay, needle, |hay| - |needle| + 1);
    }
  }

  /** An empty needle is contained in every string, the empty one included. */
  lemma ContainsEmptyNeedle(hay: string)
    ensures Contains(hay, [])
  {
    ContainsIff(hay, []);
    assert OccursAt(hay, [], 0);
  }

  /** A needle whose first character never appears in the haystack is not contained in it. */
  lemma NotContainedWithoutFirstChar(hay: string, needle: string)
    requires needle != [] && needle[0] !in hay
    ensures !Contains(hay, needle)
  {
    ContainsIff(hay, needle);
    forall i | 0 <= i && i + |needle| <= |hay| ensures !OccursAt(hay, needle, i) {
      assert hay[i..i + |needle|][0] == hay[i];
    }
  }

  // ---------------------------------------------------------------------------
  // lines
  // ---------------------------------------------------------------------------

  /** The offset of the first line feed in s, or |s| when s holds none. */
  function NewlineIndex(s: string): (i: nat)
    ensures i <= |s|
    ensures i < |s| ==> s[i] == '\n'
    ensures forall j :: 0 <= j < i ==> s[j] != '\n'
  {
    if s == [] || s[0] == '\n' then 0 else 1 + NewlineIndex(s[1..])
  }

  predicate EndsWithCarriageReturn(line: string) {
    |line| > 0 && line[|line| - 1] == '\r'
  }

  /** `line.strip_suffix('\r')`, or the line itself when it has no such suffix. */
  function StripCarriageReturn(line: string): string {
    if EndsWithCarriageReturn(line) then line[..|line| - 1] else line
  }

  /**
   * `s.lines()`: the text is cut after every line feed; a line cut this way loses its
   * line feed and then one carriage return before it, if any. A last line without a line
   * feed is kept as it is, and a final line feed does not start an extra, empty line.
   */
  function Lines(s: string): (ls: seq<string>)
    ensures |ls| == 0 <==> |s| == 0
    ensures forall k :: 0 <= k < |ls| ==> '\n' !in ls[k]
    decreases |s|
  {
    if s == [] then []
    else
      var i := NewlineIndex(s);
      if i == |s| then [s]
      else [StripCarriageReturn(s[..i])] + Lines(s[i + 1..])
  }

  /** A line ended by a line feed is the first line, minus a carriage return before the line feed. */
  lemma {:induction false} LinesOfTerminatedLine(line: string, rest: string)
    requires '\n' !in line
    ensures Lines(line + "\n" + rest) == [StripCarriageReturn(line)] + Lines(rest)
  {
    var s := line + "\n" + rest;
    assert s[..|line|] == line;
    assert s[|line|] == '\n';
    assert s[|line| + 1..] == rest;
    var i := NewlineIndex(s);
    assert forall j :: 0 <= j < |line| ==> s[j] == line[j];
    assert i == |line|;
  }

  /** A non-empty text without a line feed is a single line, kept as it is. */
  lemma {:induction false} LinesOfUnterminatedLine(line: string)
    requires line != [] && '\n' !in line
    ensures Lines(line) == [line]
  {
    var i := NewlineIndex(line);
    assert i == |line|;
  }

  /**
   * There is one line per line feed, plus one for a last line that no line feed ends:
   * the line numbers 1..|Lines(s)| count the physical lines of s.
   */
  lemma {:induction false} LineCount(s: string)
    ensures |Lines(s)| == multiset(s)['\n'] + (if s != [] && s[|s| - 1] != '\n' then 1 else 0)
    decreases |s|
  {
    if s != [] {
      var i := NewlineIndex(s);
      if i == |s| {
        assert s[..i] == s;
      } else {
        LineCount(s[i + 1..]);
        NewlinesAfterFirst(s, i);
      }
    }
  }

  /** Cutting s after its first line feed, at i, removes one line feed and keeps the last character. */
  lemma NewlinesAfterFirst(s: string, i: nat)
    requires i < |s| && s[i] == '\n' && '\n' !in s[..i]
    ensures multiset(s)['\n'] == multiset(s[i + 1..])['\n'] + 1
    ensures s[i + 1..] != [] ==> s[|s| - 1] == s[i + 1..][|s[i + 1..]| - 1]
    ensures s[i + 1..] == [] ==> s[|s| - 1] == '\n'
  {
    var rest := s[i + 1..];
    assert s == s[..i] + [s[i]] + rest;
    assert multiset(s) == multiset(s[..i]) + multiset{'\n'} + multiset(rest);
  }

  /** The text of the lines ls, each followed by the line ending `ending`. */
  function JoinLines(ls: seq<string>, ending: string): string {
    if ls == [] then [] else ls[0] + ending + JoinLines(ls[1..], ending)
  }

  /**
   * `lines` reads back the lines it was given, whether each ends in "\n" or in "\r\n"; with
   * "\n" endings a line may not itself end in a carriage return, which `lines` would strip.
   */
  lemma {:induction false} LinesOfJoinLines(ls: seq<string>, ending: string)
    requires ending == "\n" || ending == "\r\n"
    requires forall k :: 0 <= k < |ls| ==> '\n' !in ls[k]
    requires ending == "\n" ==> forall k :: 0 <= k < |ls| ==> !EndsWithCarriageReturn(ls[k])
    ensures Lines(JoinLines(ls, ending)) == ls
    decreases |ls|
  {
    if ls != [] {
      var l, tail := ls[0], JoinLines(ls[1..], ending);
      LinesOfJoinLines(ls[1..], ending);
      if ending == "\n" {
        LinesOfTerminatedLine(l, tail);
      } else {
        assert JoinLines(ls, ending) == (l + "\r") + "\n" + tail;
        LinesOfTerminatedLine(l + "\r", tail);
        assert (l + "\r")[..|l|] == l;
      }
      assert ls == [l] + ls[1..];
    }
  }

  // ---------------------------------------------------------------------------
  // len
  // ---------------------------------------------------------------------------

  /** The number of bytes UTF-8 uses for the scalar value c. */
  function Utf8Width(c: char): nat {
    if c as int < 0x80 then 1
    else if c as int < 0x800 then 2
    else if c as int < 0x1_0000 then 3
    else 4
  }

  /** `s.len()`: the length of the UTF-8 encoding of s, in bytes. */
  function Utf8Len(s: string): (n: nat)
    ensures |s| <= n <= 4 * |s|
    ensures n == |s| <==> forall k :: 0 <= k < |s| ==> s[k] as int < 0x80
  {
    if s == [] then 0 else Utf8Width(s[0]) + Utf8Len(s[1..])
  }

  /** The byte length of a concatenation is the sum of the byte lengths. */
  lemma {:induction false} Utf8LenConcat(a: string, b: string)
    ensures Utf8Len(a + b) == Utf8Len(a) + Utf8Len(b)
    decreases |a|
  {
    if a == [] {
      assert a + b == b;
    } else {
      assert (a + b)[0] == a[0];
      assert (a + b)[1..] == a[1..] + b;
      Utf8LenConcat(a[1..], b);
    }
  }

  // ---------------------------------------------------------------------------
  // split_whitespace
  // ---------------------------------------------------------------------------

  /** `char::is_whitespace`: the characters with the Unicode White_Space property. */
  predicate IsWhitespace(c: char) {
    || ('\t' <= c <= '\r')
    || c == ' '
    || c == '\U{0085}'
    || c == '\U{00A0}'
    || c == '\U{1680}'
    || ('\U{2000}' <= c <= '\U{200A}')
    || c == '\U{2028}'
    || c == '\U{2029}'
    || c == '\U{202F}'
    || c == '\U{205F}'
    || c == '\U{3000}'
  }

  /** A word of `split_whitespace`: non-empty, without whitespace. */
  predicate IsWord(w: string) {
    w != [] && forall j :: 0 <= j < |w| ==> !IsWhitespace(w[j])
  }

  /** The offset of the first whitespace character in s, or |s| when s holds none. */
  function WordEnd(s: string): (n: nat)
    ensures n <= |s|
    ensures n < |s| ==> IsWhitespace(s[n])
    ensures forall j :: 0 <= j < n ==> !IsWhitespace(s[j])
  {
    if s == [] || IsWhitespace(s[0]) then 0 else 1 + WordEnd(s[1..])
  }

  /** `s.split_whitespace()`: the maximal runs of non-whitespace characters, in order. */
  function SplitWhitespace(s: string): (ws: seq<string>)
    ensures forall k :: 0 <= k < |ws| ==> IsWord(ws[k])
    decreases |s|
  {
    if s == [] then []
    else if IsWhitespace(s[0]) then SplitWhitespace(s[1..])
    else
      var n := WordEnd(s);
      [s[..n]] + SplitWhitespace(s[n..])
  }

  /** The empty text has no words. */
  lemma SplitEmpty()
    ensures SplitWhitespace([]) == []
  {
  }

  /** One whitespace character before a text adds no word. */
  lemma SplitLeadingWhitespace(c: char, rest: string)
    requires IsWhitespace(c)
    ensures SplitWhitespace([c] + rest) == SplitWhitespace(rest)
  {
    assert ([c] + rest)[1..] == rest;
  }

  /**
   * A word followed by any run of whitespace and then a text t is the first word of the
   * split, followed by the words of t: repeated and trailing whitespace produce no empty words.
   */
  lemma {:induction false} SplitWordThenWhitespaceRun(w: string, run: string, t: string)
    requires IsWord(w) && run != [] && forall j :: 0 <= j < |run| ==> IsWhitespace(run[j])
    ensures SplitWhitespace(w + run + t) == [w] + SplitWhitespace(t)
  {
    SplitWordThenSpace(w, run[0], run[1..] + t);
    assert w + run + t == w + [run[0]] + (run[1..] + t);
    SkipWhitespaceRun(run[1..], t);
  }

  /** A run of whitespace in front of a text adds no words, however long the run is. */
  lemma {:induction false} SkipWhitespaceRun(run: string, t: string)
    requires forall j :: 0 <= j < |run| ==> IsWhitespace(run[j])
    ensures SplitWhitespace(run + t) == SplitWhitespace(t)
    decreases |run|
  {
    if run != [] {
      SkipWhitespaceRun(run[1..], t);
      assert run + t == [run[0]] + (run[1..] + t);
      SplitLeadingWhitespace(run[0], run[1..] + t);
    } else {
      assert run + t == t;
    }
  }

  /** A word followed by a whitespace character is the first word of the split. */
  lemma {:induction false} SplitWordThenSpace(w: string, c: char, rest: string)
    requires IsWord(w) && IsWhitespace(c)
    ensures SplitWhitespace(w + [c] + rest) == [w] + SplitWhitespace(rest)
  {
    var s := w + [c] + rest;
    assert forall j :: 0 <= j < |w| ==> s[j] == w[j];
    assert s[|w|] == c;
    assert WordEnd(s) == |w|;
    assert s[..|w|] == w;
    assert s[|w|..] == [c] + rest;
    assert ([c] + rest)[1..] == rest;
  }

  /** A single word splits into itself. */
  lemma {:induction false} SplitSingleWord(w: string)
    requires IsWord(w)
    ensures SplitWhitespace(w) == [w]
  {
    assert WordEnd(w) == |w|;
    assert w[..|w|] == w;
    assert w[|w|..] == [];
  }

  /** The words ws, separated by single spaces. */
  function Unwords(ws: seq<string>): string {
    if ws == [] then []
    else if |ws| == 1 then ws[0]
    else ws[0] + " " + Unwords(ws[1..])
  }

  /** `split_whitespace` reads back the words that `Unwords` joined. */
  lemma {:induction false} SplitWhitespaceOfUnwords(ws: seq<string>)
    requires forall k :: 0 <= k < |ws| ==> IsWord(ws[k])
    ensures SplitWhitespace(Unwords(ws)) == ws
    decreases |ws|
  {
    if |ws| == 1 {
      SplitSingleWord(ws[0]);
    } else if |ws| > 1 {
      SplitWhitespaceOfUnwords(ws[1..]);
      SplitWordThenSpace(ws[0], ' ', Unwords(ws[1..]));
      assert ws[0] + " " + Unwords(ws[1..]) == ws[0] + [' '] + Unwords(ws[1..]);
      assert ws == [ws[0]] + ws[1..];
    }
  }

  // ---------------------------------------------------------------------------
  // to_lowercase on ASCII
  // ---------------------------------------------------------------------------

  /** The lower-case mapping of the Unicode Standard, on the ASCII range: 'A'..'Z' to 'a'..'z'. */
  function AsciiLowerChar(c: char): char {
    if 'A' <= c <= 'Z' then (c as int + 32) as char else c
  }

  /**
   * `s.to_lowercase()` on ASCII text; other characters are left as they are, so this agrees
   * with `to_lowercase` only on strings whose characters are all ASCII.
   */
  function AsciiLower(s: string): (r: string)
    ensures |r| == |s|
  {
    seq(|s|, i requires 0 <= i < |s| => AsciiLowerChar(s[i]))
  }

  /** Lower-casing ASCII text twice changes nothing more. */
  lemma AsciiLowerIdempotent(s: string)
    ensures AsciiLower(AsciiLower(s)) == AsciiLower(s)
  {
  }
}
