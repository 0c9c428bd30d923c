/**
 * The standard collections as `common_collections` uses them: `Vec<T>`, `String` and
 * `HashMap<K, V>` are objects that their methods update in place, and the word-frequency
 * count builds a map from `split_whitespace`'s words.
 */
module Collections {
  import opened Wrappers
  import opened RustStr

  /** `Vec<T>`: a growable sequence of elements. */
  class Vec<T> {
    var elems: seq<T>

    /** `Vec::new()` */
    constructor ()
      ensures elems == []
    {
      elems := [];
    }

    /** `vec![...]` */
    constructor FromSeq(s: seq<T>)
      ensures elems == s
    {
      elems := s;
    }

    /** `v.push(x)`: x becomes the last element. */
    method Push(x: T)
      modifies this
      ensures elems == old(elems) + [x]
    {
      elems := elems + [x];
    }

    /** `v.pop()`: removes and returns the last element, or returns None on an empty vector. */
    method Pop() returns (r: Option<T>)
      modifies this
      ensures old(elems) == [] ==> r == None && elems == []
      ensures old(elems) != [] ==> r == Some(old(elems)[|old(elems)| - 1]) && elems == old(elems)[..|old(elems)| - 1]
    {
      if elems == [] {
        r := None;
      } else {
        r := Some(elems[|elems| - 1]);
        elems := elems[..|elems| - 1];
      }
    }

    /** `v.get(i)`: the element at index i, or None past the end. */
    function Get(i: nat): (r: Option<T>)
      reads this
      ensures r.Some? <==> i < |elems|
      ensures r.Some? ==> r.value == elems[i]
    {
      if i < |elems| then Some(elems[i]) else None
    }

    /** A write through `&mut v[i]`; indexing past the end panics, so i must be in range. */
    method Set(i: nat, x: T)
      requires i < |elems|
      modifies this
      ensures elems == old(elems)[i := x]
    {
      elems := elems[i := x];
    }
  }

  /** `String`: growable text. */
  class StringBuffer {
    var text: string

    /** `String::new()` */
    constructor ()
      ensures text == []
    {
      text := [];
    }

    /** `String::from(s)` */
    constructor From(s: string)
      ensures text == s
    {
      text := s;
    }

    /** `s.push_str(t)`: t is appended at the end. */
    method PushStr(t: string)
      modifies this
      ensures text == old(text) + t
    {
      text := text + t;
    }

    /** `s.replace_range(.., t)`: the whole text is replaced by t. */
    method ReplaceAll(t: string)
      modifies this
      ensures text == t
    {
      text := t;
    }
  }

  /** `s + &t`: s is consumed and returned with t appended; t is left as it was. */
  function Concat(s: string, t: string): (r: string)
    ensures |r| == |s| + |t|
    ensures r[..|s|] == s && r[|s|..] == t
  {
    s + t
  }

  /** `HashMap<K, V>`: a finite map from keys to values. */
  class HashMap<K(==), V> {
    var entries: map<K, V>

    /** `HashMap::new()` */
    constructor ()
      ensures entries == map[]
    {
      entries := map[];
    }

    /** `m.insert(k, v)`: k now maps to v, whether or not it was present; the old value is returned. */
    method Insert(k: K, v: V) returns (previous: Option<V>)
      modifies this
      ensures entries == old(entries)[k := v]
      ensures k in old(entries) ==> previous == Some(old(entries)[k])
      ensures k !in old(entries) ==> previous == None
    {
      previous := if k in entries then Some(entries[k]) else None;
      entries := entries[k := v];
    }

    /**
     * `*m.entry(k).or_insert(v)`: inserts v only when k is absent and never overwrites;
     * returns the value k maps to afterwards.
     */
    method EntryOrInsert(k: K, v: V) returns (current: V)
      modifies this
      ensures k in old(entries) ==> entries == old(entries) && current == old(entries)[k]
      ensures k !in old(entries) ==> entries == old(entries)[k := v] && current == v
    {
      if k !in entries {
        entries := entries[k := v];
      }
      current := entries[k];
    }

    /** A write through the `&mut V` that `or_insert` returned for k. */
    method AssignEntry(k: K, v: V)
      requires k in entries
      modifies this
      ensures entries == old(entries)[k := v]
    {
      entries := entries[k := v];
    }
  }

  // ---------------------------------------------------------------------------
  // The demonstrations in `main`
  // ---------------------------------------------------------------------------

  /** A push onto an empty vector, `get(0)`, then a pop; then `&v[2]` of `vec![1, 3, 5]`. */
  method VecDemo() returns (got: Option<bool>, popped: Option<bool>, after: seq<bool>, third: int)
    ensures got == Some(true) && popped == Some(true) && after == []
    ensures third == 5
  {
    var v := new Vec<bool>();
    v.Push(true);
    got := v.Get(0);
    popped := v.Pop();
    after := v.elems;
    var w := new Vec<int>.FromSeq([1, 3, 5]);
    third := w.elems[2];
  }

  /** "New" pushed onto an empty string, then the greeting appended with `+`. */
  method StringDemo() returns (s: string)
    ensures |s| >= 3 && s[..3] == "New" && s[3..] == "السلام عليكم"
  {
    var buf := new StringBuffer();
    buf.PushStr("New");
    var hello := new StringBuffer.From("السلام عليكم");
    s := Concat(buf.text, hello.text);
  }

  /** Two inserts and an `or_insert` of a key not yet present. */
  method JerseyDemo() returns (numbers: map<string, int>)
    ensures numbers == map["Messi" := 10, "Ronaldo" := 7, "Bale" := 20]
  {
    var m := new HashMap<string, int>();
    var _ := m.Insert("Messi", 10);
    var _ := m.Insert("Ronaldo", 7);
    var _ := m.EntryOrInsert("Bale", 20);
    numbers := m.entries;
  }

  // ---------------------------------------------------------------------------
  // Word frequencies
  // ---------------------------------------------------------------------------

  /** How often each word occurs in words; the keys are exactly the distinct words. */
  function Occurrences(words: seq<string>): map<string, nat> {
    map w | w in words :: multiset(words)[w]
  }

  /** The keys are exactly the words that occur, and each of them is counted at least once. */
  lemma OccurrencesKeys(words: seq<string>)
    ensures forall w :: w in Occurrences(words) <==> w in words
    ensures forall w :: w in Occurrences(words) ==> Occurrences(words)[w] >= 1
  {
  }

  /** One more word adds one to its count, starting from zero, and leaves every other count. */
  lemma OccurrencesSnoc(words: seq<string>, w: string)
    ensures Occurrences(words + [w]) ==
      Occurrences(words)[w := (if w in Occurrences(words) then Occurrences(words)[w] else 0) + 1]
  {
    assert multiset(words + [w]) == multiset(words) + multiset{w};
    var lhs, rhs := Occurrences(words + [w]), Occurrences(words)[w := (if w in Occurrences(words) then Occurrences(words)[w] else 0) + 1];
    assert forall u :: u in words + [w] <==> u in words || u == w;
    assert lhs.Keys == rhs.Keys;
  }

  /**
   * The counts as the loop builds them: the words are taken one at a time, and each adds one
   * to its own count, starting from zero.
   */
  function Tally(words: seq<string>): map<string, nat>
    decreases |words|
  {
    if words == [] then map[]
    else
      var counts := Tally(words[..|words| - 1]);
      var w := words[|words| - 1];
      counts[w := (if w in counts then counts[w] else 0) + 1]
  }

  /** Counting one word at a time gives each word's number of occurrences. */
  lemma {:induction false} TallyIsOccurrences(words: seq<string>)
    ensures Tally(words) == Occurrences(words)
    decreases |words|
  {
    if words == [] {
      assert Occurrences(words) == map[];
    } else {
      var init, w := words[..|words| - 1], words[|words| - 1];
      TallyIsOccurrences(init);
      assert words == init + [w];
      OccurrencesSnoc(init, w);
    }
  }

  /**
   * The word-count loop: for each word of `split_whitespace`, `or_insert(0)` then `*count += 1`.
   * The counts are the number of occurrences of each word.
   */
  method WordCount(text: string) returns (counts: map<string, nat>)
    ensures counts == Occurrences(SplitWhitespace(text))
  {
    var words := SplitWhitespace(text);
    var m := new HashMap<string, nat>();
    var i := 0;
    while i < |words|
      invariant 0 <= i <= |words|
      invariant m.entries == Tally(words[..i])
    {
      var w := words[i];
      assert words[..i + 1][..i] == words[..i];
      var count := m.EntryOrInsert(w, 0);
      m.AssignEntry(w, count + 1);
      i := i + 1;
    }
    assert words[..|words|] == words;
    counts := m.entries;
    TallyIsOccurrences(words);
  }

  /** The sum of the counts in a map. */
  ghost function TotalCount(m: map<string, nat>): nat
    decreases |m|
  {
    if m == map[] then 0
    else
      var k :| k in m;
      m[k] + TotalCount(m - {k})
  }

  /** Any key can be taken out first: the total is its count plus the total of the rest. */
  lemma {:induction false} TotalCountRemove(m: map<string, nat>, k: string)
    requires k in m
    ensures TotalCount(m) == m[k] + TotalCount(m - {k})
    decreases |m|
  {
    var k' :| k' in m && TotalCount(m) == m[k'] + TotalCount(m - {k'});
    if k' != k {
      var rest := m - {k'};
      assert |rest| < |m| by { assert rest.Keys == m.Keys - {k'}; }
      TotalCountRemove(rest, k);
      var both := rest - {k};
      assert |m - {k}| < |m| by { assert (m - {k}).Keys == m.Keys - {k}; }
      TotalCountRemove(m - {k}, k');
      assert (m - {k}) - {k'} == both;
    }
  }

  /** The counts add up to the number of words. */
  lemma {:induction false} OccurrencesTotal(words: seq<string>)
    ensures TotalCount(Occurrences(words)) == |words|
  {
    TallyTotal(words);
    TallyIsOccurrences(words);
  }

  /** Each word adds one to the total of the tally. */
  lemma {:induction false} TallyTotal(words: seq<string>)
    ensures TotalCount(Tally(words)) == |words|
    decreases |words|
  {
    if words != [] {
      var init, w := words[..|words| - 1], words[|words| - 1];
      TallyTotal(init);
      var before, after := Tally(init), Tally(words);
      TotalCountRemove(after, w);
      assert after - {w} == before - {w};
      if w in before {
        TotalCountRemove(before, w);
      } else {
        assert before - {w} == before;
      }
    }
  }

  /** Two more different words, each already counted n times, are then counted n + 1 times. */
  lemma PairStep(ws: seq<string>, a: string, b: string, n: nat)
    requires a != b && Occurrences(ws) == map[a := n, b := n]
    ensures Occurrences(ws + [a, b]) == map[a := n + 1, b := n + 1]
  {
    OccurrencesSnoc(ws, a);
    OccurrencesSnoc(ws + [a], b);
    assert ws + [a] + [b] == ws + [a, b];
  }
  /** Two different words, once each. */
  lemma FirstPair(a: string, b: string)
    requires a != b
    ensures Occurrences([a, b]) == map[a := 1, b := 1]
  {
    OccurrencesSnoc([a], b);
    assert [a] + [b] == [a, b];
    assert Occurrences([a]) == map[a := 1];
  }
  /** Four alternations of two different words: four of each. */
  lemma AlternatingCounts(a: string, b: string)
    requires a != b
    ensures Occurrences([a, b, a, b, a, b, a, b]) == map[a := 4, b := 4]
  {
    FirstPair(a, b);
    PairStep([a, b], a, b, 1);
    assert [a, b] + [a, b] == [a, b, a, b];
    PairStep([a, b, a, b], a, b, 2);
    assert [a, b, a, b] + [a, b] == [a, b, a, b, a, b];
    PairStep([a, b, a, b, a, b], a, b, 3);
    assert [a, b, a, b, a, b] + [a, b] == [a, b, a, b, a, b, a, b];
  }
  /** Two words, each followed by a space, are the first two words of the split. */
  lemma SplitPairThen(a: string, b: string, rest: string)
    requires IsWord(a) && IsWord(b)
    ensures SplitWhitespace(a + " " + b + " " + rest) == [a, b] + SplitWhitespace(rest)
  {
    assert a + " " + b + " " + rest == a + [' '] + (b + [' '] + rest);
    SplitWordThenSpace(a, ' ', b + [' '] + rest);
    SplitWordThenSpace(b, ' ', rest);
  }
  /** Two words separated by a space split into those two words. */
  lemma SplitPair(a: string, b: string)
    requires IsWord(a) && IsWord(b)
    ensures SplitWhitespace(a + " " + b) == [a, b]
  {
    assert a + " " + b == a + [' '] + b;
    SplitWordThenSpace(a, ' ', b);
    SplitSingleWord(b);
  }
  /** Four alternations of two words separated by spaces split back into those eight words. */
  lemma AlternatingWords(a: string, b: string, text: string)
    requires IsWord(a) && IsWord(b)
    requires text == a + " " + b + " " + (a + " " + b + " " + (a + " " + b + " " + (a + " " + b)))
    ensures SplitWhitespace(text) == [a, b, a, b, a, b, a, b]
  {
    SplitPair(a, b);
    SplitPairThen(a, b, a + " " + b);
    SplitPairThen(a, b, a + " " + b + " " + (a + " " + b));
    SplitPairThen(a, b, a + " " + b + " " + (a + " " + b + " " + (a + " " + b)));
  }

  /** The two words of `main`'s text contain no whitespace. */
  lemma AncaraMessiAreWords()
    ensures IsWord("Ancara") && IsWord("Messi")
  {
  }

  /** The word count of `main`'s text: each of the two words four times. */
  method WordCountDemo() returns (counts: map<string, nat>)
    ensures counts == map["Ancara" := 4, "Messi" := 4]
  {
    var a, b := "Ancara", "Messi";
    var text := a + " " + b + " " + (a + " " + b + " " + (a + " " + b + " " + (a + " " + b)));
    assert text == "Ancara Messi Ancara Messi Ancara Messi Ancara Messi" by {
      assert a + " " + b == "Ancara Messi";
      assert a + " " + b + " " + (a + " " + b) == "Ancara Messi Ancara Messi";
      assert a + " " + b + " " + (a + " " + b + " " + (a + " " + b)) == "Ancara Messi Ancara Messi Ancara Messi";
    }
    counts := WordCount(text);
    AncaraMessiAreWords();
    AlternatingWords(a, b, text);
    AlternatingCounts(a, b);
  }
}
