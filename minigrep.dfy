/**
 * minigrep's library: building the configuration from the command-line arguments, and the
 * line-oriented search that reports every matching line under its 1-based line number.
 *
 * A search result is a map from line number to line. Rust's `HashMap<u32, &str>` holds
 * borrowed slices of the contents; here the value is the line's text, which is what the
 * slice denotes. The environment variable IGNORE_CASE and the Unicode lower-casing function
 * `to_lowercase` enter as parameters.
 */
module Minigrep {
  import opened Wrappers
  import opened RustStr

  /** What to search for, in which file, and whether to ignore case. */
  datatype Config = Config(query: string, filePath: string, ignoreCase: bool)

  /**
   * `Config::new`. The first argument is the program's name; the query and the file path
   * are the next two, and any further argument is ignored. `ignoreCaseSet` says whether the
   * environment variable IGNORE_CASE is set to a valid Unicode value (`env::var(..).is_ok()`).
   */
  function NewConfig(args: seq<string>, ignoreCaseSet: bool): (r: Result<Config, string>)
    ensures r.Err? <==> |args| < 3
    ensures r.Err? ==> r.error == "Not enough arguments"
    ensures r.Ok? ==> r.value.query == args[1] && r.value.filePath == args[2]
    ensures r.Ok? ==> r.value.ignoreCase == ignoreCaseSet
  {
    if |args| < 3 then Err("Not enough arguments")
    else Ok(Config(args[1], args[2], ignoreCaseSet))
  }

  /** The program name and the arguments after the file path do not change the configuration. */
  lemma NewConfigReadsOnlyQueryAndPath(args: seq<string>, name: string, extra: seq<string>, ignoreCaseSet: bool)
    requires |args| >= 3
    ensures NewConfig([name] + args[1..3] + extra, ignoreCaseSet) == NewConfig(args, ignoreCaseSet)
  {
    var args' := [name] + args[1..3] + extra;
    assert args'[1] == args[1] && args'[2] == args[2];
  }

  // ---------------------------------------------------------------------------
  // What a search returns
  // ---------------------------------------------------------------------------

  /** Line number n of lines, counting from 1. */
  function NumberedLine(lines: seq<string>, n: nat): string
    requires 1 <= n <= |lines|
  {
    lines[n - 1]
  }

  /** The case-sensitive matches: number n maps to the n-th line exactly when it contains the query. */
  function SensitiveMatches(query: string, contents: string): map<nat, string> {
    var lines := Lines(contents);
    map n | 1 <= n <= |lines| && Contains(NumberedLine(lines, n), query) :: NumberedLine(lines, n)
  }

  /**
   * The case-insensitive matches: number n maps to the n-th line, with its own casing,
   * exactly when the lower-cased line contains the lower-cased query.
   */
  function InsensitiveMatches(query: string, contents: string, lower: string -> string): map<nat, string> {
    var lines := Lines(contents);
    var q := lower(query);
    map n | 1 <= n <= |lines| && Contains(lower(NumberedLine(lines, n)), q) :: NumberedLine(lines, n)
  }

  // ---------------------------------------------------------------------------
  // The two searches
  // ---------------------------------------------------------------------------

  /**
   * `search_case_sensitive`: walks the lines, counting them from 1, and records every line
   * that contains the query under its number.
   */
  method SearchCaseSensitive(query: string, contents: string) returns (results: map<nat, string>)
    ensures forall n :: n in results <==> 1 <= n <= |Lines(contents)| && Contains(NumberedLine(Lines(contents), n), query)
    ensures forall n :: n in results ==> results[n] == NumberedLine(Lines(contents), n)
    ensures results == SensitiveMatches(query, contents)
  {
    results := map[];
    var lineNumber: nat := 0;
    var lines := Lines(contents);
    while lineNumber < |lines|
      invariant lineNumber <= |lines|
      invariant forall n :: n in results <==> 1 <= n <= lineNumber && Contains(NumberedLine(lines, n), query)
      invariant forall n :: n in results ==> results[n] == NumberedLine(lines, n)
    {
      var line := lines[lineNumber];
      lineNumber := lineNumber + 1;
      if Contains(line, query) {
        results := results[lineNumber := line];
      }
    }
  }

  /**
   * `search_case_insensitive`: lower-cases the query once and each line as it is read, and
   * records the original line under its number when the lowered line contains the lowered query.
   */
  method SearchCaseInsensitive(query: string, contents: string, lower: string -> string)
    returns (results: map<nat, string>)
    ensures forall n :: n in results <==>
      1 <= n <= |Lines(contents)| && Contains(lower(NumberedLine(Lines(contents), n)), lower(query))
    ensures forall n :: n in results ==> results[n] == NumberedLine(Lines(contents), n)
    ensures results == InsensitiveMatches(query, contents, lower)
  {
    results := map[];
    var lineNumber: nat := 0;
    var q := lower(query);
    var lines := Lines(contents);
    while lineNumber < |lines|
      invariant lineNumber <= |lines|
      invariant forall n :: n in results <==> 1 <= n <= lineNumber && Contains(lower(NumberedLine(lines, n)), q)
      invariant forall n :: n in results ==> results[n] == NumberedLine(lines, n)
    {
      var line := lines[lineNumber];
      lineNumber := lineNumber + 1;
      if Contains(lower(line), q) {
        results := results[lineNumber := line];
      }
    }
  }

  /** The choice `run` makes between the two searches, before it prints the results. */
  method Run(config: Config, contents: string, lower: string -> string) returns (results: map<nat, string>)
    ensures config.ignoreCase ==> results == InsensitiveMatches(config.query, contents, lower)
    ensures !config.ignoreCase ==> results == SensitiveMatches(config.query, contents)
  {
    if config.ignoreCase {
      results := SearchCaseInsensitive(config.query, contents, lower);
    } else {
      results := SearchCaseSensitive(config.query, contents);
    }
  }

  // ---------------------------------------------------------------------------
  // Properties of the search
  // ---------------------------------------------------------------------------

  /** An empty query matches every line, each under its own number. */
  lemma EmptyQuerySensitive(contents: string)
    ensures forall n :: n in SensitiveMatches([], contents) <==> 1 <= n <= |Lines(contents)|
  {
    var lines := Lines(contents);
    forall n | 1 <= n <= |lines| ensures Contains(NumberedLine(lines, n), []) {
      ContainsEmptyNeedle(NumberedLine(lines, n));
    }
  }

  /**
   * Ignoring case, an empty query matches every line too, for any lower-casing that leaves
   * the empty string empty, as Unicode lower-casing does.
   */
  lemma EmptyQueryInsensitive(contents: string, lower: string -> string)
    requires lower([]) == []
    ensures forall n :: n in InsensitiveMatches([], contents, lower) <==> 1 <= n <= |Lines(contents)|
  {
    var lines := Lines(contents);
    forall n | 1 <= n <= |lines| ensures Contains(lower(NumberedLine(lines, n)), []) {
      ContainsEmptyNeedle(lower(NumberedLine(lines, n)));
    }
  }

  /** Empty contents have no lines, so neither search finds anything. */
  lemma EmptyContents(query: string, lower: string -> string)
    ensures SensitiveMatches(query, []) == map[]
    ensures InsensitiveMatches(query, [], lower) == map[]
  {
    assert Lines([]) == [];
  }

  /** With the identity for lower-casing, the case-insensitive search is the case-sensitive one. */
  lemma InsensitiveWithIdentity(query: string, contents: string)
    ensures InsensitiveMatches(query, contents, s => s) == SensitiveMatches(query, contents)
  {
  }

  // ---------------------------------------------------------------------------
  // The library's two tests
  // ---------------------------------------------------------------------------

  /** A text of four lines, the last without a line feed, splits into those four lines. */
  lemma {:induction false} FourLines(contents: string, l1: string, l2: string, l3: string, l4: string)
    requires contents == l1 + "\n" + (l2 + "\n" + (l3 + "\n" + l4))
    requires '\n' !in l1 && '\n' !in l2 && '\n' !in l3 && '\n' !in l4 && l4 != []
    requires !EndsWithCarriageReturn(l1) && !EndsWithCarriageReturn(l2) && !EndsWithCarriageReturn(l3)
    ensures Lines(contents) == [l1, l2, l3, l4]
  {
    var t3 := l3 + "\n" + l4;
    var t2 := l2 + "\n" + t3;
    LinesOfUnterminatedLine(l4);
    LinesOfTerminatedLine(l3, l4);
    assert Lines(t3) == [l3, l4];
    LinesOfTerminatedLine(l2, t3);
    assert Lines(t2) == [l2, l3, l4];
    LinesOfTerminatedLine(l1, t2);
  }

  /** The sensitive matches of a four-line text in which only the second line holds the query. */
  lemma {:induction false} OnlySecondLineMatches(query: string, contents: string, l1: string, l2: string, l3: string, l4: string)
    requires Lines(contents) == [l1, l2, l3, l4]
    requires !Contains(l1, query) && Contains(l2, query) && !Contains(l3, query) && !Contains(l4, query)
    ensures SensitiveMatches(query, contents) == map[2 := l2]
  {
    var m := SensitiveMatches(query, contents);
    forall n | 1 <= n <= 4 ensures n in m <==> n == 2 {
      if n == 1 {} else if n == 2 {} else if n == 3 {} else {}
    }
    assert m.Keys == {2};
  }

  /** The insensitive matches of a four-line text in which only the first and last lowered lines hold the lowered query. */
  lemma {:induction false} FirstAndLastLinesMatch(query: string, contents: string, lower: string -> string,
                                                  l1: string, l2: string, l3: string, l4: string)
    requires Lines(contents) == [l1, l2, l3, l4]
    requires Contains(lower(l1), lower(query)) && !Contains(lower(l2), lower(query))
    requires !Contains(lower(l3), lower(query)) && Contains(lower(l4), lower(query))
    ensures InsensitiveMatches(query, contents, lower) == map[1 := l1, 4 := l4]
  {
    var m := InsensitiveMatches(query, contents, lower);
    forall n | 1 <= n <= 4 ensures n in m <==> n == 1 || n == 4 {
      if n == 1 {} else if n == 2 {} else if n == 3 {} else {}
    }
    assert m.Keys == {1, 4};
  }

  /** Which lines of the first test's text hold "duct". */
  lemma DuctInSample()
    ensures !Contains("Rust:", "duct") && Contains("safe, fast, productive.", "duct")
    ensures !Contains("Pick three.", "duct") && !Contains("Duct tape.", "duct")
  {
    NotContainedWithoutFirstChar("Rust:", "duct");
    NotContainedWithoutFirstChar("Pick three.", "duct");
    NotContainedWithoutFirstChar("Duct tape.", "duct");
    ContainsIff("safe, fast, productive.", "duct");
    assert OccursAt("safe, fast, productive.", "duct", 15);
  }

  /** The second test's query and lines, lower-cased. */
  lemma LoweredSample()
    ensures AsciiLower("rUsT") == "rust"
    ensures AsciiLower("Rust:") == "rust:"
    ensures AsciiLower("safe, fast, productive.") == "safe, fast, productive."
    ensures AsciiLower("Pick three.") == "pick three."
    ensures AsciiLower("Trust me.") == "trust me."
  {
  }

  /** The second line of the second test's text, which lower-casing leaves as it is, lacks "rust". */
  lemma RustNotInSecondLine()
    ensures !Contains("safe, fast, productive.", "rust")
  {
    assert !OccursBelow("safe, fast, productive.", "rust", 5, 4);
    assert !OccursBelow("safe, fast, productive.", "rust", 10, 4);
    assert !OccursBelow("safe, fast, productive.", "rust", 15, 4);
    assert !OccursBelow("safe, fast, productive.", "rust", 20, 4);
  }

  /** Which lowered lines of the second test's text hold "rust". */
  lemma RustInLoweredSample()
    ensures Contains("rust:", "rust") && !Contains("safe, fast, productive.", "rust")
    ensures !Contains("pick three.", "rust") && Contains("trust me.", "rust")
  {
    RustNotInSecondLine();
    assert OccursBelow("rust:", "rust", 2, 4);
    assert !OccursBelow("pick three.", "rust", 4, 4);
    assert !OccursBelow("pick three.", "rust", 8, 4);
    assert OccursBelow("trust me.", "rust", 6, 4);
  }

  /** Test `case_sensitive`: "duct" occurs only in line 2 ("Duct" in line 4 differs in case). */
  lemma CaseSensitiveTest(contents: string)
    requires contents == "Rust:\n" + "safe, fast, productive.\n" + "Pick three.\n" + "Duct tape."
    ensures SensitiveMatches("duct", contents) == map[2 := "safe, fast, productive."]
  {
    FourLines(contents, "Rust:", "safe, fast, productive.", "Pick three.", "Duct tape.");
    DuctInSample();
    OnlySecondLineMatches("duct", contents, "Rust:", "safe, fast, productive.", "Pick three.", "Duct tape.");
  }

  /** Test `case_insensitive`: "rUsT" matches "Rust:" and "Trust me." once both sides are lowered. */
  lemma CaseInsensitiveTest(contents: string)
    requires contents == "Rust:\n" + "safe, fast, productive.\n" + "Pick three.\n" + "Trust me."
    ensures InsensitiveMatches("rUsT", contents, AsciiLower) == map[1 := "Rust:", 4 := "Trust me."]
  {
    FourLines(contents, "Rust:", "safe, fast, productive.", "Pick three.", "Trust me.");
    LoweredSample();
    RustInLoweredSample();
    FirstAndLastLinesMatch("rUsT", contents, AsciiLower, "Rust:", "safe, fast, productive.", "Pick three.", "Trust me.");
  }

  /** One line and an empty query: the line is reported as line 1, in either mode. */
  lemma SingleLineEmptyQuery(lower: string -> string)
    requires lower([]) == []
    ensures SensitiveMatches([], "abc") == map[1 := "abc"]
    ensures InsensitiveMatches([], "abc", lower) == map[1 := "abc"]
  {
    LinesOfUnterminatedLine("abc");
    EmptyQuerySensitive("abc");
    EmptyQueryInsensitive("abc", lower);
  }
}
