# learning-rust, modelled in Dafny

This project models the parts of the learning-rust tutorial crates that compute something,
and proves what they promise.

- **minigrep** is the centre. `Config::new` validates the argument list. `search_case_sensitive`
  and `search_case_insensitive` walk the lines of a text, numbered from 1, and return a map
  from line number to line for every line that contains the query. The case-insensitive
  search lower-cases the line and the query before comparing, and keeps the original line.
  `run` chooses between the two searches.
- **ownership**: `plus_one`, `first_word`, and the updates `main` makes in place through
  `Box` and `&mut`: the add/subtract swap, `*num_mut += 2` followed by `push` on a `Vec`,
  and `*x += 1` on an array element.
- **generics-traits-lifetimes**: the generic `largest`, `_longest` by byte length, and
  `Summary::summarize` / `Summary::default` for `NewsArticle`.
- **enums**: the linear search `does_exist`, and the text `route` and `get_message` print for
  each variant.
- **structs**: `Rectangle::area`, `Rectangle::new`, `Rectangle::can_hold`, `make_user`, and the
  assignment of one field of a `User`.
- **common_collections**: `Vec` push/get/pop, `String` push_str and `+`, `HashMap` `insert`
  against `entry().or_insert()`, and the word-frequency count.

Files:

| file | module | contents |
|---|---|---|
| `wrappers.dfy` | `Wrappers` | `Option` and `Result` |
| `ints.dfy` | `Ints` | the `i32` and `u32` ranges |
| `rust_str.dfy` | `RustStr` | the `str` operations the code calls: `contains`, `lines`, `len`, `split_whitespace`, ASCII `to_lowercase` |
| `minigrep.dfy` | `Minigrep` | `Config::new`, the two searches, `run`'s choice, the library's two tests |
| `collections.dfy` | `Collections` | `Vec`, `String` and `HashMap` as classes, and the word count |
| `ownership.dfy` | `Ownership` | `plus_one`, `first_word`, the in-place updates |
| `generics.dfy` | `Generics` | `largest`, `_longest`, `Summary` |
| `enums.dfy` | `Enums` | `does_exist`, `route`, `get_message` |
| `structs.dfy` | `Structs` | the `Rectangle` and `User` operations |

Modelling decisions:

- Strings are sequences of Unicode scalar values. `str::len` is the length of the UTF-8
  encoding (`RustStr.Utf8Len`), because `_longest` compares byte lengths.
- The search loops and the other loops become `method`s with loop invariants. Each method is
  proved against a specification function (`SensitiveMatches`, `InsensitiveMatches`,
  `Occurrences`, `LargestPrefix`) or against a postcondition that pins the result down
  (`DoesExist`, `FirstWord`). `Largest` also states what its result means under any strict
  partial order, total or not.
- `Vec`, `String`, `HashMap` and `Box` are classes whose methods update their fields in place.
  A write through `&mut v[i]` or `&mut a[i]` is a method that changes that one element.
- `to_lowercase` is a parameter `lower: string -> string` of the case-insensitive search.
  Unicode lower-casing can change the length of a string and depends on context (final
  sigma), so no property of it is assumed. The library's test instantiates it with ASCII
  lower-casing, which agrees with `to_lowercase` on ASCII text.
- Whether the environment variable `IGNORE_CASE` is set is a boolean parameter of
  `Config::new`. It stands for `env::var("IGNORE_CASE").is_ok()`: the variable is present and
  its value is valid Unicode. A value that is present but not valid Unicode counts as unset.
- `str::lines` follows the Rust standard library. The text is split after each `\n`. One
  `\r` just before that `\n` is removed. A final `\n` does not start an empty line, and a
  final `\r` with no `\n` after it is kept.
- `first_word` scans bytes, and the model scans characters. A space is the one-byte UTF-8
  sequence 0x20, and no other character's encoding contains that byte. So both scans cut the
  text at the same place.
- `largest` takes `>` as a parameter. It requires what `PartialOrd` promises of `>`: no
  element is greater than itself, and `>` is transitive. The returned reference is modelled
  by its index.

## Model

| member | source | states |
|---|---|---|
| `Minigrep.NewConfig` | minigrep/src/lib.rs:13-24 | `Err("Not enough arguments")` exactly when fewer than 3 arguments are given; otherwise query is `args[1]`, file path is `args[2]`, ignore-case is whether IGNORE_CASE is set to a valid Unicode value (`env::var(..).is_ok()`) |
| `Minigrep.NewConfigReadsOnlyQueryAndPath` | minigrep/src/lib.rs:17-23 | the program name `args[0]` and any arguments after the file path do not change the configuration |
| `Minigrep.SearchCaseSensitive` | minigrep/src/lib.rs:42-54 | line number n is a key exactly when 1 <= n <= number of lines and the n-th line contains the query; its value is that line, unmodified |
| `Minigrep.SearchCaseInsensitive` | minigrep/src/lib.rs:56-70 | line number n is a key exactly when the lowered n-th line contains the lowered query; the value is the original line |
| `Minigrep.Run` | minigrep/src/lib.rs:30-33 | with ignore-case set, the results are the case-insensitive matches; otherwise the case-sensitive ones |
| `Minigrep.EmptyQuerySensitive` | minigrep/src/lib.rs:46-50 | the empty query matches every line |
| `Minigrep.EmptyQueryInsensitive` | minigrep/src/lib.rs:60-66 | ignoring case, the empty query matches every line, for any lower-casing that keeps "" empty |
| `Minigrep.EmptyContents` | minigrep/src/lib.rs:46-51 | empty contents give an empty map in both modes |
| `Minigrep.InsensitiveWithIdentity` | minigrep/src/lib.rs:56-70 | if lower-casing is the identity, the case-insensitive search equals the case-sensitive one |
| `Minigrep.FourLines` | minigrep/src/lib.rs:79-83 | a text of four lines joined by `\n`, with no `\n` at the end, splits into exactly those four lines |
| `Minigrep.OnlySecondLineMatches` | minigrep/src/lib.rs:42-54 | over four lines of which only the second contains the query, the result is `{2: line 2}` |
| `Minigrep.FirstAndLastLinesMatch` | minigrep/src/lib.rs:56-70 | over four lines of which only the first and last lowered lines contain the lowered query, the result is `{1: line 1, 4: line 4}` |
| `Minigrep.DuctInSample` | minigrep/src/lib.rs:78-83 | of the first test's lines only "safe, fast, productive." contains "duct" |
| `Minigrep.LoweredSample` | minigrep/src/lib.rs:93-98 | the second test's query and lines, lower-cased |
| `Minigrep.RustNotInSecondLine` | minigrep/src/lib.rs:96 | "safe, fast, productive." does not contain "rust" |
| `Minigrep.RustInLoweredSample` | minigrep/src/lib.rs:93-98 | of the lowered lines only "rust:" and "trust me." contain "rust" |
| `Minigrep.CaseSensitiveTest` | minigrep/src/lib.rs:76-89 | test `case_sensitive`: "duct" gives exactly `{2: "safe, fast, productive."}` |
| `Minigrep.CaseInsensitiveTest` | minigrep/src/lib.rs:91-105 | test `case_insensitive`: "rUsT" gives exactly `{1: "Rust:", 4: "Trust me."}` |
| `Minigrep.SingleLineEmptyQuery` | minigrep/src/lib.rs:46-50 | one line and an empty query give `{1: line}` in both modes |
| `RustStr.PrefixAtIff` | minigrep/src/lib.rs:48 | the character-by-character comparison agrees with slice equality |
| `RustStr.OccursBelowIff` | minigrep/src/lib.rs:48 | the search over offsets below k finds the needle exactly when it occurs at one of them |
| `RustStr.Contains` | minigrep/src/lib.rs:48 | a needle longer than the haystack is never found, and the empty needle always is; `RustStr.ContainsIff` characterizes it exactly |
| `RustStr.ContainsIff` | minigrep/src/lib.rs:48 | `contains` holds exactly when the needle occurs at some offset of the haystack |
| `RustStr.ContainsEmptyNeedle` | minigrep/src/lib.rs:48 | every string contains "" |
| `RustStr.NotContainedWithoutFirstChar` | minigrep/src/lib.rs:48 | a needle whose first character does not occur in the haystack is not contained in it |
| `RustStr.NewlineIndex` | minigrep/src/lib.rs:46 | the offset of the first `\n`, or the length when there is none |
| `RustStr.Lines` | minigrep/src/lib.rs:46 | `lines` gives no lines exactly for "", and no line contains `\n` |
| `RustStr.LinesOfTerminatedLine` | minigrep/src/lib.rs:46 | a line ended by `\n` is the first line, minus one `\r` before the `\n` |
| `RustStr.LinesOfUnterminatedLine` | minigrep/src/lib.rs:46 | a non-empty text without `\n` is one line, unchanged |
| `RustStr.LineCount` | minigrep/src/lib.rs:44-47 | the number of lines is the number of `\n`, plus one when the text ends without `\n` |
| `RustStr.LinesOfJoinLines` | minigrep/src/lib.rs:46 | `lines` reads back the lines of a text with `\n` or `\r\n` line endings |
| `RustStr.Utf8Len` | generics-traits-lifetimes/src/main.rs:59 | the byte length lies between the character count and four times it; it equals the character count exactly for ASCII text |
| `RustStr.Utf8LenConcat` | generics-traits-lifetimes/src/main.rs:59 | the byte length of a concatenation is the sum of the byte lengths |
| `RustStr.WordEnd` | common_collections/src/main.rs:53 | the offset of the first whitespace character, with no whitespace before it |
| `RustStr.SplitWhitespace` | common_collections/src/main.rs:53 | every word of `split_whitespace` is non-empty and holds no whitespace; with the lemmas below (empty text, leading whitespace, a word and its following run of whitespace) it is the maximal non-whitespace runs, in order |
| `RustStr.SplitEmpty` | common_collections/src/main.rs:53 | the empty text has no words |
| `RustStr.SplitLeadingWhitespace` | common_collections/src/main.rs:53 | whitespace before the first word adds no word |
| `RustStr.SkipWhitespaceRun` | common_collections/src/main.rs:53 | any run of whitespace in front of a text adds no words |
| `RustStr.SplitWordThenWhitespaceRun` | common_collections/src/main.rs:53 | a word followed by any run of whitespace is the first word of the split, followed by the words of the rest: repeated whitespace produces no empty words |
| `RustStr.SplitWordThenSpace` | common_collections/src/main.rs:53 | a word followed by whitespace is the first word of the split |
| `RustStr.SplitSingleWord` | common_collections/src/main.rs:53 | a single word splits into itself |
| `RustStr.SplitWhitespaceOfUnwords` | common_collections/src/main.rs:53 | `split_whitespace` reads back words joined by single spaces |
| `RustStr.AsciiLower` | minigrep/src/lib.rs:60-64 | lower-casing ASCII text keeps its length |
| `RustStr.AsciiLowerIdempotent` | minigrep/src/lib.rs:60-64 | lower-casing twice is lower-casing once |
| `Ownership.PlusOne` | ownership/src/main.rs:1-8 | the result is the i32 one greater than x, for any x below i32::MAX |
| `Ownership.PlusOneOfFive` | ownership/src/main.rs:12-15 | `plus_one(5)` is 6 |
| `Ownership.Box.constructor` | ownership/src/main.rs:78-79 | `Box::new(v)` holds v |
| `Ownership.SwapBySums` | ownership/src/main.rs:83-88 | the three assignments exchange the two boxed values when their sum fits in an i32 |
| `Ownership.SwapDemo` | ownership/src/main.rs:78-90 | after the swap the boxes hold 20000000 and 10000000 |
| `Ownership.DerefDemo` | ownership/src/main.rs:64-73 | `_a` is 1; after `*_x += 1` both `**_r1` and `*_r2` read 2 |
| `Ownership.AddThroughArrayRef` | ownership/src/main.rs:117-119 | `*x += d` through `&mut a[i]` adds d to element i and changes no other element |
| `Ownership.ArrayDemo` | ownership/src/main.rs:115-121 | `[0, 1, 2, 3]` becomes `[0, 2, 2, 3]` |
| `Ownership.AddThroughVecRef` | ownership/src/main.rs:105-107 | `*num_mut += d` through `&mut v[i]` adds d to element i only |
| `Ownership.VecDemo` | ownership/src/main.rs:101-111 | `*num_mut` prints 4, and the vector ends as `[1, 4, 3, 4]` |
| `Ownership.ReturnStringSlot` | ownership/src/main.rs:166-168 | the caller's string becomes "Hello", whatever it held before |
| `Ownership.FirstWord` | ownership/src/main.rs:170-180 | the result is a prefix of s with no space, and it ends at the first space of s or at the end of s |
| `Ownership.FirstWordUnique` | ownership/src/main.rs:170-180 | at most one string meets `first_word`'s postcondition, so that postcondition defines the result |
| `Ownership.FirstWordWhole` | ownership/src/main.rs:173-179 | the first word is all of s exactly when s holds no space |
| `Ownership.FirstWordDemo` | ownership/src/main.rs:123-127 | the first word of "Hello World" is "Hello" |
| `Generics.Largest` | generics-traits-lifetimes/src/main.rs:70-80 | for a non-empty list, the result is an element that no element is greater than; it is the first occurrence of its value; under a total order every earlier element is smaller, so ties go to the earliest maximum; under any order the result is 0 or an element greater than `list[0]`, and it is exactly the index `LargestPrefix` reaches by moving only to strictly greater elements |
| `Generics.LargestPrefixKeepsUnbeatenHead` | generics-traits-lifetimes/src/main.rs:71-79 | when nothing is greater than the first element (a leading NaN among floats), `largest` returns the first element |
| `Generics.LargestDemo` | generics-traits-lifetimes/src/main.rs:30-38 | the largest of `[1..6]` is 6 and of `['a'..'e']` is 'e' |
| `Generics.Longest` | generics-traits-lifetimes/src/main.rs:58-64 | the result is x or y, at least as long in bytes as both, and y when x is not strictly longer |
| `Generics.LongestPicksX` | generics-traits-lifetimes/src/main.rs:58-64 | x is returned exactly when it is strictly longer in bytes, or equal to y |
| `Generics.LongestPrefersExtension` | generics-traits-lifetimes/src/main.rs:58-64 | a string never wins against an extension of itself: the extension is returned, on a tie as well |
| `Generics.LongestCountsBytes` | generics-traits-lifetimes/src/main.rs:59 | byte length decides: the two-byte "é" beats the one-byte "a" |
| `Generics.Summarize` | generics-traits-lifetimes/src/main.rs:24-26 | the summary is the author, " by ", the title, ": " and the content, in order, and nothing else |
| `Generics.SummarizeInjectiveForFixedLengths` | generics-traits-lifetimes/src/main.rs:24-26 | given the lengths of author and title, the summary determines the article |
| `Generics.DefaultSummary` | generics-traits-lifetimes/src/main.rs:17-19 | `default` is "Read more..." for every article |
| `Generics.SummarizeDemo` | generics-traits-lifetimes/src/main.rs:42-48 | the article of `main` is summarized as "John by New Article: Article content" |
| `Enums.DoesExist` | enums/src/main.rs:73-80 | `Some(i)` only with i in range and `a[i] == target`; i is the first such index; `None` exactly when target does not occur |
| `Enums.DoesExistDemo` | enums/src/main.rs:27-32 | `does_exist(&[1, 2, 3, 4, 5], 3)` is `Some(2)` |
| `Enums.Route` | enums/src/main.rs:82-87 | V4 prints "Version 4" and V6 prints "Version 6", and only they do |
| `Enums.RouteSeparatesVersions` | enums/src/main.rs:82-87 | two addresses print the same line exactly when they have the same version |
| `Enums.GetMessage` | enums/src/main.rs:89-96 | each of the four variants prints its own text, and only it does |
| `Enums.GetMessageSeparatesVariants` | enums/src/main.rs:89-96 | two messages print the same line exactly when they are the same variant |
| `Enums.RouteAndMessageDemo` | enums/src/main.rs:18-25 | the calls in `main` print "Version 4", "Version 6" and "Changing color" |
| `Structs.Area` | structs/src/main.rs:24-26 | the area is width times height, given no u32 overflow; it is 0 exactly when a side is 0 |
| `Structs.NewRectangle` | structs/src/main.rs:28-30 | `Rectangle::new(w, h)` stores w and h unchanged |
| `Structs.CanHold` | structs/src/main.rs:32-34 | a rectangle that can hold another has positive sides and differs from it; `Structs.CanHoldIrreflexive`, `Structs.CanHoldAsymmetric` and `Structs.CanHoldTransitive` make it a strict order |
| `Structs.CanHoldIrreflexive` | structs/src/main.rs:32-34 | no rectangle can hold itself |
| `Structs.CanHoldAsymmetric` | structs/src/main.rs:32-34 | two rectangles cannot hold each other |
| `Structs.CanHoldTransitive` | structs/src/main.rs:32-34 | holding is transitive |
| `Structs.CanHoldSmallerArea` | structs/src/main.rs:24-34 | a rectangle holds only rectangles of strictly smaller area |
| `Structs.CanHoldDemo` | structs/src/main.rs:62-73 | a 30 by 10 rectangle cannot hold a 20 by 40 one, and its area is 300 |
| `Structs.MakeUser` | structs/src/main.rs:78-82 | `make_user` stores the name and the age unchanged |
| `Structs.SetAge` | structs/src/main.rs:45 | assigning the age changes the age and keeps the name |
| `Structs.SetAgeDemo` | structs/src/main.rs:39-45 | John, aged 30, becomes John, aged 40 |
| `Collections.Vec.constructor` | common_collections/src/main.rs:5 | `Vec::new()` is empty |
| `Collections.Vec.FromSeq` | common_collections/src/main.rs:12 | `vec![...]` holds the given elements |
| `Collections.Vec.Push` | common_collections/src/main.rs:7 | `push` appends x at the end |
| `Collections.Vec.Get` | common_collections/src/main.rs:8 | `get(i)` is `Some(v[i])` exactly when i is in range, else `None` |
| `Collections.Vec.Pop` | common_collections/src/main.rs:9 | `pop` removes and returns the last element; on an empty vector it returns `None` and changes nothing |
| `Collections.Vec.Set` | ownership/src/main.rs:105-107 | a write through `&mut v[i]` replaces element i only |
| `Collections.StringBuffer.constructor` | common_collections/src/main.rs:22 | `String::new()` is empty |
| `Collections.StringBuffer.From` | common_collections/src/main.rs:28 | `String::from(s)` holds s |
| `Collections.StringBuffer.PushStr` | common_collections/src/main.rs:24 | `push_str` appends at the end |
| `Collections.StringBuffer.ReplaceAll` | ownership/src/main.rs:167 | replacing the full range leaves exactly the new text |
| `Collections.Concat` | common_collections/src/main.rs:32 | `s + &t` starts with s and continues with t, and nothing else |
| `Collections.HashMap.constructor` | common_collections/src/main.rs:38 | `HashMap::new()` is empty |
| `Collections.HashMap.Insert` | common_collections/src/main.rs:40-41 | `insert` sets or overwrites the key and returns the value it replaced, if any |
| `Collections.HashMap.EntryOrInsert` | common_collections/src/main.rs:43 | `entry(k).or_insert(v)` inserts v only when k is absent, never overwrites, and returns k's value |
| `Collections.HashMap.AssignEntry` | common_collections/src/main.rs:55 | a write through the entry's `&mut V` replaces that key's value only |
| `Collections.VecDemo` | common_collections/src/main.rs:5-18 | after push, `get(0)` is `Some(true)` and `pop` gives `Some(true)` and an empty vector; `&v[2]` of `vec![1, 3, 5]` is 5 |
| `Collections.StringDemo` | common_collections/src/main.rs:22-32 | the result is "New" followed by the greeting |
| `Collections.JerseyDemo` | common_collections/src/main.rs:38-43 | the map ends as Messi 10, Ronaldo 7, Bale 20 |
| `Collections.OccurrencesKeys` | common_collections/src/main.rs:49-56 | the keys of the count map are exactly the words, each counted at least once |
| `Collections.OccurrencesSnoc` | common_collections/src/main.rs:54-55 | one more word raises its count by one, from 0 if it was new, and leaves the other counts |
| `Collections.TallyIsOccurrences` | common_collections/src/main.rs:53-56 | counting the words one at a time, each adding one to its own count from 0, gives every word its number of occurrences |
| `Collections.WordCount` | common_collections/src/main.rs:51-56 | after the loop, each word's count is its number of occurrences among the whitespace-separated words |
| `Collections.OccurrencesTotal` | common_collections/src/main.rs:49-56 | the counts add up to the number of words |
| `Collections.TallyTotal` | common_collections/src/main.rs:53-56 | each counted word adds exactly one to the sum of the counts |
| `Collections.AlternatingWords` | common_collections/src/main.rs:49-53 | two words repeated four times with spaces between split back into those eight words |
| `Collections.AlternatingCounts` | common_collections/src/main.rs:49-56 | two different words repeated four times are counted four times each |
| `Collections.WordCountDemo` | common_collections/src/main.rs:49-56 | the count of `main`'s text is `{"Ancara": 4, "Messi": 4}` |

## Left out

- `run` reads its file with `fs::read_to_string` and prints the results. The model keeps only its choice between the two searches (`Minigrep.Run`), which takes the contents as a parameter.
- `env::var("IGNORE_CASE").is_ok()` is a boolean parameter of `Minigrep.NewConfig`. Reading the environment is not modelled, so neither is the case of a value that is set but not valid Unicode (`is_ok()` is false for it).
- minigrep/src/main.rs is not part of this model. It only reads argv, prints to stderr and exits.
- Unicode lower-casing tables are not modelled; `to_lowercase` is the parameter `lower`. No relation between case-insensitive and case-sensitive results is claimed, because final sigma breaks the obvious one.
- Minigrep.SearchCaseSensitive: line numbers are unbounded naturals; the u32 counter's overflow after 2^32 - 1 lines is not modelled.
- Minigrep.SearchCaseInsensitive: line numbers are unbounded naturals, as in the case-sensitive search.
- The order in which `HashMap` iterates and prints is not modelled; results are Dafny maps.
- Ownership.PlusOne: the overflow at i32::MAX is a precondition, as a debug build panics there; the wrap-around of a release build is not modelled.
- Structs.Area: the u32 overflow is a precondition, as a debug build panics there; the wrap-around of a release build is not modelled.
- `_return_string_own`, `_return_string_literal` and `_return_string_rc` each return "Hello". What they demonstrate is ownership, lifetime and reference counting, which a value model does not capture.
- The memory demos in ownership's `main` (lines 25-60 and 129-133) are left out: copies of arrays, `Box` moves and clones, `drop`, printing addresses with `{:p}` and `size_of`. They have no functional behaviour to state.
- `&new_str[..9]` in common_collections slices at a UTF-8 byte offset for printing only. It is left out, as is all `println!`, `dbg!` and `eprintln!` output.
- enums' `main` also adds two `i8`s, matches on a constant and uses `if let`. These only print values and are not modelled.
- The trait-bound demo functions `_get_article`, `_get_article_generic`, `_mutliple_trait_bounds` and `_where_clause` only print, so they are not modelled.
- Collections.WordCount: counts are unbounded naturals. The source's counts are `i32` (`or_insert(0)` at common_collections/src/main.rs:54), so `*count += 1` at line 55 panics in a debug build, or wraps in a release build, after 2^31 - 1 occurrences of one word. This is not modelled.
- Collections.Vec.Set, Ownership.AddThroughVecRef, Ownership.AddThroughArrayRef, Ownership.SwapBySums and Generics.Largest: where Rust panics, the model has a precondition instead. That is an index past the end for the first three, an i32 overflow of `+=` for the two `AddThrough` methods, an i32 overflow of the sum `**_ptr_a + **_ptr_b` for the swap, and an empty list for `largest`. With release-mode wrap-around the three steps of the swap would still exchange the values, but wrap-around is not modelled. The panic paths themselves are not modelled.
- Generics.Largest: `>` is a parameter required to be a strict partial order. The element type's own `PartialOrd` implementation is not modelled.
- The crates guessing_game (stdin and random numbers), errors (file system and panics), common_concepts (syntax demos), hello_cargo (a single print), restaurant (empty bodies) and cargo (it needs a module that is not present) have no functional core. They are not part of this model.
