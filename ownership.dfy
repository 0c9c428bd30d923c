/**
 * The ownership chapter: `plus_one`, `first_word`, and the updates `main` makes in place
 * through `Box` and `&mut` references (the swap, `*num_mut += 2` on a `Vec`, `*x += 1` on an
 * array).
 */
module Ownership {
  import opened Ints
  import opened Collections

  /** `plus_one`: the successor of an i32. Rust's overflow check panics on i32::MAX. */
  function PlusOne(x: i32): (r: i32)
    requires x < I32_MAX
    ensures r > x && r - x == 1
  {
    x + 1
  }

  /** `plus_one(5)` in `main`. */
  lemma PlusOneOfFive()
    ensures PlusOne(5) == 6
  {
  }

  /** A `Box<i32>`: a heap cell holding one i32 that `*` reads and writes. */
  class Box {
    var value: i32

    /** `Box::new(v)` */
    constructor (v: i32)
      ensures value == v
    {
      value := v;
    }
  }

  /**
   * The three-step exchange through `&mut Box<i32>`: a gets the sum, b gets the sum minus b,
   * a gets the sum minus the new b. Rust never lets the two `&mut` alias, and the
   * sum must fit in an i32.
   */
  method SwapBySums(a: Box, b: Box)
    requires a != b
    requires IsI32(a.value + b.value)
    modifies a, b
    ensures a.value == old(b.value) && b.value == old(a.value)
  {
    a.value := a.value + b.value;
    b.value := a.value - b.value;
    a.value := a.value - b.value;
  }

  /** The swap of the boxed 10000000 and 20000000 in `main`. */
  method SwapDemo() returns (a: i32, b: i32)
    ensures a == 20000000 && b == 10000000
  {
    var boxA := new Box(10000000);
    var boxB := new Box(20000000);
    SwapBySums(boxA, boxB);
    a, b := boxA.value, boxB.value;
  }

  /** Reading a box, `*_x += 1`, then reading it through `&Box` and through `&i32`. */
  method DerefDemo() returns (a: i32, b: i32, c: i32)
    ensures a == 1 && b == 2 && c == 2
  {
    var x := new Box(1);
    a := x.value;
    x.value := x.value + 1;
    b := x.value;
    c := x.value;
  }

  /** `*x += d` through `x = &mut a[i]`: element i grows by d and no other element changes. */
  method AddThroughArrayRef(a: array<i32>, i: nat, d: int)
    requires i < a.Length && IsI32(a[i] + d)
    modifies a
    ensures a[i] == old(a[i]) + d
    ensures forall j :: 0 <= j < a.Length && j != i ==> a[j] == old(a[j])
  {
    a[i] := a[i] + d;
  }

  /** `*num_mut += d` through `num_mut = &mut v[i]`; indexing past the end panics. */
  method AddThroughVecRef(v: Vec<i32>, i: nat, d: int)
    requires i < |v.elems| && IsI32(v.elems[i] + d)
    modifies v
    ensures v.elems == old(v.elems)[i := old(v.elems[i]) + d]
  {
    v.Set(i, v.elems[i] + d);
  }

  /** `*x += 1` on `&mut a[1]` of `[0, 1, 2, 3]`. */
  method ArrayDemo() returns (r: seq<i32>)
    ensures r == [0, 2, 2, 3]
  {
    var a := new i32[4];
    a[0], a[1], a[2], a[3] := 0, 1, 2, 3;
    AddThroughArrayRef(a, 1, 1);
    r := a[..];
  }

  /** `*num_mut += 2` on `&mut v[1]` of `vec![1, 2, 3]`, the printed `*num_mut`, then `push(4)`. */
  method VecDemo() returns (printed: i32, r: seq<i32>)
    ensures printed == 4
    ensures r == [1, 4, 3, 4]
  {
    var v := new Vec<i32>.FromSeq([1, 2, 3]);
    AddThroughVecRef(v, 1, 2);
    printed := v.elems[1];
    v.Push(4);
    r := v.elems;
  }

  /** `_return_string_slot`: the caller's string is replaced, whole, by "Hello". */
  method ReturnStringSlot(output: StringBuffer)
    modifies output
    ensures output.text == "Hello"
  {
    output.ReplaceAll("Hello");
  }

  /** What `first_word` returns: a space-free prefix of s that stops at a space or at the end. */
  ghost predicate IsFirstWord(s: string, word: string) {
    |word| <= |s| && word == s[..|word|] && ' ' !in word && (|word| < |s| ==> s[|word|] == ' ')
  }

  /**
   * `first_word`: s up to its first space, or all of s. The source scans bytes; a space is
   * one byte in UTF-8 and no other character's encoding contains that byte, so the byte
   * offset of the first space and its character offset delimit the same prefix.
   */
  method FirstWord(s: string) returns (word: string)
    ensures IsFirstWord(s, word)
  {
    var i := 0;
    while i < |s|
      invariant 0 <= i <= |s|
      invariant ' ' !in s[..i]
    {
      if s[i] == ' ' {
        return s[..i];
      }
      i := i + 1;
    }
    return s;
  }

  /** The promise pins the word down: s has exactly one first word. */
  lemma FirstWordUnique(s: string, w1: string, w2: string)
    requires IsFirstWord(s, w1) && IsFirstWord(s, w2)
    ensures w1 == w2
  {
  }

  /** `s` has no space exactly when its first word is all of it. */
  lemma FirstWordWhole(s: string, word: string)
    requires IsFirstWord(s, word)
    ensures word == s <==> ' ' !in s
  {
  }

  /** `first_word("Hello World")` in `main`. */
  method FirstWordDemo() returns (word: string)
    ensures word == "Hello"
  {
    var s := "Hello World";
    word := FirstWord(s);
    assert IsFirstWord(s, "Hello") by {
      assert s[..5] == "Hello";
    }
    FirstWordUnique(s, word, "Hello");
  }
}
