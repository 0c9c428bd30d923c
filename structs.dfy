/**
 * The structs chapter: `User` and `Rectangle` records, the `Rectangle` methods, `make_user`,
 * and the field update of a mutable `User`.
 */
module Structs {
  import opened Ints

  datatype User = User(name: string, age: u32)

  datatype Rectangle = Rectangle(width: u32, height: u32)

  /**
   * `area`: width times height. A product above u32::MAX panics in a debug build, so it
   * must fit.
   */
  function Area(r: Rectangle): (a: u32)
    requires r.width * r.height <= U32_MAX
    ensures a == r.width * r.height
    ensures a == 0 <==> r.width == 0 || r.height == 0
  {
    r.width * r.height
  }

  /** `Rectangle::new`: both sides are stored as given. */
  function NewRectangle(width: u32, height: u32): (r: Rectangle)
    ensures r.width == width && r.height == height
  {
    Rectangle(width, height)
  }

  /**
   * `can_hold`: strictly wider and strictly taller. Because both comparisons are strict, a
   * rectangle that holds another has positive sides and is a different rectangle.
   */
  predicate CanHold(r: Rectangle, other: Rectangle)
    ensures CanHold(r, other) ==> r.width > 0 && r.height > 0
    ensures CanHold(r, other) ==> r != other
  {
    r.width > other.width && r.height > other.height
  }

  /** No rectangle can hold itself, because both comparisons are strict. */
  lemma CanHoldIrreflexive(r: Rectangle)
    ensures !CanHold(r, r)
  {
  }

  /** Of two rectangles, at most one holds the other. */
  lemma CanHoldAsymmetric(r: Rectangle, other: Rectangle)
    ensures !(CanHold(r, other) && CanHold(other, r))
  {
  }

  /** A rectangle that holds one which holds a third also holds the third. */
  lemma CanHoldTransitive(r: Rectangle, s: Rectangle, t: Rectangle)
    requires CanHold(r, s) && CanHold(s, t)
    ensures CanHold(r, t)
  {
  }

  /** A rectangle holds only rectangles of strictly smaller area. */
  lemma CanHoldSmallerArea(r: Rectangle, other: Rectangle)
    requires CanHold(r, other)
    ensures other.width * other.height < r.width * r.height
  {
    assert other.width * other.height <= r.width * other.height by {
      MultiplyMonotone(other.width, r.width, other.height);
    }
    assert r.width * other.height < r.width * r.height by {
      MultiplyStrictlyMonotone(r.width, other.height, r.height);
    }
  }

  /** Multiplying by a natural number keeps order. */
  lemma MultiplyMonotone(a: nat, b: nat, c: nat)
    requires a <= b
    ensures a * c <= b * c
  {
  }

  /** Multiplying by a positive number keeps strict order. */
  lemma MultiplyStrictlyMonotone(a: nat, b: nat, c: nat)
    requires 0 < a && b < c
    ensures a * b < a * c
  {
  }

  /** `rec.can_hold(&rec2)` in `main`: 30 by 10 cannot hold 20 by 40; its area is 300. */
  lemma CanHoldDemo()
    ensures !CanHold(Rectangle(30, 10), NewRectangle(20, 40))
    ensures Area(Rectangle(30, 10)) == 300
  {
  }

  /** `make_user`: both fields are stored as given. */
  function MakeUser(name: string, age: u32): (u: User)
    ensures u.name == name && u.age == age
  {
    User(name, age)
  }

  /** Assigning the `age` field of a mutable `User`: the age changes and the name does not. */
  function SetAge(u: User, age: u32): (r: User)
    ensures r.age == age && r.name == u.name
  {
    u.(age := age)
  }

  /** `_user1.age = 40` on John, aged 30. */
  lemma SetAgeDemo()
    ensures SetAge(User("John", 30), 40) == User("John", 40)
  {
  }
}
