/**
 * The enums chapter: the `IpAddr` and `Message` enums, the text `route` and `get_message`
 * print for each variant, and the linear search `does_exist` returning an `Option`.
 */
module Enums {
  import opened Ints
  import opened Wrappers

  type u8 = x: int | 0 <= x < 0x100

  datatype IpAddr = V4(u8, u8, u8, u8) | V6(string)

  datatype Message =
    | Quit
    | Move(x: i32, y: i32)
    | Write(string)
    | ChangeColor(u32, u32, u32)

  /**
   * `does_exist`: the index of the first element equal to target, or None when no element
   * is.
   */
  method DoesExist(a: seq<i32>, target: i32) returns (r: Option<nat>)
    ensures r.Some? ==> r.value < |a| && a[r.value] == target
    ensures r.Some? ==> forall j :: 0 <= j < r.value ==> a[j] != target
    ensures r.None? <==> target !in a
  {
    var index := 0;
    while index < |a|
      invariant 0 <= index <= |a|
      invariant target !in a[..index]
    {
      if a[index] == target {
        return Some(index);
      }
      index := index + 1;
    }
    assert a[..index] == a;
    return None;
  }

  /** `does_exist(&[1, 2, 3, 4, 5], 3)` in `main`. */
  method DoesExistDemo() returns (r: Option<nat>)
    ensures r == Some(2)
  {
    var a := [1, 2, 3, 4, 5];
    r := DoesExist(a, 3);
    assert a[2] == 3;
  }

  /** The line `route` prints: the version of the address, whatever its contents. */
  function Route(ip: IpAddr): (line: string)
    ensures ip.V4? <==> line == "Version 4"
    ensures ip.V6? <==> line == "Version 6"
  {
    match ip
    case V4(_, _, _, _) => "Version 4"
    case V6(_) => "Version 6"
  }

  /** Two addresses print the same line exactly when they are of the same version. */
  lemma RouteSeparatesVersions(a: IpAddr, b: IpAddr)
    ensures Route(a) == Route(b) <==> a.V4? == b.V4?
  {
  }

  /** The variant of a message, numbered in declaration order. */
  function VariantIndex(m: Message): nat {
    match m
    case Quit => 0
    case Move(_, _) => 1
    case Write(_) => 2
    case ChangeColor(_, _, _) => 3
  }

  /** The line `get_message` prints: one text per variant, whatever the payload. */
  function GetMessage(m: Message): (line: string)
    ensures m.Quit? <==> line == "Quitting now"
    ensures m.Move? <==> line == "Moving"
    ensures m.Write? <==> line == "Writing now"
    ensures m.ChangeColor? <==> line == "Changing color"
  {
    match m
    case Quit => "Quitting now"
    case Move(_, _) => "Moving"
    case Write(_) => "Writing now"
    case ChangeColor(_, _, _) => "Changing color"
  }

  /** Two messages print the same line exactly when they are of the same variant. */
  lemma GetMessageSeparatesVariants(a: Message, b: Message)
    ensures GetMessage(a) == GetMessage(b) <==> VariantIndex(a) == VariantIndex(b)
  {
  }

  /** The three calls in `main`. */
  lemma RouteAndMessageDemo()
    ensures Route(V4(127, 0, 0, 1)) == "Version 4"
    ensures Route(V6("::1")) == "Version 6"
    ensures GetMessage(ChangeColor(10, 7, 23)) == "Changing color"
  {
  }
}
