// Shared vocabulary: optional values, machine-sized numbers and flattening.
module Common {

  datatype Option<+T> = None | Some(value: T)

  /** One byte on the wire. */
  type byte = b: int | 0 <= b < 256

  /** A Rust `u64`. */
  type u64 = n: int | 0 <= n < 0x1_0000_0000_0000_0000

  function Min(a: int, b: int): int {
    if a <= b then a else b
  }

  function Max(a: int, b: int): int {
    if a >= b then a else b
  }

  /** The concatenation of a list of lists. */
  function Flatten<T>(parts: seq<seq<T>>): seq<T> {
    if parts == [] then [] else parts[0] + Flatten(parts[1..])
  }

  lemma {:induction false} FlattenSnoc<T>(parts: seq<seq<T>>, last: seq<T>)
    ensures Flatten(parts + [last]) == Flatten(parts) + last
  {
    if parts == [] {
      assert parts + [last] == [last];
      assert [last][1..] == [];
    } else {
      FlattenSnoc(parts[1..], last);
      assert (parts + [last])[1..] == parts[1..] + [last];
    }
  }

  /** `Vec::retain(|k| k != key)`. */
  function Without<T(==)>(xs: seq<T>, key: T): seq<T> {
    if xs == [] then []
    else (if xs[0] == key then [] else [xs[0]]) + Without(xs[1..], key)
  }

  lemma {:induction false} WithoutHas<T>(xs: seq<T>, key: T, k: T)
    ensures k in Without(xs, key) <==> k in xs && k != key
  {
    if xs != [] {
      WithoutHas(xs[1..], key, k);
    }
  }

  /** There is always a number not yet in use. */
  lemma {:induction false} Above(ids: set<nat>) returns (n: nat)
    ensures forall k :: k in ids ==> k < n
    decreases |ids|
  {
    if ids == {} {
      n := 0;
    } else {
      var k :| k in ids;
      var m := Above(ids - {k});
      n := if k >= m then k + 1 else m;
      assert forall j :: j in ids ==> j == k || j in ids - {k};
    }
  }
}
