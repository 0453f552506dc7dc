/** Small shared vocabulary: optional values, bytes and IPv4 addresses. */
module Basics {

  datatype Option<+T> = None | Some(value: T)

  type Byte = n: int | 0 <= n < 256

  /** An IPv4 address as its 32-bit big-endian value. */
  type IPv4 = n: int | 0 <= n < 0x1_0000_0000

  /** A WireGuard public key in its canonical base64 form. */
  type Key = string

  /** `order` lists every element of `s` exactly once. */
  ghost predicate IsOrder<T>(order: seq<T>, s: set<T>) {
    && (forall i, j :: 0 <= i < j < |order| ==> order[i] != order[j])
    && Elems(order) == s
  }

  function Elems<T(==)>(s: seq<T>): set<T> {
    set x | x in s
  }

  lemma OrderAppend<T>(order: seq<T>, s: set<T>, x: T)
    requires IsOrder(order, s) && x !in s
    ensures IsOrder(order + [x], s + {x})
  {
  }

  /** The last of an order comes after an order of the others. */
  lemma OrderInit<T>(order: seq<T>)
    requires order != [] && IsOrder(order, Elems(order))
    ensures var init, last := order[..|order| - 1], order[|order| - 1];
            && IsOrder(init, Elems(init)) && last !in Elems(init)
            && Elems(order) == Elems(init) + {last} && order == init + [last]
  {
    var init, last := order[..|order| - 1], order[|order| - 1];
    assert order == init + [last];
    assert forall i :: 0 <= i < |init| ==> init[i] == order[i];
    ElemsAppend(init, last);
  }

  lemma ElemsAppend<T>(s: seq<T>, x: T)
    ensures Elems(s + [x]) == Elems(s) + {x}
  {
  }
}
