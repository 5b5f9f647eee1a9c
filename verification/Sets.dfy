/** Sizes and elements of finite sets. */
module Sets {
  function Bit(b: bool): nat {
    if b then 1 else 0
  }

  lemma SizeSplit<T>(s: set<T>, x: T)
    ensures |s| == |s - {x}| + Bit(x in s)
  {
    if x in s { assert s == (s - {x}) + {x}; } else { assert s == s - {x}; }
  }

  lemma SubsetSize<T>(a: set<T>, b: set<T>)
    requires a <= b
    ensures |a| <= |b|
  {
    assert b == a + (b - a);
  }

  function Elems<T(==)>(order: seq<T>): set<T> {
    set x | x in order
  }

  lemma ElemsCons<T>(order: seq<T>)
    requires order != []
    ensures Elems(order) == {order[0]} + Elems(order[1..])
  {
    assert order == [order[0]] + order[1..];
  }

  lemma ElemsSnoc<T>(order: seq<T>, longer: seq<T>, x: T)
    requires longer == order + [x]
    ensures Elems(longer) == Elems(order) + {x}
  {
  }
}
