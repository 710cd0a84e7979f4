/** Sizes of finite sets. */
module Cardinality {

  /** An injective map has as many values as keys. */
  lemma {:induction false} SameSize<A, B>(m: map<A, B>)
    requires forall a, b :: a in m && b in m && m[a] == m[b] ==> a == b
    ensures |m.Values| == |m.Keys|
    decreases |m|
  {
    if m != map[] {
      assert m.Keys != {};
      var a :| a in m.Keys;
      var rest := m - {a};
      SameSize(rest);
      assert m.Keys == rest.Keys + {a};
      assert m.Values == rest.Values + {m[a]} by {
        forall v | v in m.Values ensures v in rest.Values + {m[a]} {
          var k :| k in m && m[k] == v;
          assert k != a ==> k in rest && rest[k] == v;
        }
      }
      assert m[a] !in rest.Values;
    }
  }
}
