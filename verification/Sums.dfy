/** Sums over a set of rows, in whatever order they are met. */
module Sums {

  ghost function SumOver<K(!new)>(keys: set<K>, worth: K -> int): int
    decreases |keys|
  {
    if keys == {} then 0
    else
      var k :| k in keys;
      worth(k) + SumOver(keys - {k}, worth)
  }

  /** Any row can be the one counted first. */
  lemma {:induction false} SumOverWithout<K(!new)>(keys: set<K>, k: K, worth: K -> int)
    requires k in keys
    ensures SumOver(keys, worth) == worth(k) + SumOver(keys - {k}, worth)
    decreases |keys|
  {
    assert (forall o :: o !in keys) ==> keys == {};
    var first :| first in keys && SumOver(keys, worth) == worth(first) + SumOver(keys - {first}, worth);
    if first != k {
      SumOverWithout(keys - {first}, k, worth);
      SumOverWithout(keys - {k}, first, worth);
      assert keys - {first} - {k} == keys - {k} - {first};
    }
  }

  lemma {:induction false} SumOverSame<K(!new)>(keys: set<K>, f: K -> int, g: K -> int)
    requires forall k | k in keys :: f(k) == g(k)
    ensures SumOver(keys, f) == SumOver(keys, g)
    decreases |keys|
  {
    assert (forall o :: o !in keys) ==> keys == {};
    if keys != {} {
      var k :| k in keys;
      SumOverWithout(keys, k, f);
      SumOverWithout(keys, k, g);
      SumOverSame(keys - {k}, f, g);
    }
  }

  lemma SumOverAdd<K(!new)>(keys: set<K>, k: K, worth: K -> int)
    requires k !in keys
    ensures SumOver(keys + {k}, worth) == SumOver(keys, worth) + worth(k)
  {
    SumOverWithout(keys + {k}, k, worth);
    assert keys + {k} - {k} == keys;
  }

  lemma {:induction false} SumOverNothing<K(!new)>(keys: set<K>, worth: K -> int)
    requires forall k | k in keys :: worth(k) == 0
    ensures SumOver(keys, worth) == 0
    decreases |keys|
  {
    assert (forall o :: o !in keys) ==> keys == {};
    if keys != {} {
      var k :| k in keys;
      SumOverWithout(keys, k, worth);
      SumOverNothing(keys - {k}, worth);
    }
  }

  lemma SumOverPair<K(!new)>(keys: set<K>, a: K, b: K, worth: K -> int)
    requires a != b && keys <= {a, b}
    ensures SumOver(keys, worth) == (if a in keys then worth(a) else 0) + (if b in keys then worth(b) else 0)
  {
    var rest := keys - {a};
    assert a in keys ==> keys == rest + {a};
    assert a !in keys ==> keys == rest;
    assert b in rest ==> rest == {} + {b};
    assert b !in rest ==> rest == {};
    SumOverAdd(rest, a, worth);
    SumOverAdd({}, b, worth);
  }

  lemma {:induction false} SumOverAtLeast<K(!new)>(keys: set<K>, k: K, worth: K -> int)
    requires k in keys && forall o | o in keys :: 0 <= worth(o)
    ensures worth(k) <= SumOver(keys, worth)
  {
    SumOverWithout(keys, k, worth);
    SumOverNonNegative(keys - {k}, worth);
  }

  lemma {:induction false} SumOverNonNegative<K(!new)>(keys: set<K>, worth: K -> int)
    requires forall o | o in keys :: 0 <= worth(o)
    ensures 0 <= SumOver(keys, worth)
    decreases |keys|
  {
    assert (forall o :: o !in keys) ==> keys == {};
    if keys != {} {
      var k :| k in keys;
      SumOverWithout(keys, k, worth);
      SumOverNonNegative(keys - {k}, worth);
    }
  }
}
