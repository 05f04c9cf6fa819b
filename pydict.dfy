/** Python's `dict(pairs)`: a dictionary built from an iterable of key/value
    pairs, in which a later pair overrides an earlier pair with the same key.
    Insertion order is not modelled: the result is a Dafny `map`. */
module PyDict {

  /** `dict(pairs)`. The last pair is applied last. */
  function DictOf<K, V>(pairs: seq<(K, V)>): (m: map<K, V>)
    ensures m.Keys == set i | 0 <= i < |pairs| :: pairs[i].0
  {
    if pairs == [] then map[]
    else
      var init, last := pairs[..|pairs| - 1], pairs[|pairs| - 1];
      var m := DictOf(init);
      assert forall i | 0 <= i < |init| :: init[i] == pairs[i];
      m[last.0 := last.1]
  }

  /** Appending one pair updates (or adds) that one key. */
  lemma DictOfSnoc<K, V>(pairs: seq<(K, V)>, p: (K, V))
    ensures DictOf(pairs + [p]) == DictOf(pairs)[p.0 := p.1]
  {
    assert (pairs + [p])[..|pairs|] == pairs;
  }

  /** Last wins: the value stored under a key is the value of the last pair
      that carries that key. */
  lemma {:induction false} DictOfLastWins<K, V>(pairs: seq<(K, V)>, i: nat)
    requires i < |pairs|
    requires forall j :: i < j < |pairs| ==> pairs[j].0 != pairs[i].0
    ensures pairs[i].0 in DictOf(pairs)
    ensures DictOf(pairs)[pairs[i].0] == pairs[i].1
  {
    var n := |pairs|;
    var init := pairs[..n - 1];
    assert pairs == init + [pairs[n - 1]];
    DictOfSnoc(init, pairs[n - 1]);
    if i < n - 1 {
      DictOfLastWins(init, i);
    }
  }

  /** `dict(a + b)` is `dict(a)` updated with `dict(b)`: the later pairs win. */
  lemma {:induction false} DictOfConcat<K, V>(a: seq<(K, V)>, b: seq<(K, V)>)
    ensures DictOf(a + b) == DictOf(a) + DictOf(b)
  {
    if b == [] {
      assert a + b == a;
    } else {
      var init, last := b[..|b| - 1], b[|b| - 1];
      assert b == init + [last];
      assert a + b == (a + init) + [last];
      calc {
        DictOf(a + b);
        { DictOfSnoc(a + init, last); }
        DictOf(a + init)[last.0 := last.1];
        { DictOfConcat(a, init); }
        (DictOf(a) + DictOf(init))[last.0 := last.1];
        DictOf(a) + DictOf(init)[last.0 := last.1];
        { DictOfSnoc(init, last); }
        DictOf(a) + DictOf(b);
      }
    }
  }
}
