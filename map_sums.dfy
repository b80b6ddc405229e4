/**
 * Sums over the values of a finite map, independent of iteration order: the model of
 * `iter().map(..).sum()` over a `HashMap`, whose order is unspecified.
 */
module MapSums {

  /** Some key of a non-empty map; the same one every time for the same map. */
  ghost function Pick<K, V>(m: map<K, V>): (k: K)
    requires m != map[]
    ensures k in m
  {
    var k :| k in m; k
  }

  /** Sum of the values of a map of naturals. */
  ghost function Sum<K>(m: map<K, nat>): nat
    decreases |m|
  {
    if m == map[] then 0 else m[Pick(m)] + Sum(m - {Pick(m)})
  }

  /** Sum of the values of a map of reals. */
  ghost function SumReal<K>(m: map<K, real>): real
    decreases |m|
  {
    if m == map[] then 0.0 else m[Pick(m)] + SumReal(m - {Pick(m)})
  }

  /** Any key may be taken out first. */
  lemma {:induction false} SumRemove<K>(m: map<K, nat>, k: K)
    requires k in m
    ensures Sum(m) == m[k] + Sum(m - {k})
    decreases |m|
  {
    var j := Pick(m);
    if j != k {
      assert |m - {j}| < |m| && |m - {k}| < |m| by {
        assert (m - {j}).Keys == m.Keys - {j} && (m - {k}).Keys == m.Keys - {k};
      }
      SumRemove(m - {j}, k);
      SumRemove(m - {k}, j);
      assert m - {j} - {k} == m - {k} - {j};
    }
  }

  lemma {:induction false} SumRealRemove<K>(m: map<K, real>, k: K)
    requires k in m
    ensures SumReal(m) == m[k] + SumReal(m - {k})
    decreases |m|
  {
    var j := Pick(m);
    if j != k {
      assert |m - {j}| < |m| && |m - {k}| < |m| by {
        assert (m - {j}).Keys == m.Keys - {j} && (m - {k}).Keys == m.Keys - {k};
      }
      SumRealRemove(m - {j}, k);
      SumRealRemove(m - {k}, j);
      assert m - {j} - {k} == m - {k} - {j};
    }
  }

  /** Overwriting one entry changes the sum by the difference. */
  lemma SumUpdate<K>(m: map<K, nat>, k: K, v: nat)
    ensures k in m ==> Sum(m[k := v]) == Sum(m) - m[k] + v
    ensures k !in m ==> Sum(m[k := v]) == Sum(m) + v
  {
    var m' := m[k := v];
    SumRemove(m', k);
    assert m' - {k} == m - {k};
    if k in m {
      SumRemove(m, k);
    } else {
      assert m - {k} == m;
    }
  }

  /** Each value is at most the sum. */
  lemma ValueAtMostSum<K>(m: map<K, nat>, k: K)
    requires k in m
    ensures m[k] <= Sum(m)
  {
    SumRemove(m, k);
  }

  /** The sum is zero exactly when every value is. */
  lemma {:induction false} SumZero<K>(m: map<K, nat>)
    ensures Sum(m) == 0 <==> forall k :: k in m ==> m[k] == 0
    decreases |m|
  {
    if m != map[] {
      var j := Pick(m);
      assert |m - {j}| < |m| by { assert (m - {j}).Keys == m.Keys - {j}; }
      SumZero(m - {j});
      forall k | k in m && Sum(m) == 0 ensures m[k] == 0 {
        ValueAtMostSum(m, k);
      }
    }
  }

  /** Dividing every value by s divides the sum by s. */
  lemma {:induction false} SumScaled<K>(m: map<K, nat>, s: real)
    requires s > 0.0
    ensures SumReal(Scaled(m, s)) == Sum(m) as real / s
    decreases |m|
  {
    if m == map[] {
      assert Scaled(m, s) == map[];
      assert Sum(m) == 0 && SumReal(Scaled(m, s)) == 0.0;
      assert 0.0 / s == 0.0;
    } else {
      var j := Pick(m);
      var rest := m - {j};
      assert |rest| < |m| by { assert rest.Keys == m.Keys - {j}; }
      SumScaled(rest, s);
      var sm, sr := Scaled(m, s), Scaled(rest, s);
      assert sm - {j} == sr by {
        assert (sm - {j}).Keys == sr.Keys;
      }
      SumRealRemove(sm, j);
      assert SumReal(sm) == sm[j] + SumReal(sr);
      assert sm[j] == m[j] as real / s;
      SumRemove(m, j);
      var a, b := m[j] as real, Sum(rest) as real;
      assert SumReal(sm) == a / s + b / s;
      DivDistributes(a, b, s);
      assert Sum(m) as real == a + b;
    }
  }

  /** Every value divided by s. */
  ghost function Scaled<K>(m: map<K, nat>, s: real): (r: map<K, real>)
    requires s > 0.0
    ensures r.Keys == m.Keys
  {
    map k | k in m :: m[k] as real / s
  }

  lemma DivDistributes(x: real, y: real, s: real)
    requires s > 0.0
    ensures (x + y) / s == x / s + y / s
  {
    assert (x / s) * s == x && (y / s) * s == y;
    assert (x / s + y / s) * s == x + y;
  }

  lemma DivSelf(s: real)
    requires s > 0.0
    ensures s / s == 1.0
  {
  }

  /** A map whose values all equal v sums to v times the number of keys. */
  lemma {:induction false} SumConstant<K>(m: map<K, nat>, v: nat)
    requires forall k :: k in m ==> m[k] == v
    ensures Sum(m) == |m| * v
    decreases |m|
  {
    if m != map[] {
      var j := Pick(m);
      assert |m - {j}| == |m| - 1 by { assert (m - {j}).Keys == m.Keys - {j}; }
      SumConstant(m - {j}, v);
      assert (|m| - 1) * v + v == |m| * v;
    }
  }

  /** Sum of the values of m at the keys ks, in the order of ks. */
  ghost function SumAt<K>(m: map<K, real>, ks: seq<K>): real
    requires forall i :: 0 <= i < |ks| ==> ks[i] in m
  {
    if ks == [] then 0.0 else m[ks[0]] + SumAt(m, ks[1..])
  }

  /** Summing along a duplicate-free enumeration of the keys gives the map's sum. */
  lemma {:induction false} SumAtKeys<K>(m: map<K, real>, ks: seq<K>)
    requires forall i, j :: 0 <= i < j < |ks| ==> ks[i] != ks[j]
    requires forall k :: k in m <==> k in ks
    ensures SumAt(m, ks) == SumReal(m)
    decreases |ks|
  {
    if ks == [] {
      assert m == map[] by { forall k | k in m ensures false { } }
    } else {
      var k := ks[0];
      var rest := m - {k};
      forall x ensures x in rest <==> x in ks[1..] {
        if x in ks[1..] {
          var i :| 0 <= i < |ks[1..]| && ks[1..][i] == x;
          assert ks[i + 1] == x;
        }
      }
      assert forall i, j :: 0 <= i < j < |ks[1..]| ==> ks[1..][i] != ks[1..][j] by {
        forall i, j | 0 <= i < j < |ks[1..]| ensures ks[1..][i] != ks[1..][j] {
          assert ks[1..][i] == ks[i + 1] && ks[1..][j] == ks[j + 1];
        }
      }
      SumAtKeys(rest, ks[1..]);
      SumRealRemove(m, k);
      SumAtRestrict(m, rest, ks[1..]);
    }
  }

  /** SumAt only looks at the keys listed. */
  lemma {:induction false} SumAtRestrict<K>(m: map<K, real>, m': map<K, real>, ks: seq<K>)
    requires forall i :: 0 <= i < |ks| ==> ks[i] in m && ks[i] in m' && m[ks[i]] == m'[ks[i]]
    ensures SumAt(m, ks) == SumAt(m', ks)
    decreases |ks|
  {
    if ks != [] {
      SumAtRestrict(m, m', ks[1..]);
    }
  }

  /** Multiplying every value by a multiplies the sum by a. */
  lemma {:induction false} SumAtScaled<K>(m: map<K, real>, a: real, scaled: map<K, real>, ks: seq<K>)
    requires forall i :: 0 <= i < |ks| ==> ks[i] in m && ks[i] in scaled && scaled[ks[i]] == a * m[ks[i]]
    ensures SumAt(scaled, ks) == a * SumAt(m, ks)
    decreases |ks|
  {
    if ks == [] {
      assert a * 0.0 == 0.0;
    } else {
      SumAtScaled(m, a, scaled, ks[1..]);
      Distributes(a, m[ks[0]], SumAt(m, ks[1..]), scaled[ks[0]], SumAt(scaled, ks[1..]));
    }
  }

  /** When the values of m add up to one, scaling them by a gives values adding up to a. */
  lemma SumAtScaledOne<K>(m: map<K, real>, a: real, scaled: map<K, real>, ks: seq<K>)
    requires forall i, j :: 0 <= i < j < |ks| ==> ks[i] != ks[j]
    requires forall k :: k in m <==> k in ks
    requires SumReal(m) == 1.0
    requires forall i :: 0 <= i < |ks| ==> ks[i] in scaled && scaled[ks[i]] == a * m[ks[i]]
    ensures SumAt(scaled, ks) == a
  {
    SumAtScaled(m, a, scaled, ks);
    SumAtKeys(m, ks);
    TimesOne(a, SumAt(m, ks), SumAt(scaled, ks));
  }

  lemma TimesOne(a: real, x: real, ax: real)
    requires x == 1.0 && ax == a * x
    ensures ax == a
  {
  }

  lemma Distributes(a: real, x: real, y: real, ax: real, ay: real)
    requires ax == a * x && ay == a * y
    ensures ax + ay == a * (x + y)
  {
  }
}
