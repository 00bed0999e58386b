/**
 Frequency maps from `int` to `int`, as the classifier builds them with
 `freqs[k]++` on a Go map, and the choice of a most frequent key.
 */
module Frequency {

  /** `freqs[k]++` on a Go map: a missing key reads as zero. */
  function Bump(freqs: map<int, int>, k: int): (r: map<int, int>)
    ensures r.Keys == freqs.Keys + {k}
    ensures k in freqs ==> r[k] == freqs[k] + 1
    ensures k !in freqs ==> r[k] == 1
    ensures forall j :: j in freqs && j != k ==> r[j] == freqs[j]
  {
    freqs[k := (if k in freqs then freqs[k] else 0) + 1]
  }

  /** Every key was counted at least once, as in a map built only by `freqs[k]++`. */
  predicate Positive(freqs: map<int, int>) {
    forall k :: k in freqs ==> freqs[k] > 0
  }

  /** The map obtained by bumping every element of `xs` once, in order: its
      keys are exactly the elements of `xs`, and each key maps to how often it
      occurs in `xs`. */
  function Tally(xs: seq<int>): (freqs: map<int, int>)
    ensures forall k :: k in freqs <==> k in xs
    ensures forall k :: k in freqs ==> freqs[k] == multiset(xs)[k]
    ensures Positive(freqs)
    decreases |xs|
  {
    if xs == [] then map[]
    else
      var init := xs[..|xs| - 1];
      var last := xs[|xs| - 1];
      assert xs == init + [last];
      Bump(Tally(init), last)
  }

  /** Some element of a non-empty set. */
  ghost function Pick(s: set<int>): (k: int)
    requires s != {}
    ensures k in s
  {
    assert exists k :: k in s by {
      if forall k :: k !in s {
        assert false;
      }
    }
    var k :| k in s; k
  }

  /** The sum of the values of a map. */
  ghost function SumValues(m: map<int, int>): int
    decreases |m|
  {
    if m.Keys == {} then 0
    else
      var k := Pick(m.Keys);
      var rest := m - {k};
      assert rest.Keys == m.Keys - {k};
      m[k] + SumValues(rest)
  }

  /** Taking two keys out of a map in either order gives the same map. */
  lemma RemoveTwo(m: map<int, int>, j: int, k: int)
    ensures (m - {j}) - {k} == (m - {k}) - {j}
  {
  }

  /** The sum does not depend on which key is taken out first. */
  lemma {:induction false} SumValuesRemove(m: map<int, int>, k: int)
    requires k in m
    ensures SumValues(m) == m[k] + SumValues(m - {k})
    decreases |m|
  {
    var j := Pick(m.Keys);
    if j != k {
      var mj := m - {j};
      var mk := m - {k};
      assert SumValues(m) == m[j] + SumValues(mj);
      assert mj.Keys == m.Keys - {j} && k in mj && mj[k] == m[k];
      assert mk.Keys == m.Keys - {k} && j in mk && mk[j] == m[j];
      SumValuesRemove(mj, k);
      SumValuesRemove(mk, j);
      RemoveTwo(m, j, k);
    }
  }

  /** Bumping a key adds exactly one to the sum. */
  lemma SumValuesBump(freqs: map<int, int>, k: int)
    ensures SumValues(Bump(freqs, k)) == SumValues(freqs) + 1
  {
    var r := Bump(freqs, k);
    SumValuesRemove(r, k);
    if k in freqs {
      SumValuesRemove(freqs, k);
      assert r - {k} == freqs - {k};
    } else {
      assert r - {k} == freqs;
    }
  }

  /** Each element of `xs` is counted exactly once: the frequencies sum to `|xs|`. */
  lemma {:induction false} TallySum(xs: seq<int>)
    ensures SumValues(Tally(xs)) == |xs|
    decreases |xs|
  {
    if xs != [] {
      TallySum(xs[..|xs| - 1]);
      SumValuesBump(Tally(xs[..|xs| - 1]), xs[|xs| - 1]);
    }
  }

  /** `k` is a key of `freqs` whose frequency no other key exceeds. */
  predicate IsMaxKey(freqs: map<int, int>, k: int) {
    k in freqs && forall j :: j in freqs ==> freqs[j] <= freqs[k]
  }

  /** What the program asks of `findMaxKey`: on every map it can be handed, a
      non-empty tally whose counts are all positive, it returns some most
      frequent key. Go map iteration is unordered, so no particular tie-break is
      implied, and nothing is asked of it on the empty map or on maps the
      tally never produces. */
  ghost predicate ValidMaxKey(pick: map<int, int> -> int) {
    forall freqs: map<int, int> :: freqs != map[] && Positive(freqs) ==> IsMaxKey(freqs, pick(freqs))
  }

  /** One function meeting that demand, so that the demand can be met. Which
      most frequent key it returns is left to the choice of `:|`. */
  ghost function FindMaxKey(freqs: map<int, int>): (k: int)
    ensures freqs != map[] ==> IsMaxKey(freqs, k)
    decreases |freqs|
  {
    if freqs.Keys == {} then 0
    else
      var j := Pick(freqs.Keys);
      var rest := freqs - {j};
      assert rest.Keys == freqs.Keys - {j};
      if rest.Keys == {} then
        assert freqs.Keys == {j};
        j
      else
        assert rest != map[];
        var best := FindMaxKey(rest);
        assert forall i :: i in freqs && i != j ==> i in rest && rest[i] == freqs[i];
        if freqs[best] <= freqs[j] then j else best
  }

  lemma FindMaxKeyIsValid()
    ensures ValidMaxKey(FindMaxKey)
  {
  }

  /** The scan of the usual Go picker: walk the keys, keeping the current key
      and value, and replace them only by a strictly larger value. The result
      is the seed key when no value beats the seed value, and otherwise a key
      holding the largest value. */
  ghost function ScanMax(freqs: map<int, int>, key: int, val: int): (k: int)
    ensures (k == key && forall j :: j in freqs ==> freqs[j] <= val)
         || (k in freqs && val < freqs[k] && forall j :: j in freqs ==> freqs[j] <= freqs[k])
    decreases |freqs|
  {
    if freqs.Keys == {} then key
    else
      var j := Pick(freqs.Keys);
      var rest := freqs - {j};
      assert rest.Keys == freqs.Keys - {j};
      assert forall i :: i in freqs && i != j ==> i in rest && rest[i] == freqs[i];
      if freqs[j] > val then ScanMax(rest, j, freqs[j]) else ScanMax(rest, key, val)
  }

  /** A picker seeded with key 0 and value 0: it yields 0 on the empty map. */
  ghost function ZeroSeededMaxKey(freqs: map<int, int>): int {
    ScanMax(freqs, 0, 0)
  }

  /** The zero-seeded picker meets the demand on every tally, and yields 0,
      the skipped shape, on the empty map. */
  lemma ZeroSeededIsValid()
    ensures ValidMaxKey(ZeroSeededMaxKey)
    ensures ZeroSeededMaxKey(map[]) == 0
  {
    forall freqs: map<int, int> | freqs != map[] && Positive(freqs)
      ensures IsMaxKey(freqs, ZeroSeededMaxKey(freqs))
    {
      var j := Pick(freqs.Keys);
      assert freqs[j] > 0;
    }
  }
}
