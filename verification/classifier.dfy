/**
 The per-match classifier (`findMatchArbs`): tally, over the bookmakers of a
 match, how many outcomes each one's first market has; take the most frequent
 count as the match's shape; hand the match to the two-way or the three-way
 arbitrage routine, or skip it.

 The bodies of `findMaxKey`, `findTwoWayMatchArbs` and `findThreeWayMatchArbs`
 are not part of this model. They are passed in as a `Routines` value; the two
 arbitrage routines are represented by the entries they append to the list.
 */
module Classifier {
  import opened Odds
  import opened Frequency

  /** The collaborators of the classifier whose bodies are outside the model. */
  datatype Routines = Routines(
    findMaxKey: map<int, int> -> int,
    twoWay: Match -> seq<Arb>,
    threeWay: Match -> seq<Arb>)

  /** The first-market sizes of the bookmakers, in bookmaker order. */
  function OutcomeCounts(bs: seq<Bookmaker>): (counts: seq<int>)
    requires forall i :: 0 <= i < |bs| ==> HasMarket(bs[i])
    ensures |counts| == |bs|
    ensures forall i :: 0 <= i < |bs| ==> counts[i] == FirstMarketSize(bs[i])
    decreases |bs|
  {
    if bs == [] then []
    else OutcomeCounts(bs[..|bs| - 1]) + [FirstMarketSize(bs[|bs| - 1])]
  }

  /** How many bookmakers of the match quote a first market with `n` outcomes. */
  ghost function Quoting(m: Match, n: int): nat
    requires WellFormed(m)
  {
    multiset(OutcomeCounts(m.bookmakers))[n]
  }

  /** The frequency map of the classifier: its keys are exactly the outcome
      counts that some bookmaker quotes, each maps to the number of bookmakers
      quoting it, and every bookmaker is counted once. */
  function OutcomeFrequencies(m: Match): (freqs: map<int, int>)
    requires WellFormed(m)
    ensures forall n :: n in freqs <==> n in OutcomeCounts(m.bookmakers)
    ensures forall n :: n in freqs ==> freqs[n] == Quoting(m, n)
    ensures SumValues(freqs) == |m.bookmakers|
    ensures Positive(freqs)
    ensures freqs == map[] <==> |m.bookmakers| == 0
  {
    var counts := OutcomeCounts(m.bookmakers);
    TallySum(counts);
    assert counts != [] ==> counts[0] in counts;
    Tally(counts)
  }

  /** The count `findMaxKey` selects as the shape of the match: with a picker
      meeting the demand, a most frequent count whenever the match has
      bookmakers. */
  function SelectedCount(r: Routines, m: Match): (c: int)
    requires WellFormed(m)
    ensures ValidMaxKey(r.findMaxKey) && |m.bookmakers| > 0 ==> IsMaxKey(OutcomeFrequencies(m), c)
  {
    r.findMaxKey(OutcomeFrequencies(m))
  }

  /** Appends to `arbs` what the routine for the match's shape finds: the arb
      list only ever grows; a shape of 2 appends exactly the two-way routine's
      entries, a shape of 3 exactly the three-way routine's, and any other shape
      (0 silently, the rest with a console message) leaves it unchanged. */
  function FindMatchArbs(r: Routines, m: Match, arbs: seq<Arb>): (arbs': seq<Arb>)
    requires WellFormed(m)
    ensures arbs <= arbs'
    ensures SelectedCount(r, m) == 2 ==> arbs' == arbs + r.twoWay(m)
    ensures SelectedCount(r, m) == 3 ==> arbs' == arbs + r.threeWay(m)
    ensures SelectedCount(r, m) != 2 && SelectedCount(r, m) != 3 ==> arbs' == arbs
  {
    var shape := SelectedCount(r, m);
    if shape == 0 then arbs
    else if shape == 2 then arbs + r.twoWay(m)
    else if shape == 3 then arbs + r.threeWay(m)
    else arbs
  }

  /** With a `findMaxKey` that returns a most frequent key, the selected count
      of a match with bookmakers is one that some bookmaker quotes, and no
      other count is quoted by more bookmakers. */
  lemma SelectedCountIsMostFrequent(r: Routines, m: Match)
    requires WellFormed(m)
    requires ValidMaxKey(r.findMaxKey)
    requires |m.bookmakers| > 0
    ensures exists i :: 0 <= i < |m.bookmakers| && FirstMarketSize(m.bookmakers[i]) == SelectedCount(r, m)
    ensures forall n :: Quoting(m, n) <= Quoting(m, SelectedCount(r, m))
  {
    var freqs := OutcomeFrequencies(m);
    var counts := OutcomeCounts(m.bookmakers);
    assert counts[0] in counts;
    assert freqs != map[];
    var c := SelectedCount(r, m);
    assert IsMaxKey(freqs, c);
    forall n
      ensures Quoting(m, n) <= Quoting(m, c)
    {
      if n !in freqs {
        assert n !in counts;
      }
    }
    var k :| 0 <= k < |counts| && counts[k] == c;
  }

  /** A count quoted by strictly more bookmakers than any other is the shape,
      whichever way `findMaxKey` breaks ties elsewhere. */
  lemma PluralityDecides(r: Routines, m: Match, n: int)
    requires WellFormed(m)
    requires ValidMaxKey(r.findMaxKey)
    requires forall k :: k != n ==> Quoting(m, k) < Quoting(m, n)
    ensures SelectedCount(r, m) == n
  {
    assert Quoting(m, n + 1) < Quoting(m, n);
    var counts := OutcomeCounts(m.bookmakers);
    assert n in counts;
    SelectedCountIsMostFrequent(r, m);
  }

  /** So a match whose bookmakers mostly quote two outcomes goes to the two-way
      routine, and one whose bookmakers mostly quote three goes to the three-way
      routine. */
  lemma PluralityDispatch(r: Routines, m: Match, n: int, arbs: seq<Arb>)
    requires WellFormed(m)
    requires ValidMaxKey(r.findMaxKey)
    requires forall k :: k != n ==> Quoting(m, k) < Quoting(m, n)
    ensures n == 2 ==> FindMatchArbs(r, m, arbs) == arbs + r.twoWay(m)
    ensures n == 3 ==> FindMatchArbs(r, m, arbs) == arbs + r.threeWay(m)
    ensures n != 2 && n != 3 ==> FindMatchArbs(r, m, arbs) == arbs
  {
    PluralityDecides(r, m, n);
  }

  /** A match with bookmakers none of which quotes a two- or three-outcome first
      market adds nothing, however `findMaxKey` breaks ties. */
  lemma UnsupportedShapesAddNothing(r: Routines, m: Match, arbs: seq<Arb>)
    requires WellFormed(m)
    requires ValidMaxKey(r.findMaxKey)
    requires |m.bookmakers| > 0
    requires forall i :: 0 <= i < |m.bookmakers| ==>
      FirstMarketSize(m.bookmakers[i]) != 2 && FirstMarketSize(m.bookmakers[i]) != 3
    ensures FindMatchArbs(r, m, arbs) == arbs
  {
    SelectedCountIsMostFrequent(r, m);
  }

  /** The entries a match contributes do not depend on the list they are
      appended to. */
  lemma FindMatchArbsAppends(r: Routines, m: Match, arbs: seq<Arb>)
    requires WellFormed(m)
    ensures FindMatchArbs(r, m, arbs) == arbs + FindMatchArbs(r, m, [])
  {
    var c := SelectedCount(r, m);
    if c == 2 {
      assert FindMatchArbs(r, m, []) == r.twoWay(m);
    } else if c == 3 {
      assert FindMatchArbs(r, m, []) == r.threeWay(m);
    } else {
      assert FindMatchArbs(r, m, []) == [];
    }
  }

  /** A match quoted by five bookmakers, three with a two-outcome first market
      and two with a three-outcome one. */
  function MixedShapesMatch(): Match {
    var home := Outcome("", "Home", 2.10);
    var away := Outcome("", "Away", 1.80);
    var draw := Outcome("", "Draw", 3.00);
    var two := Market([home, away]);
    var three := Market([home, draw, away]);
    Match("id", "soccer", "Soccer", "2024-01-01T00:00:00Z", "Home", "Away",
      [Bookmaker("a", [two]), Bookmaker("b", [three]), Bookmaker("c", [two]),
       Bookmaker("d", [three]), Bookmaker("e", [two])])
  }

  /** An example rather than a general fact: three of its bookmakers quote two
      outcomes, two quote three, none quotes any other count. */
  lemma MixedShapesQuoting()
    ensures WellFormed(MixedShapesMatch())
    ensures forall k :: k != 2 ==> Quoting(MixedShapesMatch(), k) < Quoting(MixedShapesMatch(), 2)
  {
    var bs := MixedShapesMatch().bookmakers;
    assert FirstMarketSize(bs[0]) == 2 && FirstMarketSize(bs[1]) == 3 && FirstMarketSize(bs[2]) == 2;
    assert FirstMarketSize(bs[3]) == 3 && FirstMarketSize(bs[4]) == 2;
    var counts := OutcomeCounts(bs);
    assert counts == [2, 3, 2, 3, 2];
    assert multiset(counts) == multiset{2, 2, 2, 3, 3};
  }

  /** That match is classified as two-way, whichever most frequent key
      `findMaxKey` returns. */
  lemma MixedShapesExample(r: Routines, arbs: seq<Arb>)
    requires ValidMaxKey(r.findMaxKey)
    ensures WellFormed(MixedShapesMatch())
    ensures FindMatchArbs(r, MixedShapesMatch(), arbs) == arbs + r.twoWay(MixedShapesMatch())
  {
    MixedShapesQuoting();
    PluralityDispatch(r, MixedShapesMatch(), 2, arbs);
  }
}
