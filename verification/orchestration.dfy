/**
 The run over all sports (`findArbs`): skip outright sports, stop after the
 sport cap, fetch the matches of every other sport and feed each match, in
 order, to the classifier, accumulating one arb list.

 Fetching is a parameter `fetch` (the provider's per-sport match list, keyed by
 sport key); the method also returns the sport keys it fetched, in order, as the
 trace of its requests to the provider. Writing the list to the database is not
 modelled.
 */
module Orchestration {
  import opened Odds
  import opened Classifier

  /** The loop stops when its counter of processed sports exceeds this value, so
      at most `SportLimit + 1` sports are processed. */
  const SportLimit: nat := 100

  /** The sports that are not outright markets, in list order. */
  function NonOutright(sports: seq<Sport>): (r: seq<Sport>)
    ensures |r| <= |sports|
    decreases |sports|
  {
    if sports == [] then []
    else
      var init := sports[..|sports| - 1];
      var last := sports[|sports| - 1];
      assert sports == init + [last];
      NonOutright(init) + (if last.hasOutrights then [] else [last])
  }

  /** A sport is kept exactly when it is in the list and is not an outright market. */
  lemma {:induction false} NonOutrightMembers(sports: seq<Sport>)
    ensures forall s :: s in NonOutright(sports) <==> s in sports && !s.hasOutrights
    decreases |sports|
  {
    if sports != [] {
      var init := sports[..|sports| - 1];
      var last := sports[|sports| - 1];
      assert sports == init + [last];
      NonOutrightMembers(init);
    }
  }

  /** Filtering distributes over concatenation, so it keeps the list order. */
  lemma {:induction false} NonOutrightAppend(a: seq<Sport>, b: seq<Sport>)
    ensures NonOutright(a + b) == NonOutright(a) + NonOutright(b)
    decreases |b|
  {
    if b != [] {
      var init := b[..|b| - 1];
      assert (a + b)[..|a + b| - 1] == a + init;
      NonOutrightAppend(a, init);
    } else {
      assert a + b == a;
    }
  }

  /** The sports the run processes: the first `SportLimit + 1` non-outright
      sports, in list order, or all of them when there are fewer. */
  function Processed(sports: seq<Sport>): (r: seq<Sport>)
    ensures r <= NonOutright(sports)
    ensures |r| == if |NonOutright(sports)| <= SportLimit then |NonOutright(sports)| else SportLimit + 1
    ensures forall s :: s in r ==> s in sports && !s.hasOutrights
  {
    var eligible := NonOutright(sports);
    NonOutrightMembers(sports);
    if |eligible| <= SportLimit + 1 then eligible else eligible[..SportLimit + 1]
  }

  /** The keys of the given sports, in order. */
  function SportKeys(ss: seq<Sport>): (keys: seq<string>)
    ensures |keys| == |ss|
    ensures forall i :: 0 <= i < |ss| ==> keys[i] == ss[i].sportKey
    decreases |ss|
  {
    if ss == [] then [] else SportKeys(ss[..|ss| - 1]) + [ss[|ss| - 1].sportKey]
  }

  /** The matches of the given sports, sport by sport, each sport's in the
      provider's order. */
  function AllMatches(ss: seq<Sport>, fetch: string -> seq<Match>): seq<Match>
    decreases |ss|
  {
    if ss == [] then [] else AllMatches(ss[..|ss| - 1], fetch) + fetch(ss[|ss| - 1].sportKey)
  }

  /** Feeds the matches to the classifier in order, starting from `arbs`: the
      starting list is kept as a prefix, so earlier entries are never removed or
      altered. */
  function MatchesArbs(r: Routines, ms: seq<Match>, arbs: seq<Arb>): (arbs': seq<Arb>)
    requires AllWellFormed(ms)
    ensures arbs <= arbs'
    decreases |ms|
  {
    if ms == [] then arbs
    else FindMatchArbs(r, ms[|ms| - 1], MatchesArbs(r, ms[..|ms| - 1], arbs))
  }

  lemma AllWellFormedAppend(a: seq<Match>, b: seq<Match>)
    requires AllWellFormed(a) && AllWellFormed(b)
    ensures AllWellFormed(a + b)
  {
    forall i | 0 <= i < |a + b|
      ensures WellFormed((a + b)[i])
    {
      if i < |a| {
        assert (a + b)[i] == a[i];
      } else {
        assert (a + b)[i] == b[i - |a|];
      }
    }
  }

  /** Classifying `a` and then `b` is classifying `a + b`. */
  lemma {:induction false} MatchesArbsAppend(r: Routines, a: seq<Match>, b: seq<Match>, arbs: seq<Arb>)
    requires AllWellFormed(a) && AllWellFormed(b)
    ensures AllWellFormed(a + b)
    ensures MatchesArbs(r, a + b, arbs) == MatchesArbs(r, b, MatchesArbs(r, a, arbs))
    decreases |b|
  {
    AllWellFormedAppend(a, b);
    if b == [] {
      assert a + b == a;
    } else {
      var init := b[..|b| - 1];
      assert (a + b)[..|a + b| - 1] == a + init;
      assert (a + b)[|a + b| - 1] == b[|b| - 1];
      MatchesArbsAppend(r, a, init, arbs);
    }
  }

  lemma ConcatAssoc<T>(a: seq<T>, b: seq<T>, c: seq<T>)
    ensures (a + b) + c == a + (b + c)
  {
  }

  lemma TakeOfAppend<T>(a: seq<T>, b: seq<T>, k: nat)
    requires k <= |a|
    ensures (a + b)[..k] == a[..k]
  {
  }

  /** The entries each match contributes on its own, concatenated in match order. */
  function Contributions(r: Routines, ms: seq<Match>): seq<Arb>
    requires AllWellFormed(ms)
    decreases |ms|
  {
    if ms == [] then [] else Contributions(r, ms[..|ms| - 1]) + FindMatchArbs(r, ms[|ms| - 1], [])
  }

  /** Every match is classified exactly once, in order: the result is the
      starting list followed by each match's own contribution, in match order,
      whatever the starting list was. */
  lemma {:induction false} MatchesArbsIsContributions(r: Routines, ms: seq<Match>, arbs: seq<Arb>)
    requires AllWellFormed(ms)
    ensures MatchesArbs(r, ms, arbs) == arbs + Contributions(r, ms)
    decreases |ms|
  {
    if ms != [] {
      var init := ms[..|ms| - 1];
      var last := ms[|ms| - 1];
      var before := MatchesArbs(r, init, arbs);
      var c := Contributions(r, init);
      var f := FindMatchArbs(r, last, []);
      MatchesArbsIsContributions(r, init, arbs);
      FindMatchArbsAppends(r, last, before);
      assert MatchesArbs(r, ms, arbs) == before + f;
      assert Contributions(r, ms) == c + f;
      ConcatAssoc(arbs, c, f);
    }
  }

  /** The inner loop of the run: classifies the matches of one sport in order. */
  method ClassifyMatches(r: Routines, matches: seq<Match>, arbs: seq<Arb>) returns (arbs': seq<Arb>)
    requires AllWellFormed(matches)
    ensures arbs' == MatchesArbs(r, matches, arbs)
  {
    arbs' := arbs;
    var j := 0;
    while j < |matches|
      invariant 0 <= j <= |matches|
      invariant arbs' == MatchesArbs(r, matches[..j], arbs)
    {
      assert matches[..j + 1][..j] == matches[..j];
      arbs' := FindMatchArbs(r, matches[j], arbs');
      j := j + 1;
    }
    assert matches[..|matches|] == matches;
  }

  /** One more sport of the list: the filter grows by that sport unless it is
      an outright market. */
  lemma NonOutrightStep(sports: seq<Sport>, i: nat)
    requires i < |sports|
    ensures sports[i].hasOutrights ==> NonOutright(sports[..i + 1]) == NonOutright(sports[..i])
    ensures !sports[i].hasOutrights ==> NonOutright(sports[..i + 1]) == NonOutright(sports[..i]) + [sports[i]]
  {
    assert sports[..i + 1] == sports[..i] + [sports[i]];
    NonOutrightAppend(sports[..i], [sports[i]]);
    assert [sports[i]][..0] == [];
    assert NonOutright(sports[..i]) + [] == NonOutright(sports[..i]);
  }

  /** The non-outright sports of a prefix of the list are a prefix of the
      non-outright sports of the whole list. */
  lemma NonOutrightPrefix(sports: seq<Sport>, i: nat)
    requires i <= |sports|
    ensures NonOutright(sports[..i]) <= NonOutright(sports)
  {
    assert sports == sports[..i] + sports[i..];
    NonOutrightAppend(sports[..i], sports[i..]);
  }

  /** A non-outright sport met while the counter is at most `SportLimit` is
      one of the processed sports. */
  lemma ProcessedStep(sports: seq<Sport>, i: nat)
    requires i < |sports| && !sports[i].hasOutrights
    requires |NonOutright(sports[..i])| <= SportLimit
    ensures NonOutright(sports[..i + 1]) == NonOutright(sports[..i]) + [sports[i]]
    ensures NonOutright(sports[..i + 1]) <= Processed(sports)
    ensures sports[i] in Processed(sports)
  {
    NonOutrightStep(sports, i);
    NonOutrightPrefix(sports, i + 1);
    var done' := NonOutright(sports[..i + 1]);
    assert done'[|done'| - 1] == sports[i];
  }

  /** One more processed sport adds its key to the fetched keys and its matches
      to the classified matches. */
  lemma SportSnoc(done: seq<Sport>, sport: Sport, fetch: string -> seq<Match>)
    ensures SportKeys(done + [sport]) == SportKeys(done) + [sport.sportKey]
    ensures AllMatches(done + [sport], fetch) == AllMatches(done, fetch) + fetch(sport.sportKey)
  {
    assert (done + [sport])[..|done|] == done;
  }

  /** Everything the run knows after processing one more sport, in terms of
      what it knew before. */
  lemma SportStep(r: Routines, sports: seq<Sport>, i: nat, fetch: string -> seq<Match>, done: seq<Sport>)
    requires i < |sports| && !sports[i].hasOutrights
    requires done == NonOutright(sports[..i]) && |done| <= SportLimit
    requires forall s :: s in Processed(sports) ==> AllWellFormed(fetch(s.sportKey))
    requires AllWellFormed(AllMatches(done, fetch))
    ensures done + [sports[i]] == NonOutright(sports[..i + 1])
    ensures done + [sports[i]] <= Processed(sports)
    ensures AllWellFormed(fetch(sports[i].sportKey))
    ensures AllWellFormed(AllMatches(done + [sports[i]], fetch))
    ensures SportKeys(done + [sports[i]]) == SportKeys(done) + [sports[i].sportKey]
    ensures MatchesArbs(r, AllMatches(done + [sports[i]], fetch), []) ==
      MatchesArbs(r, fetch(sports[i].sportKey), MatchesArbs(r, AllMatches(done, fetch), []))
  {
    ProcessedStep(sports, i);
    SportSnoc(done, sports[i], fetch);
    MatchesArbsAppend(r, AllMatches(done, fetch), fetch(sports[i].sportKey), []);
  }

  /** When the loop ends, by reaching the end of the list or by hitting the cap,
      the sports it processed are exactly `Processed(sports)`. */
  lemma ProcessedDone(sports: seq<Sport>, i: nat)
    requires i <= |sports|
    requires NonOutright(sports[..i]) <= Processed(sports)
    requires i == |sports| || |NonOutright(sports[..i])| > SportLimit
    ensures NonOutright(sports[..i]) == Processed(sports)
  {
    if i == |sports| {
      assert sports[..i] == sports;
    }
  }

  /** The run: walks the sports in order, skipping outright sports without
      counting them, and stops once `SportLimit + 1` sports have been processed;
      for each processed sport it fetches the matches and classifies each in
      order. It fetches exactly the processed sports, and its result is what the
      matches of those sports contribute, in order, starting from an empty list. */
  method FindArbs(r: Routines, sports: seq<Sport>, fetch: string -> seq<Match>)
    returns (arbs: seq<Arb>, fetched: seq<string>)
    requires forall s :: s in Processed(sports) ==> AllWellFormed(fetch(s.sportKey))
    ensures fetched == SportKeys(Processed(sports))
    ensures |fetched| <= SportLimit + 1
    ensures AllWellFormed(AllMatches(Processed(sports), fetch))
    ensures arbs == MatchesArbs(r, AllMatches(Processed(sports), fetch), [])
  {
    arbs := [];
    fetched := [];
    var cnt := 0;
    var i := 0;
    ghost var done: seq<Sport> := [];
    assert sports[..i] == [];
    while i < |sports|
      invariant 0 <= i <= |sports|
      invariant done == NonOutright(sports[..i])
      invariant cnt == |done| <= SportLimit + 1
      invariant done <= Processed(sports)
      invariant AllWellFormed(AllMatches(done, fetch))
      invariant fetched == SportKeys(done)
      invariant arbs == MatchesArbs(r, AllMatches(done, fetch), [])
    {
      var sport := sports[i];
      if sport.hasOutrights {
        NonOutrightStep(sports, i);
      } else if cnt > SportLimit {
        break;
      } else {
        cnt := cnt + 1;
        SportStep(r, sports, i, fetch, done);
        fetched := fetched + [sport.sportKey];
        var matches := fetch(sport.sportKey);
        arbs := ClassifyMatches(r, matches, arbs);
        done := done + [sport];
      }
      i := i + 1;
    }
    ProcessedDone(sports, i);
  }

  /** An outright sport, wherever it stands in the list, is neither processed
      nor counted against the cap. */
  lemma OutrightsDoNotCount(a: seq<Sport>, o: Sport, b: seq<Sport>)
    requires o.hasOutrights
    ensures Processed(a + [o] + b) == Processed(a + b)
  {
    var ao := a + [o];
    NonOutrightAppend(ao, b);
    NonOutrightAppend(a, [o]);
    NonOutrightAppend(a, b);
    assert NonOutright([o]) == [] by {
      assert [o][..0] == [];
    }
    assert NonOutright(ao + b) == NonOutright(a + b);
  }

  /** Once `SportLimit + 1` non-outright sports have been seen, no later sport is
      examined: sports appended after them change nothing. */
  lemma LaterSportsNotExamined(sports: seq<Sport>, more: seq<Sport>)
    requires |NonOutright(sports)| > SportLimit
    ensures Processed(sports + more) == Processed(sports)
  {
    NonOutrightAppend(sports, more);
    var e := NonOutright(sports);
    var n := NonOutright(more);
    assert Processed(sports) == e[..SportLimit + 1] by {
      if |e| == SportLimit + 1 {
        assert e[..SportLimit + 1] == e;
      }
    }
    assert Processed(sports + more) == (e + n)[..SportLimit + 1] by {
      if |e + n| == SportLimit + 1 {
        assert (e + n)[..SportLimit + 1] == e + n;
      }
    }
    TakeOfAppend(e, n, SportLimit + 1);
  }
}
