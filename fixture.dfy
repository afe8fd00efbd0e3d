/**
  The sample frame of the analyser tests (ten cases in four districts) and
  what the risk assessment reports on it.
*/
module Fixture {
  import opened Wrappers
  import opened Frames
  import opened Tallies
  import opened Demographics

  const FixtureDistricts: seq<Cell> :=
    [Some(Text("Delhi")), Some(Text("Mumbai")), Some(Text("Bangalore")), Some(Text("Chennai")), Some(Text("Delhi")),
     Some(Text("Mumbai")), Some(Text("Bangalore")), Some(Text("Chennai")), Some(Text("Delhi")), Some(Text("Mumbai"))]

  const FixtureAges: seq<Cell> :=
    [Some(Num(5.0)), Some(Num(3.0)), Some(Num(7.0)), Some(Num(4.0)), Some(Num(6.0)),
     Some(Num(5.0)), Some(Num(4.0)), Some(Num(3.0)), Some(Num(7.0)), Some(Num(6.0))]

  /** The district pattern of the fixture, a b c d a b c d a b. */
  function Cycle<K>(a: K, b: K, c: K, d: K): seq<Option<K>> {
    [Some(a), Some(b), Some(c), Some(d), Some(a), Some(b), Some(c), Some(d), Some(a), Some(b)]
  }

  /** The pattern is two rounds of the four keys and then a and b again. */
  lemma CycleRounds<K(!new)>(a: K, b: K, c: K, d: K)
    ensures multiset(Cycle(a, b, c, d)) ==
      multiset{Some(a), Some(b), Some(c), Some(d)} + multiset{Some(a), Some(b), Some(c), Some(d)} + multiset{Some(a), Some(b)}
  {
    var round := [Some(a), Some(b), Some(c), Some(d)];
    assert Cycle(a, b, c, d) == round + round + [Some(a), Some(b)];
    assert multiset(round) == multiset{Some(a), Some(b), Some(c), Some(d)};
  }

  /** Each of the four keys is counted as often as the pattern holds it. */
  lemma CycleMultiset<K(!new)>(a: K, b: K, c: K, d: K)
    requires a != b && a != c && a != d && b != c && b != d && c != d
    ensures var xs := Cycle(a, b, c, d);
      && multiset(xs)[Some(a)] == 3 && multiset(xs)[Some(b)] == 3
      && multiset(xs)[Some(c)] == 2 && multiset(xs)[Some(d)] == 2
  {
    CycleRounds(a, b, c, d);
    var round := multiset{Some(a), Some(b), Some(c), Some(d)};
    var tail := multiset{Some(a), Some(b)};
    assert round[Some(a)] == 1 && round[Some(b)] == 1 && round[Some(c)] == 1 && round[Some(d)] == 1;
    assert tail[Some(a)] == 1 && tail[Some(b)] == 1 && tail[Some(c)] == 0 && tail[Some(d)] == 0;
  }

  lemma CycleObserved<K(!new)>(a: K, b: K, c: K, d: K)
    ensures Observed(Cycle(a, b, c, d)) == {a, b, c, d}
  {
    var xs := Cycle(a, b, c, d);
    assert xs[0].value == a && xs[1].value == b && xs[2].value == c && xs[3].value == d;
  }

  lemma FourDistinct<K(!new)>(a: K, b: K, c: K, d: K)
    requires a != b && a != c && a != d && b != c && b != d && c != d
    ensures |{a, b, c, d}| == 4
  {
    assert {a, b, c, d} == {a, b, c} + {d};
    assert {a, b, c} == {a, b} + {c};
    assert {a, b} == {a} + {b};
  }

  /** Counts 3, 3, 2, 2 over four keys: the mean is 2.5, so exactly the two
      entries with 3 are above it. */
  lemma AboveMeanOfFour<K(!new)>(t: Counts<K>, a: K, b: K, c: K, d: K)
    requires DistinctKeys(t)
    requires Lookup(t, a) == 3 && Lookup(t, b) == 3 && Lookup(t, c) == 2 && Lookup(t, d) == 2
    requires Keys(t) == {a, b, c, d}
    requires |t| == 4 && Total(t) == 10
    ensures forall e :: e in AboveMean(t) <==> e == (a, 3) || e == (b, 3)
  {
    forall e ensures e in AboveMean(t) <==> e == (a, 3) || e == (b, 3) {
      if e in t {
        var j :| 0 <= j < |t| && t[j] == e;
        LookupEntry(t, j);
        KeyAt(t, j);
      }
      if e == (a, 3) || e == (b, 3) {
        var j := KeyIndex(t, e.0);
        LookupEntry(t, j);
        assert t[j] == e;
      }
    }
  }

  /** The value counts of a column in the fixture's district pattern. */
  lemma CycleTally<K(!new)>(a: K, b: K, c: K, d: K)
    requires a != b && a != c && a != d && b != c && b != d && c != d
    ensures var t := Tally(Cycle(a, b, c, d));
      && Lookup(t, a) == 3 && Lookup(t, b) == 3 && Lookup(t, c) == 2 && Lookup(t, d) == 2
      && Keys(t) == {a, b, c, d}
      && forall e :: e in AboveMean(t) <==> e == (a, 3) || e == (b, 3)
  {
    var xs := Cycle(a, b, c, d);
    CycleMultiset(a, b, c, d);
    CycleObserved(a, b, c, d);
    AllPresent(xs);
    var t := Tally(xs);
    KeysCount(t);
    FourDistinct(a, b, c, d);
    AboveMeanOfFour(t, a, b, c, d);
  }

  /** Delhi and Mumbai have 3 cases each, Bangalore and Chennai 2; the mean
      is 2.5, so the high-incidence areas are Delhi and Mumbai. */
  lemma FixtureDistrictCounts()
    ensures var t := Tally(FixtureDistricts);
      && Lookup(t, Text("Delhi")) == 3 && Lookup(t, Text("Mumbai")) == 3
      && Lookup(t, Text("Bangalore")) == 2 && Lookup(t, Text("Chennai")) == 2
      && Keys(t) == {Text("Delhi"), Text("Mumbai"), Text("Bangalore"), Text("Chennai")}
      && forall e :: e in AboveMean(t) <==> e == (Text("Delhi"), 3) || e == (Text("Mumbai"), 3)
  {
    assert "Delhi"[0] == 'D' && "Mumbai"[0] == 'M' && "Bangalore"[0] == 'B' && "Chennai"[0] == 'C';
    assert FixtureDistricts == Cycle(Text("Delhi"), Text("Mumbai"), Text("Bangalore"), Text("Chennai"));
    CycleTally(Text("Delhi"), Text("Mumbai"), Text("Bangalore"), Text("Chennai"));
  }

  /** The ages 5 3 7 4 6 5 4 3 7 6 as numbers. */
  const AgeList: seq<Option<real>> :=
    [Some(5.0), Some(3.0), Some(7.0), Some(4.0), Some(6.0), Some(5.0), Some(4.0), Some(3.0), Some(7.0), Some(6.0)]

  lemma AgeListHigh()
    ensures HighRisk(AgeList) == 4
  {
    var ages := AgeList;
    var e: seq<Option<real>> := [];
    assert HighRisk(e) == 0;
    assert HighRisk(ages[..1]) == 0 by { assert ages[..1][..0] == e; }
    assert HighRisk(ages[..2]) == 1 by { assert ages[..2][..1] == ages[..1]; }
    assert HighRisk(ages[..3]) == 1 by { assert ages[..3][..2] == ages[..2]; }
    assert HighRisk(ages[..4]) == 2 by { assert ages[..4][..3] == ages[..3]; }
    assert HighRisk(ages[..5]) == 2 by { assert ages[..5][..4] == ages[..4]; }
    assert HighRisk(ages[..6]) == 2 by { assert ages[..6][..5] == ages[..5]; }
    assert HighRisk(ages[..7]) == 3 by { assert ages[..7][..6] == ages[..6]; }
    assert HighRisk(ages[..8]) == 4 by { assert ages[..8][..7] == ages[..7]; }
    assert HighRisk(ages[..9]) == 4 by { assert ages[..9][..8] == ages[..8]; }
    assert HighRisk(ages[..10]) == 4 by { assert ages[..10][..9] == ages[..9]; }
    assert ages[..10] == ages;
  }

  lemma AgeListModerate()
    ensures ModerateRisk(AgeList) == 6
  {
    var ages := AgeList;
    var e: seq<Option<real>> := [];
    assert ModerateRisk(e) == 0;
    assert ModerateRisk(ages[..1]) == 1 by { assert ages[..1][..0] == e; }
    assert ModerateRisk(ages[..2]) == 1 by { assert ages[..2][..1] == ages[..1]; }
    assert ModerateRisk(ages[..3]) == 2 by { assert ages[..3][..2] == ages[..2]; }
    assert ModerateRisk(ages[..4]) == 2 by { assert ages[..4][..3] == ages[..3]; }
    assert ModerateRisk(ages[..5]) == 3 by { assert ages[..5][..4] == ages[..4]; }
    assert ModerateRisk(ages[..6]) == 4 by { assert ages[..6][..5] == ages[..5]; }
    assert ModerateRisk(ages[..7]) == 4 by { assert ages[..7][..6] == ages[..6]; }
    assert ModerateRisk(ages[..8]) == 4 by { assert ages[..8][..7] == ages[..7]; }
    assert ModerateRisk(ages[..9]) == 5 by { assert ages[..9][..8] == ages[..8]; }
    assert ModerateRisk(ages[..10]) == 6 by { assert ages[..10][..9] == ages[..9]; }
    assert ages[..10] == ages;
  }

  /** On the fixture four patients are under 5 and six are 5 to 17, so no
      one falls in the Age >= 18 tier. */
  lemma FixtureAgeRisk()
    ensures HighRisk(Numbers(FixtureAges)) == 4
    ensures ModerateRisk(Numbers(FixtureAges)) == 6
    ensures LowRisk(Numbers(FixtureAges)) == 0
  {
    assert Numbers(FixtureAges) == AgeList;
    AgeListHigh();
    AgeListModerate();
    AllPresent(AgeList);
    AgeTiersPartition(AgeList);
  }
}
