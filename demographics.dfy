/**
  Age-based views shared by both analysers: the five `pd.cut` age brackets
  and the fixed-threshold risk tiers (Age < 5, 5 <= Age < 18, Age >= 18).
*/
module Demographics {
  import opened Wrappers
  import opened Frames
  import opened Tallies

  predicate StrictlyIncreasing(bins: seq<real>) {
    forall i, j :: 0 <= i < j < |bins| ==> bins[i] < bins[j]
  }

  /** `pd.cut(a, bins)` with right-closed bins: the index i of the bin
      (bins[i], bins[i + 1]] holding a, if any. */
  function Cut(a: real, bins: seq<real>): (r: Option<nat>)
    requires StrictlyIncreasing(bins)
    ensures r.Some? ==> r.value + 1 < |bins| && bins[r.value] < a <= bins[r.value + 1]
    ensures r.None? <==> (|bins| < 2 || a <= bins[0] || a > bins[|bins| - 1])
  {
    if |bins| < 2 || a <= bins[0] then None
    else if a <= bins[1] then Some(0)
    else
      match Cut(a, bins[1..])
      case Some(j) => Some(j + 1)
      case None => None
  }

  /** Bins are disjoint: a lands in bin i exactly when bins[i] < a <= bins[i + 1]. */
  lemma CutExactlyOne(a: real, bins: seq<real>, i: nat)
    requires StrictlyIncreasing(bins) && i + 1 < |bins|
    ensures Cut(a, bins) == Some(i) <==> bins[i] < a <= bins[i + 1]
  {
    if bins[i] < a <= bins[i + 1] {
      forall j: nat | j + 1 < |bins| && j != i ensures !(bins[j] < a <= bins[j + 1]) {
        if j < i {
          assert bins[j + 1] <= bins[i];
        } else {
          assert bins[i + 1] <= bins[j];
        }
      }
    }
  }

  /** `Age < 5` and `pd.cut(Age, ...)` raise on a non-numeric Age column. */
  predicate AgeUnusable(t: Table) {
    t.Has("Age") && !IsNumeric(t.dtypes["Age"])
  }

  const AgeBins: seq<real> := [0.0, 5.0, 12.0, 18.0, 60.0, 100.0]

  const AgeLabels: seq<string> := ["0-5", "6-12", "13-18", "19-60", "60+"]

  /** The categories of the `Age_Group` column, in category order. */
  const AgeCategories: seq<Value> := [Text("0-5"), Text("6-12"), Text("13-18"), Text("19-60"), Text("60+")]

  /** The age bracket label of one age, if any. */
  function Bracket(a: real): (r: Option<string>)
    ensures r.Some? <==> 0.0 < a <= 100.0
    ensures r.Some? ==> r.value in AgeLabels
  {
    match Cut(a, AgeBins)
    case Some(i) => Some(AgeLabels[i])
    case None => None
  }

  /** Age 5 is '0-5', age 12 is '6-12', 60 is '19-60', 100 is '60+'; 0 and 101 have no bracket. */
  lemma BracketBoundaries()
    ensures Bracket(5.0) == Some("0-5") && Bracket(5.5) == Some("6-12")
    ensures Bracket(12.0) == Some("6-12") && Bracket(18.0) == Some("13-18")
    ensures Bracket(60.0) == Some("19-60") && Bracket(100.0) == Some("60+")
    ensures Bracket(0.0) == None && Bracket(100.5) == None
  {
    CutExactlyOne(5.0, AgeBins, 0);
    CutExactlyOne(5.5, AgeBins, 1);
    CutExactlyOne(12.0, AgeBins, 1);
    CutExactlyOne(18.0, AgeBins, 2);
    CutExactlyOne(60.0, AgeBins, 3);
    CutExactlyOne(100.0, AgeBins, 4);
  }

  /** The `Age_Group` column `pd.cut` derives from an `Age` column: a
      category label for each age in (0, 100], missing otherwise. */
  function AgeGroups(ages: seq<Cell>): (g: seq<Cell>)
    ensures |g| == |ages|
    ensures forall i :: 0 <= i < |ages| ==> Fits(Category, g[i])
    ensures forall i :: 0 <= i < |ages| ==> g[i].Some? ==> g[i].value in AgeCategories
  {
    seq(|ages|, i requires 0 <= i < |ages| =>
      if ages[i].Some? && ages[i].value.Num? && Bracket(ages[i].value.r).Some?
      then Some(Text(Bracket(ages[i].value.r).value)) else None)
  }

  /** Number of non-missing ages satisfying p. */
  function CountIf(ages: seq<Option<real>>, p: real -> bool): nat
  {
    if ages == [] then 0
    else CountIf(ages[..|ages| - 1], p) + (if ages[|ages| - 1].Some? && p(ages[|ages| - 1].value) then 1 else 0)
  }

  /** Rows with Age < 5. */
  function HighRisk(ages: seq<Option<real>>): nat {
    CountIf(ages, a => a < 5.0)
  }

  /** Rows with 5 <= Age < 18. */
  function ModerateRisk(ages: seq<Option<real>>): nat {
    CountIf(ages, a => 5.0 <= a < 18.0)
  }

  /** Rows with Age >= 18. */
  function LowRisk(ages: seq<Option<real>>): nat {
    CountIf(ages, a => a >= 18.0)
  }

  /** Rows with an age in (0, 100], the ones that get an age bracket. */
  function Bracketed(ages: seq<Option<real>>): nat {
    CountIf(ages, a => 0.0 < a <= 100.0)
  }

  /** The three fixed-threshold tiers split the non-missing ages: each such
      row is counted in exactly one tier. */
  lemma {:induction false} AgeTiersPartition(ages: seq<Option<real>>)
    ensures HighRisk(ages) + ModerateRisk(ages) + LowRisk(ages) == Present(ages)
  {
    if ages != [] {
      AgeTiersPartition(ages[..|ages| - 1]);
    }
  }

  /** The high and moderate tiers never exceed the number of non-missing ages. */
  lemma HighModerateBound(ages: seq<Option<real>>)
    ensures HighRisk(ages) + ModerateRisk(ages) <= Present(ages)
  {
    AgeTiersPartition(ages);
  }

  /** `Age_Group` holds a label exactly for the ages in (0, 100]. */
  lemma {:induction false} AgeGroupsPresent(col: seq<Cell>)
    ensures Present(AgeGroups(col)) == Bracketed(Numbers(col))
  {
    if col != [] {
      var n := |col| - 1;
      assert AgeGroups(col)[..n] == AgeGroups(col[..n]);
      assert Numbers(col)[..n] == Numbers(col[..n]);
      AgeGroupsPresent(col[..n]);
    }
  }

  /** `value_counts()` of a categorical column: one entry per category, in
      category order, zero counts included. */
  function CategoryCounts<K(==)>(xs: seq<Option<K>>, cats: seq<K>): (t: Counts<K>)
    ensures |t| == |cats|
    ensures forall i :: 0 <= i < |cats| ==> t[i] == (cats[i], multiset(xs)[Some(cats[i])])
  {
    if cats == [] then [] else [(cats[0], multiset(xs)[Some(cats[0])])] + CategoryCounts(xs, cats[1..])
  }

  /** One more value raises the categories' total by one when it is one of
      the (distinct) categories. */
  lemma {:induction false} CategoryStep<K(!new)>(xs: seq<Option<K>>, x: Option<K>, cats: seq<K>)
    requires forall i, j :: 0 <= i < j < |cats| ==> cats[i] != cats[j]
    ensures Total(CategoryCounts(xs + [x], cats))
         == Total(CategoryCounts(xs, cats)) + (if x.Some? && x.value in cats then 1 else 0)
  {
    if cats != [] {
      CategoryStep(xs, x, cats[1..]);
      assert multiset(xs + [x]) == multiset(xs) + multiset{x};
      assert x.Some? && x.value in cats[1..] ==> x.value != cats[0];
      assert x.Some? && x.value in cats ==> x.value == cats[0] || x.value in cats[1..];
    }
  }

  /** When every value is one of the (distinct) categories, the category
      counts add up to the number of non-missing values. */
  lemma {:induction false} CategoryTotal<K(!new)>(xs: seq<Option<K>>, cats: seq<K>)
    requires forall i, j :: 0 <= i < j < |cats| ==> cats[i] != cats[j]
    requires forall i :: 0 <= i < |xs| && xs[i].Some? ==> xs[i].value in cats
    ensures Total(CategoryCounts(xs, cats)) == Present(xs)
  {
    if xs == [] {
      ZeroCounts(cats);
    } else {
      var n := |xs| - 1;
      CategoryTotal(xs[..n], cats);
      CategoryStep(xs[..n], xs[n], cats);
      assert xs == xs[..n] + [xs[n]];
    }
  }

  lemma {:induction false} ZeroCounts<K(!new)>(cats: seq<K>)
    ensures Total(CategoryCounts([], cats)) == 0
  {
    if cats != [] {
      ZeroCounts(cats[1..]);
    }
  }

  /** `Age_Group.value_counts()`: all five labels, each with its number of rows. */
  function AgeDistribution(col: seq<Cell>): (t: Counts<Value>)
    ensures |t| == 5
    ensures forall i :: 0 <= i < 5 ==> t[i].0 == AgeCategories[i]
    ensures forall i :: 0 <= i < 5 ==> t[i].1 == multiset(AgeGroups(col))[Some(AgeCategories[i])]
  {
    CategoryCounts(AgeGroups(col), AgeCategories)
  }

  /** The age distribution adds up to the number of ages in (0, 100]. */
  lemma AgeDistributionTotal(col: seq<Cell>)
    ensures Total(AgeDistribution(col)) == Bracketed(Numbers(col))
  {
    CategoryTotal(AgeGroups(col), AgeCategories);
    AgeGroupsPresent(col);
  }
}
