/**
The agility scorecard of a host and of the fleet, over exact reals.  A host's card counts; the fleet's
card averages, and averaging cannot push the maturity level below that of the least mature host.
*/
module Scorecard {
  datatype Finding = Finding(algorithm: string, assetRef: string)

  datatype Card = Card(hardcodeIndex: real, negotiationCoverage: real, blastRadius: real, radii: map<string, nat>,
                       level: nat)

  const SOURCE_EXTENSIONS := [".go", ".rs", ".py", ".js", ".ts", ".java", ".c", ".cpp", ".cs", ".rb", ".php"]

  predicate HasExtension(ref: string, ext: string) {
    |ref| > |ext| && ref[|ref| - |ext|..] == ext
  }

  predicate IsSource(f: Finding) {
    exists i :: 0 <= i < |SOURCE_EXTENSIONS| && HasExtension(f.assetRef, SOURCE_EXTENSIONS[i])
  }

  /** The maturity level of the two metrics, 0 to 4. */
  function Maturity(hardcode: real, negotiation: real): nat {
    if hardcode < 0.02 && negotiation > 0.90 then 4
    else if hardcode < 0.05 && negotiation > 0.80 then 3
    else if hardcode < 0.20 && negotiation > 0.60 then 2
    else if hardcode < 0.50 && negotiation > 0.20 then 1
    else 0
  }

  /** A finding is in source exactly when its asset's name ends, after something, in one of these. */
  lemma SourceIff(f: Finding)
    ensures var ref := f.assetRef;
            IsSource(f) <==>
            || HasExtension(ref, ".go") || HasExtension(ref, ".rs") || HasExtension(ref, ".py")
            || HasExtension(ref, ".js") || HasExtension(ref, ".ts") || HasExtension(ref, ".java")
            || HasExtension(ref, ".c") || HasExtension(ref, ".cpp") || HasExtension(ref, ".cs")
            || HasExtension(ref, ".rb") || HasExtension(ref, ".php")
  {
    var es := SOURCE_EXTENSIONS;
    assert es[0] == ".go" && es[1] == ".rs" && es[2] == ".py" && es[3] == ".js" && es[4] == ".ts" && es[5] == ".java";
    assert es[6] == ".c" && es[7] == ".cpp" && es[8] == ".cs" && es[9] == ".rb" && es[10] == ".php";
  }

  /** Such a name has something before its ending. */
  lemma ExtensionIff(ref: string, ext: string)
    ensures HasExtension(ref, ext) <==> exists stem: string :: stem != "" && ref == stem + ext
  {
    if HasExtension(ref, ext) {
      assert ref == ref[..|ref| - |ext|] + ext;
    }
  }

  // ---------------------------------------------------------------------------
  // One host
  // ---------------------------------------------------------------------------

  function SourceCount(fs: seq<Finding>): (n: nat)
    ensures n <= |fs|
  {
    if fs == [] then 0 else SourceCount(fs[..|fs| - 1]) + if IsSource(fs[|fs| - 1]) then 1 else 0
  }

  /** The distinct assets an algorithm was found in. */
  function Assets(fs: seq<Finding>, algorithm: string): set<string> {
    set i | 0 <= i < |fs| && fs[i].algorithm == algorithm :: fs[i].assetRef
  }

  function Algorithms(fs: seq<Finding>): set<string> { set i | 0 <= i < |fs| :: fs[i].algorithm }

  lemma AssetsSnoc(fs: seq<Finding>, i: nat, algorithm: string)
    requires i < |fs|
    ensures Assets(fs[..i + 1], algorithm) ==
            if fs[i].algorithm == algorithm then Assets(fs[..i], algorithm) + {fs[i].assetRef}
            else Assets(fs[..i], algorithm)
    ensures Algorithms(fs[..i + 1]) == Algorithms(fs[..i]) + {fs[i].algorithm}
  {
    var more := fs[..i + 1];
    assert more[i] == fs[i] && forall j :: 0 <= j < i ==> more[j] == fs[..i][j];
  }

  /** Distinct assets never exceed findings, so the share is at most one and its clamp never bites. */
  lemma {:induction false} AssetsAtMostFindings(fs: seq<Finding>, algorithm: string)
    ensures |Assets(fs, algorithm)| <= |fs|
    decreases |fs|
  {
    if fs != [] {
      var n := |fs| - 1;
      AssetsAtMostFindings(fs[..n], algorithm);
      AssetsSnoc(fs, n, algorithm);
      assert fs[..n + 1] == fs;
    }
  }

  /** `m` is the largest number of assets of any algorithm. */
  ghost predicate Largest(fs: seq<Finding>, m: nat) {
    && (forall a :: a in Algorithms(fs) ==> |Assets(fs, a)| <= m)
    && exists a :: a in Algorithms(fs) && |Assets(fs, a)| == m
  }

  method GroupAssets(fs: seq<Finding>) returns (assets: map<string, set<string>>)
    ensures assets.Keys == Algorithms(fs) && forall a :: a in assets ==> assets[a] == Assets(fs, a)
  {
    assets := map[];
    for i := 0 to |fs|
      invariant assets.Keys == Algorithms(fs[..i]) && forall a :: a in assets ==> assets[a] == Assets(fs[..i], a)
    {
      var f := fs[i];
      forall a
        ensures Assets(fs[..i + 1], a) ==
                if f.algorithm == a then Assets(fs[..i], a) + {f.assetRef} else Assets(fs[..i], a)
      {
        AssetsSnoc(fs, i, a);
      }
      AssetsSnoc(fs, i, f.algorithm);
      if f.algorithm !in assets {
        NoAssetsYet(fs[..i], f.algorithm);
        assets := assets[f.algorithm := {}];
      }
      assets := assets[f.algorithm := assets[f.algorithm] + {f.assetRef}];
    }
    assert fs[..|fs|] == fs;
  }

  lemma NoAssetsYet(fs: seq<Finding>, a: string)
    requires a !in Algorithms(fs)
    ensures Assets(fs, a) == {}
  {
  }

  method Radii(fs: seq<Finding>) returns (radii: map<string, nat>, largest: nat)
    requires fs != []
    ensures radii.Keys == Algorithms(fs) && forall a :: a in radii ==> radii[a] == |Assets(fs, a)|
    ensures Largest(fs, largest) && largest > 0
  {
    var assets := GroupAssets(fs);
    radii, largest := map[], 0;
    var rest := assets.Keys;
    while rest != {}
      invariant rest <= assets.Keys && radii.Keys == assets.Keys - rest
      invariant forall a :: a in radii ==> radii[a] == |Assets(fs, a)| <= largest
      invariant largest > 0 ==> exists a :: a in Algorithms(fs) && |Assets(fs, a)| == largest
      decreases |rest|
    {
      var a :| a in rest;
      rest := rest - {a};
      if |assets[a]| > largest {
        largest := |assets[a]|;
      }
      radii := radii[a := |assets[a]|];
    }
    assert fs[0].algorithm in Algorithms(fs) && fs[0].assetRef in Assets(fs, fs[0].algorithm);
  }

  method CountSources(fs: seq<Finding>) returns (sources: nat)
    ensures sources == SourceCount(fs)
  {
    sources := 0;
    for i := 0 to |fs|
      invariant sources == SourceCount(fs[..i])
    {
      assert fs[..i + 1][..i] == fs[..i];
      if IsSource(fs[i]) {
        sources := sources + 1;
      }
    }
    assert fs[..|fs|] == fs;
  }

  function Share(k: nat, n: nat): (r: real)
    requires n > 0
    ensures 0.0 <= r && (k <= n ==> r <= 1.0)
  {
    k as real / n as real
  }

  function Coverage(totalServices: int, negotiableServices: int): real {
    if totalServices > 0 then negotiableServices as real / totalServices as real else 0.0
  }

  /**
   What a host's card says: shares of the findings, distinct assets per algorithm, coverage, and the level of
   two of them.
   */
  ghost predicate IsCardOf(c: Card, fs: seq<Finding>, totalServices: int, negotiableServices: int) {
    if fs == [] then c == Card(0.0, 0.0, 0.0, map[], 0)
    else
      && c.hardcodeIndex == SourceCount(fs) as real / |fs| as real
      && (exists m: nat :: Largest(fs, m) && c.blastRadius == m as real / |fs| as real)
      && c.radii.Keys == Algorithms(fs) && (forall a :: a in c.radii ==> c.radii[a] == |Assets(fs, a)|)
      && c.negotiationCoverage ==
         (if totalServices > 0 then negotiableServices as real / totalServices as real else 0.0)
      && c.level == Maturity(c.hardcodeIndex, c.negotiationCoverage)
  }

  /** A host's card; its shares lie between 0 and 1, so the clamp on the blast radius changes nothing. */
  method ComputeScorecard(fs: seq<Finding>, totalServices: int, negotiableServices: int) returns (c: Card)
    ensures IsCardOf(c, fs, totalServices, negotiableServices)
    ensures c.level == Maturity(c.hardcodeIndex, c.negotiationCoverage)
    ensures 0.0 <= c.hardcodeIndex <= 1.0 && 0.0 <= c.blastRadius <= 1.0
    ensures totalServices <= 0 ==> c.negotiationCoverage == 0.0
  {
    if fs == [] {
      return Card(0.0, 0.0, 0.0, map[], 0);
    }
    var sources := CountSources(fs);
    var hardcode := Share(sources, |fs|);
    var negotiation := Coverage(totalServices, negotiableServices);
    var radii, most := Radii(fs);
    var blast := if Share(most, |fs|) < 1.0 then Share(most, |fs|) else 1.0;
    LargestIsFraction(fs, most);
    c := Card(hardcode, negotiation, blast, radii, Maturity(hardcode, negotiation));
  }

  lemma LargestIsFraction(fs: seq<Finding>, m: nat)
    requires fs != [] && Largest(fs, m)
    ensures Share(m, |fs|) <= 1.0
  {
    var a :| a in Algorithms(fs) && |Assets(fs, a)| == m;
    AssetsAtMostFindings(fs, a);
  }

  // ---------------------------------------------------------------------------
  // The fleet
  // ---------------------------------------------------------------------------

  function HardcodeSum(cards: seq<Card>): real {
    if cards == [] then 0.0 else HardcodeSum(cards[..|cards| - 1]) + cards[|cards| - 1].hardcodeIndex
  }

  function NegotiationSum(cards: seq<Card>): real {
    if cards == [] then 0.0 else NegotiationSum(cards[..|cards| - 1]) + cards[|cards| - 1].negotiationCoverage
  }

  function BlastSum(cards: seq<Card>): real {
    if cards == [] then 0.0 else BlastSum(cards[..|cards| - 1]) + cards[|cards| - 1].blastRadius
  }

  function Max(m: nat, n: nat): nat { if m < n then n else m }

  function RadiusIn(radii: map<string, nat>, a: string): nat { if a in radii then radii[a] else 0 }

  /** The largest radius any host reports for an algorithm. */
  function LargestRadius(cards: seq<Card>, a: string): nat {
    if cards == [] then 0 else Max(LargestRadius(cards[..|cards| - 1], a), RadiusIn(cards[|cards| - 1].radii, a))
  }

  lemma {:induction false} LargestRadiusBounds(cards: seq<Card>, a: string)
    ensures forall i :: 0 <= i < |cards| ==> RadiusIn(cards[i].radii, a) <= LargestRadius(cards, a)
    ensures LargestRadius(cards, a) > 0 ==>
      exists i :: 0 <= i < |cards| && RadiusIn(cards[i].radii, a) == LargestRadius(cards, a)
    decreases |cards|
  {
    if cards != [] {
      var n := |cards| - 1;
      LargestRadiusBounds(cards[..n], a);
      assert forall i :: 0 <= i < n ==> cards[..n][i] == cards[i];
    }
  }

  ghost predicate FleetRadii(cards: seq<Card>, radii: map<string, nat>) {
    forall a :: RadiusIn(radii, a) == LargestRadius(cards, a)
  }

  /** Every level is two thresholds, and no level has easier ones than the level below. */
  function HardcodeLimit(level: nat): real
    requires 1 <= level <= 4
  {
    if level == 4 then 0.02 else if level == 3 then 0.05 else if level == 2 then 0.20 else 0.50
  }

  function NegotiationLimit(level: nat): real
    requires 1 <= level <= 4
  {
    if level == 4 then 0.90 else if level == 3 then 0.80 else if level == 2 then 0.60 else 0.20
  }

  lemma ReachesIff(hardcode: real, negotiation: real, level: nat)
    requires 1 <= level <= 4
    ensures Maturity(hardcode, negotiation) >= level <==>
            hardcode < HardcodeLimit(level) && negotiation > NegotiationLimit(level)
  {
  }

  /** The levels by their thresholds. */
  lemma MaturityIff(hardcode: real, negotiation: real)
    ensures var m := Maturity(hardcode, negotiation);
      && (m >= 1 <==> hardcode < 0.50 && negotiation > 0.20) && (m >= 2 <==> hardcode < 0.20 && negotiation > 0.60)
      && (m >= 3 <==> hardcode < 0.05 && negotiation > 0.80) && (m >= 4 <==> hardcode < 0.02 && negotiation > 0.90)
      && m <= 4
  {
  }

  /** If every host meets a pair of thresholds, so do the sums. */
  lemma {:induction false} SumsReach(cards: seq<Card>, level: nat)
    requires 1 <= level <= 4 && cards != []
    requires forall i :: 0 <= i < |cards| ==>
      cards[i].hardcodeIndex < HardcodeLimit(level) && cards[i].negotiationCoverage > NegotiationLimit(level)
    ensures HardcodeSum(cards) < HardcodeLimit(level) * |cards| as real
    ensures NegotiationSum(cards) > NegotiationLimit(level) * |cards| as real
    decreases |cards|
  {
    var n := |cards| - 1;
    if n == 0 {
      assert cards[..n] == [];
    } else {
      SumsReach(cards[..n], level);
    }
  }

  lemma AverageReachesIff(hardcodeSum: real, negotiationSum: real, n: nat, level: nat)
    requires 1 <= level <= 4 && n > 0
    ensures Maturity(hardcodeSum / n as real, negotiationSum / n as real) >= level <==>
            hardcodeSum < HardcodeLimit(level) * n as real && negotiationSum > NegotiationLimit(level) * n as real
  {
    ReachesIff(hardcodeSum / n as real, negotiationSum / n as real, level);
    Divided(hardcodeSum, HardcodeLimit(level), n);
    Exceeds(negotiationSum, NegotiationLimit(level), n);
  }

  lemma Exceeds(sum: real, limit: real, n: nat)
    requires n > 0
    ensures sum > limit * n as real <==> sum / n as real > limit
  {
    var m := n as real;
    assert sum == (sum / m) * m;
    if sum / m > limit {
      Scaled(limit, sum / m, m);
    } else {
      Scaled(sum / m, limit, m);
    }
  }

  lemma Divided(sum: real, limit: real, n: nat)
    requires n > 0
    ensures sum < limit * n as real <==> sum / n as real < limit
  {
    var m := n as real;
    assert sum == (sum / m) * m;
    if sum / m < limit {
      Scaled(sum / m, limit, m);
    } else {
      Scaled(limit, sum / m, m);
    }
  }

  lemma Scaled(a: real, b: real, m: real)
    requires a <= b && m > 0.0
    ensures a * m <= b * m && (a < b ==> a * m < b * m)
  {
  }

  /** The fleet's level. */
  function FleetLevel(cards: seq<Card>): nat
    requires cards != []
  {
    Maturity(HardcodeSum(cards) / |cards| as real, NegotiationSum(cards) / |cards| as real)
  }

  /** The fleet reaches a level exactly when its sums beat that level's thresholds, each times the number of hosts. */
  lemma FleetLevelIff(cards: seq<Card>, level: nat)
    requires cards != [] && 1 <= level <= 4
    ensures FleetLevel(cards) >= level <==>
            HardcodeSum(cards) < HardcodeLimit(level) * |cards| as real
            && NegotiationSum(cards) > NegotiationLimit(level) * |cards| as real
  {
    AverageReachesIff(HardcodeSum(cards), NegotiationSum(cards), |cards|, level);
  }

  /** `best` is the level of the most mature host. */
  ghost predicate BestLevel(cards: seq<Card>, best: nat) {
    (forall i :: 0 <= i < |cards| ==> cards[i].level <= best) && exists i :: 0 <= i < |cards| && cards[i].level == best
  }

  /** The fleet scores above its best host exactly when the sums beat the thresholds of the next level. */
  lemma FleetExceedsBestIff(cards: seq<Card>, best: nat)
    requires cards != [] && BestLevel(cards, best)
    ensures FleetLevel(cards) > best <==>
            best < 4 && HardcodeSum(cards) < HardcodeLimit(best + 1) * |cards| as real
            && NegotiationSum(cards) > NegotiationLimit(best + 1) * |cards| as real
  {
    if best < 4 {
      FleetLevelIff(cards, best + 1);
    }
  }

  lemma {:induction false} NoCoverageSum(cards: seq<Card>)
    requires forall i :: 0 <= i < |cards| ==> cards[i].negotiationCoverage == 0.0
    ensures NegotiationSum(cards) == 0.0
    decreases |cards|
  {
    if cards != [] {
      NoCoverageSum(cards[..|cards| - 1]);
    }
  }

  /** With no service counted on any host, the fleet is at level 0, whatever was found. */
  lemma NoCoverageNoLevel(cards: seq<Card>)
    requires cards != [] && forall i :: 0 <= i < |cards| ==> cards[i].negotiationCoverage == 0.0
    ensures FleetLevel(cards) == 0
  {
    NoCoverageSum(cards);
    FleetLevelIff(cards, 1);
    Scaled(0.0, |cards| as real, NegotiationLimit(1));
  }

  /** The level of the averages is at least the level every host has. */
  lemma FleetReaches(cards: seq<Card>, level: nat)
    requires cards != [] && forall i :: 0 <= i < |cards| ==>
      level <= cards[i].level == Maturity(cards[i].hardcodeIndex, cards[i].negotiationCoverage)
    ensures level <= FleetLevel(cards)
  {
    if level > 0 {
      assert level <= cards[0].level <= 4;
      forall i | 0 <= i < |cards|
        ensures cards[i].hardcodeIndex < HardcodeLimit(level) && cards[i].negotiationCoverage > NegotiationLimit(level)
      {
        ReachesIff(cards[i].hardcodeIndex, cards[i].negotiationCoverage, level);
      }
      SumsReach(cards, level);
      AverageReachesIff(HardcodeSum(cards), NegotiationSum(cards), |cards|, level);
    }
  }

  /** No host is below host `i`. */
  ghost predicate LeastMature(cards: seq<Card>, i: int) {
    0 <= i < |cards| && forall j :: 0 <= j < |cards| ==> cards[i].level <= cards[j].level
  }

  /**
   The fleet's card, from hosts' cards whose levels are those of their metrics: averages, the largest
   radius of each algorithm, and a level that is at least that of the least mature host.
   */
  method ComputeFleetScorecard(cards: seq<Card>) returns (fleet: Card)
    requires forall i :: 0 <= i < |cards| ==>
      cards[i].level == Maturity(cards[i].hardcodeIndex, cards[i].negotiationCoverage)
    ensures cards == [] ==> fleet == Card(0.0, 0.0, 0.0, map[], 0)
    ensures cards != [] ==>
      && fleet.hardcodeIndex == HardcodeSum(cards) / |cards| as real
      && fleet.negotiationCoverage == NegotiationSum(cards) / |cards| as real
      && fleet.blastRadius == BlastSum(cards) / |cards| as real
      && FleetRadii(cards, fleet.radii)
      && fleet.level == FleetLevel(cards)
      && exists i :: LeastMature(cards, i) && cards[i].level <= fleet.level
  {
    if cards == [] {
      return Card(0.0, 0.0, 0.0, map[], 0);
    }
    var hardcode, negotiation, blast, least := Totals(cards);
    var radii := LargestRadii(cards);
    var n := |cards| as real;
    FleetReaches(cards, least);
    ghost var low :| 0 <= low < |cards| && cards[low].level == least;
    assert LeastMature(cards, low);
    fleet := Card(hardcode / n, negotiation / n, blast / n, radii, Maturity(hardcode / n, negotiation / n));
  }

  method Totals(cards: seq<Card>) returns (hardcode: real, negotiation: real, blast: real, least: nat)
    requires forall i :: 0 <= i < |cards| ==> cards[i].level <= 4
    ensures hardcode == HardcodeSum(cards) && negotiation == NegotiationSum(cards) && blast == BlastSum(cards)
    ensures forall i :: 0 <= i < |cards| ==> least <= cards[i].level
    ensures cards != [] ==> exists i :: 0 <= i < |cards| && cards[i].level == least
  {
    hardcode, negotiation, blast, least := 0.0, 0.0, 0.0, 4;
    for i := 0 to |cards|
      invariant hardcode == HardcodeSum(cards[..i])
      invariant negotiation == NegotiationSum(cards[..i])
      invariant blast == BlastSum(cards[..i])
      invariant forall j :: 0 <= j < i ==> least <= cards[j].level
      invariant least <= 4 && (least < 4 ==> exists j :: 0 <= j < i && cards[j].level == least)
    {
      assert cards[..i + 1][..i] == cards[..i];
      hardcode := hardcode + cards[i].hardcodeIndex;
      negotiation := negotiation + cards[i].negotiationCoverage;
      blast := blast + cards[i].blastRadius;
      if cards[i].level < least {
        least := cards[i].level;
      }
    }
    assert cards[..|cards|] == cards;
    assert least == 4 && cards != [] ==> cards[0].level == least;
  }

  method LargestRadii(cards: seq<Card>) returns (radii: map<string, nat>)
    ensures FleetRadii(cards, radii)
  {
    radii := map[];
    for i := 0 to |cards|
      invariant FleetRadii(cards[..i], radii)
    {
      assert cards[..i + 1][..i] == cards[..i];
      radii := MergeRadii(cards[i].radii, radii);
    }
    assert cards[..|cards|] == cards;
  }

  method MergeRadii(host: map<string, nat>, radii0: map<string, nat>) returns (radii: map<string, nat>)
    ensures forall a :: RadiusIn(radii, a) == Max(RadiusIn(radii0, a), RadiusIn(host, a))
  {
    radii := radii0;
    var rest := host.Keys;
    while rest != {}
      invariant rest <= host.Keys
      invariant forall a ::
        RadiusIn(radii, a) == (if a in rest then RadiusIn(radii0, a) else Max(RadiusIn(radii0, a), RadiusIn(host, a)))
      decreases |rest|
    {
      var a :| a in rest;
      rest := rest - {a};
      if host[a] > RadiusIn(radii, a) {
        radii := radii[a := host[a]];
      }
    }
  }

  /**
   The dashboard: a card for each host with findings, without service counts, and the fleet's.  Every level on
   it is 0.
   */
  method Dashboard(hosts: seq<seq<Finding>>) returns (cards: seq<Card>, fleet: Card)
    ensures |cards| == |hosts| && forall i :: 0 <= i < |hosts| ==>
      IsCardOf(cards[i], hosts[i], 0, 0) && cards[i].level == 0
    ensures fleet.level == 0
  {
    cards := [];
    for i := 0 to |hosts|
      invariant |cards| == i
      invariant forall j :: 0 <= j < i ==> IsCardOf(cards[j], hosts[j], 0, 0) && cards[j].negotiationCoverage == 0.0
      invariant forall j :: 0 <= j < i ==>
        cards[j].level == Maturity(cards[j].hardcodeIndex, cards[j].negotiationCoverage)
    {
      var card := ComputeScorecard(hosts[i], 0, 0);
      cards := cards + [card];
    }
    fleet := ComputeFleetScorecard(cards);
    if cards != [] {
      NoCoverageNoLevel(cards);
    }
  }

  lemma SumOfThree(a: Card, b: Card, c: Card)
    ensures HardcodeSum([a, b, c]) == a.hardcodeIndex + b.hardcodeIndex + c.hardcodeIndex
    ensures NegotiationSum([a, b, c]) == a.negotiationCoverage + b.negotiationCoverage + c.negotiationCoverage
    ensures BlastSum([a, b, c]) == a.blastRadius + b.blastRadius + c.blastRadius
  {
    assert [a, b, c][..2] == [a, b] && [a, b][..1] == [a] && [a][..0] == [];
    assert HardcodeSum([a]) == a.hardcodeIndex && NegotiationSum([a]) == a.negotiationCoverage;
    assert BlastSum([a]) == a.blastRadius;
  }

  /**
   With service counts it can happen: a host whose one finding is in source and whose services all
   negotiate, and two hosts without source findings where one service in ten does.
   */
  lemma FleetCanExceedEveryHost(a: Card, b: Card, f: Finding, g: Finding)
    requires IsSource(f) && !IsSource(g) && IsCardOf(a, [f], 1, 1) && IsCardOf(b, [g], 10, 1)
    ensures BestLevel([a, b, b], 0) && FleetLevel([a, b, b]) == 1
  {
    assert [f][..0] == [] && [g][..0] == [];
    assert SourceCount([f]) == 1 && SourceCount([g]) == 0;
    assert a.level == 0 && b.level == 0;
    assert [a, b, b][0] == a;
    SumOfThree(a, b, b);
    FleetLevelIff([a, b, b], 1);
    FleetLevelIff([a, b, b], 2);
  }
}
