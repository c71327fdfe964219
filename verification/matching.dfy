/** The comparison core shared by the scan-result and search pages: the
    distance threshold, the ranking of scored candidates, and the three
    confidence bands of `getMatchStatus`. */
module Matching {
  import opened Seqs
  import opened Sorting

  /** Candidates at this distance or further are not shown. */
  const MatchThreshold: real := 0.7
  /** Upper bound (exclusive) of the "Excellent Match" band. */
  const ExcellentBelow: real := 0.3
  /** Upper bound (exclusive) of the "Good Match" band. */
  const GoodBelow: real := 0.6

  /** The result of `getMatchStatus`: its text and its colour class. */
  datatype Status = Excellent | Good | NoStrongMatch {
    function Text(): string {
      match this
      case Excellent => "Excellent Match"
      case Good => "Good Match"
      case NoStrongMatch => "No Strong Match"
    }

    function Color(): string {
      match this
      case Excellent => "green"
      case Good => "orange"
      case NoStrongMatch => "red"
    }

    /** 0 for the closest band, 2 for the furthest. */
    function Rank(): nat {
      match this
      case Excellent => 0
      case Good => 1
      case NoStrongMatch => 2
    }
  }

  /** `getMatchStatus(distance)`. */
  function MatchStatus(distance: real): (s: Status)
    ensures s == Excellent <==> distance < ExcellentBelow
    ensures s == Good <==> ExcellentBelow <= distance < GoodBelow
    ensures s == NoStrongMatch <==> GoodBelow <= distance
  {
    if distance < ExcellentBelow then Excellent
    else if distance < GoodBelow then Good
    else NoStrongMatch
  }

  /** A closer match never gets a weaker band. */
  lemma MatchStatusMonotone(d1: real, d2: real)
    requires d1 <= d2
    ensures MatchStatus(d1).Rank() <= MatchStatus(d2).Rank()
  {
  }

  /** The band boundaries belong to the weaker band. */
  lemma MatchStatusBoundaries()
    ensures MatchStatus(0.29) == Excellent && MatchStatus(0.3) == Good
    ensures MatchStatus(0.59) == Good && MatchStatus(0.6) == NoStrongMatch
    ensures MatchStatus(0.29).Text() == "Excellent Match" && MatchStatus(0.29).Color() == "green"
    ensures MatchStatus(0.59).Text() == "Good Match" && MatchStatus(0.59).Color() == "orange"
    ensures MatchStatus(0.69).Text() == "No Strong Match" && MatchStatus(0.69).Color() == "red"
  {
  }

  /** The test `distance < 0.7` for a scored candidate. */
  function Close<T>(distance: T -> real): T -> bool {
    x => distance(x) < MatchThreshold
  }

  /** Keeps the scored candidates strictly under the threshold and sorts
      them closest first with `sort((a, b) => a.distance - b.distance)`,
      which is stable. */
  function RankMatches<T>(scored: seq<T>, distance: T -> real): (r: seq<T>)
    ensures forall i :: 0 <= i < |r| ==> distance(r[i]) < MatchThreshold && r[i] in scored
    ensures forall i :: 0 <= i < |scored| && distance(scored[i]) < MatchThreshold ==> scored[i] in r
    ensures SortedBy(r, distance)
    ensures multiset(r) == multiset(Filter(scored, Close(distance)))
  {
    var kept := Filter(scored, Close(distance));
    var r := SortBy(kept, distance);
    RankMatchesMembers(scored, distance, kept, r);
    r
  }

  lemma RankMatchesMembers<T>(scored: seq<T>, distance: T -> real, kept: seq<T>, r: seq<T>)
    requires kept == Filter(scored, Close(distance))
    requires multiset(r) == multiset(kept)
    ensures forall i :: 0 <= i < |r| ==> distance(r[i]) < MatchThreshold && r[i] in scored
    ensures forall i :: 0 <= i < |scored| && distance(scored[i]) < MatchThreshold ==> scored[i] in r
  {
    forall i | 0 <= i < |r| ensures distance(r[i]) < MatchThreshold && r[i] in scored {
      assert r[i] in multiset(r);
      var j :| 0 <= j < |kept| && kept[j] == r[i];
      assert Close(distance)(kept[j]);
    }
    forall i | 0 <= i < |scored| && distance(scored[i]) < MatchThreshold ensures scored[i] in r {
      assert Close(distance)(scored[i]);
      assert scored[i] in multiset(kept);
    }
  }

  /** Candidates at the same distance keep their order in `scored`. */
  lemma RankMatchesStable<T>(scored: seq<T>, distance: T -> real, v: real)
    ensures WithKey(RankMatches(scored, distance), distance, v)
         == WithKey(Filter(scored, Close(distance)), distance, v)
  {
    SortByStable(Filter(scored, Close(distance)), distance, v);
  }
}
