/** The live search page: it loads every stored face that has a descriptor
    once, and compares each detected face with all of them. */
module SearchFace {
  import opened Wrappers
  import opened Seqs
  import opened Sorting
  import opened Records
  import opened ObjectStore
  import opened Matching

  /** One entry of `indexedDbDescriptors`. */
  datatype Candidate = Candidate(id: nat, timestamp: int, descriptor: Descriptor)

  function CandidateOf(r: Record): Candidate
    requires HasDescriptor(r)
  {
    Candidate(r.id, r.timestamp, r.descriptor.value)
  }

  /** The `map` half: each kept record as a candidate. */
  function CandidatesOf(kept: seq<Record>): (r: seq<Candidate>)
    requires forall i :: 0 <= i < |kept| ==> HasDescriptor(kept[i])
    ensures |r| == |kept|
    ensures forall i :: 0 <= i < |kept| ==> r[i] == CandidateOf(kept[i])
  {
    seq(|kept|, i requires 0 <= i < |kept| => CandidateOf(kept[i]))
  }

  /** `data.filter(item => item.descriptor).map(...)`: the stored faces that
      have a descriptor, in store order, keeping id, timestamp and
      descriptor. */
  function Candidates(all: seq<Record>): (r: seq<Candidate>)
    ensures |r| <= |all|
    ensures forall i :: 0 <= i < |all| && HasDescriptor(all[i]) ==> CandidateOf(all[i]) in r
    ensures forall i :: 0 <= i < |r| ==>
      exists j :: 0 <= j < |all| && HasDescriptor(all[j]) && r[i] == CandidateOf(all[j])
  {
    var kept := Filter(all, HasDescriptor);
    var r := CandidatesOf(kept);
    forall i | 0 <= i < |all| && HasDescriptor(all[i]) ensures CandidateOf(all[i]) in r {
      assert all[i] in kept;
      var k :| 0 <= k < |kept| && kept[k] == all[i];
      assert r[k] == CandidateOf(all[i]);
    }
    forall i | 0 <= i < |r|
      ensures exists j :: 0 <= j < |all| && HasDescriptor(all[j]) && r[i] == CandidateOf(all[j])
    {
      var j :| 0 <= j < |all| && all[j] == kept[i];
    }
    r
  }

  /** Loading the candidates commutes with concatenation: store order is
      kept. */
  lemma CandidatesConcat(a: seq<Record>, b: seq<Record>)
    ensures Candidates(a + b) == Candidates(a) + Candidates(b)
  {
    var fa := Filter(a, HasDescriptor);
    var fb := Filter(b, HasDescriptor);
    FilterConcat(a, b, HasDescriptor);
    assert Candidates(a + b) == CandidatesOf(fa + fb);
    CandidatesOfConcat(fa, fb);
  }

  lemma CandidatesOfConcat(fa: seq<Record>, fb: seq<Record>)
    requires forall i :: 0 <= i < |fa| ==> HasDescriptor(fa[i])
    requires forall i :: 0 <= i < |fb| ==> HasDescriptor(fb[i])
    ensures CandidatesOf(fa + fb) == CandidatesOf(fa) + CandidatesOf(fb)
  {
    var l := CandidatesOf(fa + fb);
    var r := CandidatesOf(fa) + CandidatesOf(fb);
    forall i | 0 <= i < |l| ensures l[i] == r[i] {
      if i < |fa| {
        assert (fa + fb)[i] == fa[i];
      } else {
        assert (fa + fb)[i] == fb[i - |fa|];
      }
    }
  }

  /** `loadIndexedDbDescriptors`: on a read failure the cache keeps its
      initial empty value. */
  function LoadCandidates(s: Store, env: Env): (r: seq<Candidate>)
    ensures env != Working ==> r == []
    ensures env == Working ==> r == Candidates(GetAll(s))
  {
    match ReadAll(s, env)
    case Success(all) => Candidates(all)
    case Failure(_) => []
  }

  /** One entry of the search results. */
  datatype SearchMatch = SearchMatch(id: nat, timestamp: int, distance: real)

  function SearchDistance(m: SearchMatch): real {
    m.distance
  }

  function SearchMatchOf(c: Candidate, query: Descriptor, dist: Metric): SearchMatch {
    SearchMatch(c.id, c.timestamp, dist(query, c.descriptor))
  }

  function ScoreCandidates(cands: seq<Candidate>, query: Descriptor, dist: Metric): (r: seq<SearchMatch>)
    ensures |r| == |cands|
    ensures forall i :: 0 <= i < |cands| ==> r[i] == SearchMatchOf(cands[i], query, dist)
  {
    seq(|cands|, i requires 0 <= i < |cands| => SearchMatchOf(cands[i], query, dist))
  }

  /** What `performSearch` ends with. */
  datatype SearchOutcome = NothingToCompare | Searched(matches: seq<SearchMatch>)

  /** `performSearch(currentDescriptor)`: with no descriptor or no stored
      face nothing is compared; otherwise every candidate under the
      threshold, closest first. No id is excluded. */
  function PerformSearch(query: Option<Descriptor>, cands: seq<Candidate>, dist: Metric): (r: SearchOutcome)
    ensures r == NothingToCompare <==> query.None? || cands == []
    ensures r.Searched? ==> SortedBy(r.matches, SearchDistance)
    ensures r.Searched? ==> forall i :: 0 <= i < |r.matches| ==> r.matches[i].distance < MatchThreshold
  {
    if query.None? || cands == [] then NothingToCompare
    else Searched(RankMatches(ScoreCandidates(cands, query.value, dist), SearchDistance))
  }

  /** The matches of a search with a descriptor over a non-empty list. */
  lemma SearchedMatches(query: Descriptor, cands: seq<Candidate>, dist: Metric)
    requires cands != []
    ensures PerformSearch(Some(query), cands, dist)
         == Searched(RankMatches(ScoreCandidates(cands, query, dist), SearchDistance))
  {
  }

  /** Soundness and completeness of the threshold: a candidate is listed
      exactly when its distance is under 0.7. */
  lemma SearchThreshold(query: Descriptor, cands: seq<Candidate>, dist: Metric)
    requires cands != []
    ensures var r := PerformSearch(Some(query), cands, dist);
      forall i :: 0 <= i < |cands| ==>
        (SearchMatchOf(cands[i], query, dist) in r.matches <==> dist(query, cands[i].descriptor) < MatchThreshold)
  {
    var scored := ScoreCandidates(cands, query, dist);
    var ms := RankMatches(scored, SearchDistance);
    SearchedMatches(query, cands, dist);
    forall i | 0 <= i < |cands|
      ensures SearchMatchOf(cands[i], query, dist) in ms <==> dist(query, cands[i].descriptor) < MatchThreshold
    {
      assert scored[i] == SearchMatchOf(cands[i], query, dist);
      if SearchMatchOf(cands[i], query, dist) in ms {
        var k :| 0 <= k < |ms| && ms[k] == SearchMatchOf(cands[i], query, dist);
      }
    }
  }

  /** Every listed entry is the score of a candidate. */
  lemma SearchFromCandidates(query: Descriptor, cands: seq<Candidate>, dist: Metric)
    requires cands != []
    ensures var r := PerformSearch(Some(query), cands, dist);
      forall m :: m in r.matches ==> exists i :: 0 <= i < |cands| && m == SearchMatchOf(cands[i], query, dist)
  {
    var scored := ScoreCandidates(cands, query, dist);
    var ms := RankMatches(scored, SearchDistance);
    SearchedMatches(query, cands, dist);
    forall m | m in ms ensures exists i :: 0 <= i < |cands| && m == SearchMatchOf(cands[i], query, dist) {
      var k :| 0 <= k < |ms| && ms[k] == m;
      var j :| 0 <= j < |scored| && scored[j] == m;
    }
  }

  /** The results are a permutation of the candidates under the threshold
      and keep candidate order among equal distances. */
  lemma SearchOrdered(query: Descriptor, cands: seq<Candidate>, dist: Metric, v: real)
    requires cands != []
    ensures var r := PerformSearch(Some(query), cands, dist);
      var kept := Filter(ScoreCandidates(cands, query, dist), Close(SearchDistance));
      && multiset(r.matches) == multiset(kept)
      && WithKey(r.matches, SearchDistance, v) == WithKey(kept, SearchDistance, v)
  {
    RankMatchesStable(ScoreCandidates(cands, query, dist), SearchDistance, v);
  }

  /** One rendered result card. */
  datatype ResultCard = ResultCard(status: Status, id: nat, timestamp: int, distance: real)

  /** What the results container shows after a search. */
  datatype ResultsView = NoStoredFaces | NoStrongMatches | ResultCards(cards: seq<ResultCard>)

  /** `performSearch` followed by `displaySearchResults`. */
  function DisplaySearch(r: SearchOutcome): (v: ResultsView)
    ensures v.NoStoredFaces? <==> r.NothingToCompare?
    ensures v.NoStrongMatches? <==> r.Searched? && r.matches == []
    ensures v.ResultCards? ==> |v.cards| == |r.matches| && forall i :: 0 <= i < |r.matches| ==>
      && v.cards[i].id == r.matches[i].id
      && v.cards[i].timestamp == r.matches[i].timestamp
      && v.cards[i].distance == r.matches[i].distance
      && v.cards[i].status == MatchStatus(r.matches[i].distance)
  {
    match r
    case NothingToCompare => NoStoredFaces
    case Searched(ms) =>
      if ms == [] then NoStrongMatches
      else ResultCards(seq(|ms|, i requires 0 <= i < |ms| =>
        ResultCard(MatchStatus(ms[i].distance), ms[i].id, ms[i].timestamp, ms[i].distance)))
  }

  /** The camera the search page asks for. */
  datatype FacingMode = User | Environment

  /** `switchCamera`: the other camera. */
  function SwitchCamera(m: FacingMode): (r: FacingMode)
    ensures r != m
  {
    if m == User then Environment else User
  }

  /** Switching twice returns to the camera in use. */
  lemma SwitchCameraTwice(m: FacingMode)
    ensures SwitchCamera(SwitchCamera(m)) == m
  {
  }
}
