/** The scan-result page: reads the scan id from the URL, loads the scan and
    every other stored face, and lists the stored faces closer than the
    threshold, closest first. */
module ScanResult {
  import opened Wrappers
  import opened Seqs
  import opened Sorting
  import opened Records
  import opened ObjectStore
  import opened Matching
  import opened Urls

  /** One entry of `matchedResults`: the stored face and its distance to the
      current scan. */
  datatype ScanMatch = ScanMatch(id: nat, timestamp: int, descriptor: Descriptor, distance: real)

  function MatchDistance(m: ScanMatch): real {
    m.distance
  }

  /** The match built for a stored face that has a descriptor. */
  function ScanMatchOf(face: Record, query: Descriptor, dist: Metric): (m: ScanMatch)
    requires HasDescriptor(face)
  {
    ScanMatch(face.id, face.timestamp, face.descriptor.value, dist(query, face.descriptor.value))
  }

  /** `otherFaces`: the stored faces other than the current scan that have a
      descriptor, in store order. */
  function OtherFaces(all: seq<Record>, currentId: int): (r: seq<Record>)
    ensures forall i :: 0 <= i < |r| ==> r[i] in all && r[i].id != currentId && HasDescriptor(r[i])
    ensures forall i :: 0 <= i < |all| && all[i].id != currentId && HasDescriptor(all[i]) ==> all[i] in r
  {
    Filter(all, (face: Record) => face.id != currentId && HasDescriptor(face))
  }

  /** The distance of every other face to the current scan, in order. */
  function Score(faces: seq<Record>, query: Descriptor, dist: Metric): (r: seq<ScanMatch>)
    requires forall i :: 0 <= i < |faces| ==> HasDescriptor(faces[i])
    ensures |r| == |faces|
    ensures forall i :: 0 <= i < |faces| ==> r[i] == ScanMatchOf(faces[i], query, dist)
  {
    seq(|faces|, i requires 0 <= i < |faces| => ScanMatchOf(faces[i], query, dist))
  }

  /** What `loadScanResult` ends with. */
  datatype ScanOutcome =
    | NoScanId
    | LoadFailed(error: StoreError)
    | ScanIncomplete
    | NoOtherFaces(current: Record)
    | Analysed(current: Record, matches: seq<ScanMatch>)

  /** `loadScanResult` for the page at `url`, reading store `s`: a `NaN` id
      stops the page before anything is read. */
  function LoadScanResult(url: string, s: Store, env: Env, dist: Metric): (r: ScanOutcome)
    ensures r == NoScanId <==> ScanIdOf(url).None?
    ensures ScanIdOf(url).Some? ==> r == ScanFor(ScanIdOf(url).value, s, env, dist)
  {
    match ScanIdOf(url)
    case None => NoScanId
    case Some(currentId) => ScanFor(currentId, s, env, dist)
  }

  /** The rest of `loadScanResult` once the id has parsed. */
  function ScanFor(currentId: int, s: Store, env: Env, dist: Metric): (r: ScanOutcome)
    ensures r != NoScanId
    ensures r.LoadFailed? <==> env != Working
  {
    match ReadAll(s, env)
    case Failure(e) => LoadFailed(e)
    case Success(all) => Analyse(all, Get(s, currentId), currentId, dist)
  }

  /** The comparison once every record and the current record are read. */
  function Analyse(all: seq<Record>, current: Option<Record>, currentId: int, dist: Metric): (r: ScanOutcome)
    ensures r != NoScanId && !r.LoadFailed?
    ensures r == ScanIncomplete <==> current.None? || !HasDescriptor(current.value)
    ensures r.NoOtherFaces? || r.Analysed? ==> current == Some(r.current)
  {
    if current.None? || !HasDescriptor(current.value) then ScanIncomplete
    else
      var others := OtherFaces(all, currentId);
      if others == [] then NoOtherFaces(current.value)
      else Analysed(current.value, RankMatches(Score(others, current.value.descriptor.value, dist), MatchDistance))
  }

  /** The current scan's descriptor, the query every other face is
      compared with. */
  function CurrentDescriptor(r: ScanOutcome): Descriptor
    requires r.Analysed? && HasDescriptor(r.current)
  {
    r.current.descriptor.value
  }

  /** Once the id parses and the store can be read, the page stops with
      "current scan data not found or descriptor missing" exactly when the
      store has no record under that id or the record has no descriptor;
      otherwise the current scan is that record. */
  lemma CurrentScanFound(s: Store, dist: Metric, id: int)
    ensures var r := ScanFor(id, s, Working, dist);
      && (r == ScanIncomplete <==> !(id >= 0 && id in s.records && HasDescriptor(s.records[id])))
      && (r.NoOtherFaces? || r.Analysed? ==> r.current == s.records[id])
  {
    assert ScanFor(id, s, Working, dist) == Analyse(GetAll(s), Get(s, id), id, dist);
  }

  /** The page reports that there is nothing to compare with exactly when
      the current scan is complete and no other stored face has a
      descriptor. */
  lemma NoOtherFacesExactly(s: Store, dist: Metric, id: int)
    requires Valid(s)
    ensures ScanFor(id, s, Working, dist).NoOtherFaces? <==>
      && id >= 0 && id in s.records && HasDescriptor(s.records[id])
      && forall k :: k in s.records && k != id ==> !HasDescriptor(s.records[k])
  {
    var all := GetAll(s);
    assert ScanFor(id, s, Working, dist) == Analyse(all, Get(s, id), id, dist);
    NoOthersInStore(s, id);
  }

  lemma NoOthersInStore(s: Store, id: int)
    requires Valid(s)
    ensures OtherFaces(GetAll(s), id) == [] <==>
      forall k :: k in s.records && k != id ==> !HasDescriptor(s.records[k])
  {
    NoOthersAmong(GetAll(s), s.records, id);
  }

  /** The same for any listing of the records that lists each under its
      key. */
  lemma NoOthersAmong(all: seq<Record>, records: map<nat, Record>, id: int)
    requires forall i :: 0 <= i < |all| ==> all[i].id in records && records[all[i].id] == all[i]
    requires forall k :: k in records ==> records[k].id == k && records[k] in all
    ensures OtherFaces(all, id) == [] <==>
      forall k :: k in records && k != id ==> !HasDescriptor(records[k])
  {
    var others := OtherFaces(all, id);
    if others != [] {
      var j :| 0 <= j < |all| && all[j] == others[0];
      assert all[j].id in records && all[j].id != id && HasDescriptor(records[all[j].id]);
    }
    forall k | k in records && k != id && HasDescriptor(records[k]) ensures others != [] {
      var j :| 0 <= j < |all| && all[j] == records[k];
      assert all[j] in others;
    }
  }

  /** Every listed match is a stored face other than the current scan, has
      a descriptor, carries that face's id, timestamp and descriptor with its
      distance to the current scan, and is under the threshold. */
  lemma MatchesSound(s: Store, dist: Metric, id: int)
    requires Valid(s)
    ensures var r := ScanFor(id, s, Working, dist);
      r.Analysed? ==> forall i :: 0 <= i < |r.matches| ==>
        var m := r.matches[i];
        && m.id != id
        && m.id in s.records
        && HasDescriptor(s.records[m.id])
        && m == ScanMatchOf(s.records[m.id], CurrentDescriptor(r), dist)
        && m.distance < MatchThreshold
  {
    var all := GetAll(s);
    var r := ScanFor(id, s, Working, dist);
    assert r == Analyse(all, Get(s, id), id, dist);
    if r.Analysed? {
      forall i | 0 <= i < |r.matches|
        ensures var m := r.matches[i];
          && m.id != id && m.id in s.records && HasDescriptor(s.records[m.id])
          && m == ScanMatchOf(s.records[m.id], CurrentDescriptor(r), dist)
          && m.distance < MatchThreshold
      {
        var m := r.matches[i];
        MatchFromFace(all, id, CurrentDescriptor(r), dist, m);
        var face :| face in all && face.id != id && HasDescriptor(face)
          && m == ScanMatchOf(face, CurrentDescriptor(r), dist);
        assert s.records[face.id] == face;
      }
    }
  }

  /** Each ranked match is built from one of the other faces. */
  lemma MatchFromFace(all: seq<Record>, id: int, query: Descriptor, dist: Metric, m: ScanMatch)
    requires m in RankMatches(Score(OtherFaces(all, id), query, dist), MatchDistance)
    ensures m.distance < MatchThreshold
    ensures exists face ::
      face in all && face.id != id && HasDescriptor(face) && m == ScanMatchOf(face, query, dist)
  {
    var others := OtherFaces(all, id);
    var scored := Score(others, query, dist);
    var j :| 0 <= j < |scored| && scored[j] == m;
    assert m == ScanMatchOf(others[j], query, dist);
  }

  /** Every stored face other than the current scan that has a descriptor
      and lies under the threshold is listed. */
  lemma MatchesComplete(s: Store, dist: Metric, id: int)
    requires Valid(s)
    ensures var r := ScanFor(id, s, Working, dist);
      r.Analysed? ==>
        forall k :: k in s.records && k != id && HasDescriptor(s.records[k])
          && dist(CurrentDescriptor(r), s.records[k].descriptor.value) < MatchThreshold
          ==> ScanMatchOf(s.records[k], CurrentDescriptor(r), dist) in r.matches
  {
    var all := GetAll(s);
    var r := ScanFor(id, s, Working, dist);
    assert r == Analyse(all, Get(s, id), id, dist);
    if r.Analysed? {
      var others := OtherFaces(all, id);
      var scored := Score(others, CurrentDescriptor(r), dist);
      assert r.matches == RankMatches(scored, MatchDistance);
      forall k | k in s.records && k != id && HasDescriptor(s.records[k])
        && dist(CurrentDescriptor(r), s.records[k].descriptor.value) < MatchThreshold
        ensures ScanMatchOf(s.records[k], CurrentDescriptor(r), dist) in r.matches
      {
        var face := s.records[k];
        var i :| 0 <= i < |all| && all[i] == face;
        var j :| 0 <= j < |others| && others[j] == face;
        assert scored[j] == ScanMatchOf(face, CurrentDescriptor(r), dist);
      }
    }
  }

  /** The list is closest first, is a permutation of the kept candidates
      (the other faces under the threshold, in store order), and keeps that
      order among matches at the same distance. */
  lemma MatchesOrdered(s: Store, dist: Metric, id: int)
    ensures var r := ScanFor(id, s, Working, dist);
      r.Analysed? ==>
        var kept := Filter(Score(OtherFaces(GetAll(s), id), CurrentDescriptor(r), dist), Close(MatchDistance));
        && SortedBy(r.matches, MatchDistance)
        && multiset(r.matches) == multiset(kept)
        && forall v :: WithKey(r.matches, MatchDistance, v) == WithKey(kept, MatchDistance, v)
  {
    var all := GetAll(s);
    var r := ScanFor(id, s, Working, dist);
    assert r == Analyse(all, Get(s, id), id, dist);
    if r.Analysed? {
      var scored := Score(OtherFaces(all, id), CurrentDescriptor(r), dist);
      assert r.matches == RankMatches(scored, MatchDistance);
      forall v ensures WithKey(r.matches, MatchDistance, v)
                    == WithKey(Filter(scored, Close(MatchDistance)), MatchDistance, v) {
        RankMatchesStable(scored, MatchDistance, v);
      }
    }
  }

  /** One rendered match card. */
  datatype MatchCard = MatchCard(status: Status, id: nat, timestamp: int, distance: real, preview: seq<real>)

  /** What `displayMatches` renders. */
  datatype MatchesView = NoMatchesMessage | MatchCards(cards: seq<MatchCard>)

  /** `displayMatches`: the "no matches" state for an empty list, otherwise
      one card per match, in order, with its band and the first 10 descriptor
      components (all of them when there are fewer). */
  function DisplayMatches(matches: seq<ScanMatch>): (v: MatchesView)
    ensures v.NoMatchesMessage? <==> matches == []
    ensures v.MatchCards? ==> |v.cards| == |matches|
    ensures v.MatchCards? ==> forall i :: 0 <= i < |matches| ==>
      && v.cards[i].id == matches[i].id
      && v.cards[i].timestamp == matches[i].timestamp
      && v.cards[i].distance == matches[i].distance
      && v.cards[i].status == MatchStatus(matches[i].distance)
      && |v.cards[i].preview| == (if |matches[i].descriptor| < 10 then |matches[i].descriptor| else 10)
      && v.cards[i].preview <= matches[i].descriptor
  {
    if matches == [] then NoMatchesMessage
    else MatchCards(seq(|matches|, i requires 0 <= i < |matches| =>
      var m := matches[i];
      MatchCard(MatchStatus(m.distance), m.id, m.timestamp, m.distance, Take(m.descriptor, 10))))
  }
}
