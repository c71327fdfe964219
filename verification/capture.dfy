/** The two pages that create records: the camera capture and the image
    upload. Both detect one face, save its data and open the scan-result
    page for the new record. */
module Capture {
  import opened Wrappers
  import opened Records
  import opened ObjectStore
  import opened Urls
  import opened ScanResult

  /** `saveResearchData(data)`: opens the database and adds the face data
      stamped with the save time; resolves with the generated key. */
  function SaveResearchData(s: Store, data: FaceData, now: int, env: Env): (r: Result<Added, StoreError>)
    ensures env == OpenFails ==> r == Failure(StorageUnavailable)
    ensures env == RequestFails ==> r == Failure(WriteFailed)
    ensures env == Working && Valid(s) && s.nextKey <= MaxGeneratedKey ==> r.Success?
    ensures r.Success? ==>
      && r.value.key >= 1
      && r.value.key !in s.records
      && r.value.store.records == s.records[r.value.key := Stamp(r.value.key, data, now)]
    ensures r.Success? && Valid(s) ==> Valid(r.value.store)
  {
    match env
    case OpenFails => Failure(StorageUnavailable)
    case RequestFails => Failure(WriteFailed)
    case Working => Add(s, data, now)
  }

  /** What face detection gives: one face with its data, no face, or an
      error (the models failed to load or the detector threw). */
  datatype Detection = Detected(face: FaceData) | NoFaceFound | DetectorFailed

  /** How a capture or an upload ends. */
  datatype PageOutcome =
    | NoImage
    | NoFace
    | DetectionFailed
    | SaveFailed(error: StoreError)
    | Redirect(url: string)

  datatype Step = Step(store: Store, outcome: PageOutcome)

  /** Saving a detected face and redirecting to its result page, the common
      tail of both pages. */
  function SaveAndRedirect(s: Store, detection: Detection, now: int, env: Env): (r: Step)
    ensures detection.NoFaceFound? ==> r == Step(s, NoFace)
    ensures detection.DetectorFailed? ==> r == Step(s, DetectionFailed)
    ensures r.outcome.Redirect? <==> detection.Detected? && SaveResearchData(s, detection.face, now, env).Success?
    ensures r.outcome.Redirect? ==>
      var added := SaveResearchData(s, detection.face, now, env).value;
      r == Step(added.store, Redirect(ScanResultUrl(Some(added.key))))
    ensures !r.outcome.Redirect? ==> r.store == s
  {
    match detection
    case NoFaceFound => Step(s, NoFace)
    case DetectorFailed => Step(s, DetectionFailed)
    case Detected(face) =>
      match SaveResearchData(s, face, now, env)
      case Success(added) => Step(added.store, Redirect(ScanResultUrl(Some(added.key))))
      case Failure(e) => Step(s, SaveFailed(e))
  }

  /** `handleCaptureScan`: the snapshot's detection decides; a missing face
      or a failed save resumes detection without saving or leaving the
      page. */
  function HandleCaptureScan(s: Store, detection: Detection, now: int, env: Env): (r: Step)
    ensures r.outcome != NoImage
    ensures r.outcome.Redirect? <==> detection.Detected? && SaveResearchData(s, detection.face, now, env).Success?
    ensures !r.outcome.Redirect? ==> r.store == s
  {
    SaveAndRedirect(s, detection, now, env)
  }

  /** The preview image holds no picture: an empty `src` or the `'#'`
      placeholder. */
  predicate NoPicture(imageSrc: string) {
    imageSrc == "" || imageSrc == "#"
  }

  /** `processUploadedFace`: without a picture nothing happens; otherwise as
      a capture. */
  function ProcessUploadedFace(s: Store, imageSrc: string, detection: Detection, now: int, env: Env): (r: Step)
    ensures r.outcome == NoImage <==> NoPicture(imageSrc)
    ensures NoPicture(imageSrc) ==> r.store == s
    ensures !NoPicture(imageSrc) ==> r == HandleCaptureScan(s, detection, now, env)
  {
    if NoPicture(imageSrc) then Step(s, NoImage)
    else SaveAndRedirect(s, detection, now, env)
  }

  /** A successful capture always names its record in the redirect: the new
      key is never 0, so the URL carries `?id=` with it, and the scan-result
      page reads the same key back. */
  lemma RedirectCarriesKey(s: Store, face: FaceData, now: int)
    requires Valid(s) && s.nextKey <= MaxGeneratedKey
    ensures var r := HandleCaptureScan(s, Detected(face), now, Working);
      var key := SaveResearchData(s, face, now, Working).value.key;
      && r.outcome.Redirect?
      && r.outcome.url != ScanResultPage
      && ScanIdOf(r.outcome.url) == Some(key)
  {
    var key := SaveResearchData(s, face, now, Working).value.key;
    ScanIdRoundTrip(key);
  }

  /** From capture to result: the scan-result page opened by a successful
      capture finds the saved face as the current scan, with the captured
      descriptor and the save time. */
  lemma CaptureThenScanResult(s: Store, face: FaceData, now: int, dist: Metric)
    requires Valid(s) && s.nextKey <= MaxGeneratedKey
    ensures var r := HandleCaptureScan(s, Detected(face), now, Working);
      && r.outcome.Redirect?
      && var shown := LoadScanResult(r.outcome.url, r.store, Working, dist);
      && (shown.NoOtherFaces? || shown.Analysed?)
      && shown.current.descriptor == Some(face.descriptor)
      && shown.current.timestamp == now
  {
    var added := SaveResearchData(s, face, now, Working).value;
    RedirectCarriesKey(s, face, now);
    CurrentScanFound(added.store, dist, added.key);
  }
}
