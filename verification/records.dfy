/** The face record kept in the `research_data` object store, and the face
    data a detection produces before it is stored. */
module Records {
  import opened Wrappers

  /** A face descriptor: the embedding vector the detection library returns
      (128 components for the model the application loads). */
  type Descriptor = seq<real>

  /** The distance the application asks the detection library for
      (`faceapi.euclideanDistance`). It is a parameter of every operation
      that compares faces, and nothing is assumed about it. */
  type Metric = (Descriptor, Descriptor) -> real

  datatype Point = Point(x: real, y: real)

  datatype Box = Box(x: real, y: real, width: real, height: real)

  /** One stored object. `timestamp` stands for the ISO-8601 string written
      at save time; such strings order like the instants they encode, so an
      integer instant is kept. `kind` is the optional `type` property that
      the dashboard shows. Descriptor, landmarks and detection may be missing
      in a record that came from a restored backup file; such a record is
      taken to carry an id and a timestamp. */
  datatype Record = Record(
    id: nat,
    descriptor: Option<Descriptor>,
    landmarks: Option<seq<Point>>,
    detection: Option<Box>,
    timestamp: int,
    kind: Option<string>)

  /** `record.descriptor` is truthy: any array, even an empty one. This is
      the `item => item.descriptor` test of both matching pages. */
  predicate HasDescriptor(r: Record) {
    r.descriptor.Some?
  }

  /** What a successful detection yields and what a capture or an upload
      saves: the descriptor array, the landmark points and the bounding
      box. */
  datatype FaceData = FaceData(descriptor: Descriptor, landmarks: seq<Point>, box: Box)
}
