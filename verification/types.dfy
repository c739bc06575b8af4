/** Value types shared by the geotag decoder and the speed estimator. */
module Types {

  /** Python's `None`-or-value returns, as used by the extractor and the parsers. */
  datatype Option<T> = None | Some(value: T)

  /** One decoded geotag: latitude and longitude in decimal degrees and the
      capture instant in whole seconds. */
  datatype Fix = Fix(lat: real, lon: real, time: int)

  /** Lifts an optional value to a sequence of zero or one elements. */
  function ToSeq<T>(o: Option<T>): (r: seq<T>)
    ensures |r| <= 1
    ensures o.Some? <==> |r| == 1
    ensures o.Some? ==> r[0] == o.value
  {
    match o
    case None => []
    case Some(v) => [v]
  }
}
