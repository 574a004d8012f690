/** Option and Result wrappers, and the ways the ZETA computation can fail. */
module Wrappers {

  datatype Option<T> = None | Some(value: T)

  datatype Result<T> = Ok(value: T) | Err(error: Failure)

  /** Every exception the modelled code can raise, plus the one branch it does not model. */
  datatype Failure =
    | NotFloatArray          // the assertion on the event array: three or more dimensions, or not floating point
    | AmbiguousOrientation   // both dimensions of a 2-D event array are 3 or more
    | MissingColumn          // column 0 of an oriented event array with no columns
    | NoEvents               // a minimum or last element taken of an empty event vector
    | NoSpikes               // the first element taken of an empty spike vector
    | EmptyNullDistribution  // the minimum taken of an empty set of null maxima
    | TiedSpikeTimes         // identical trial-relative spike times: the epsilon separation is not modelled
    | EmptyFloatIndex        // stitching: a trial with no spike at or after its onset indexes the spikes with an empty float array
}
