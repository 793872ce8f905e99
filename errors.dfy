/** The failures the palette-reduction engine raises as `std::runtime_error`
    (or `std::out_of_range`), one constructor per distinct message. */
module Errors {

  datatype Error =
    | OutOfBounds        // Image::getPixel: "outofbounds exception"
    | EmptyPixelSet      // compute_barycentre: "empty pixel set on compute barycentre"
    | EmptyDataSet       // Image::kmeans: "image data not found (empty data set)"
    | EmptyReduxSet      // Image::write_redux: "redux data not found (empty redux set)"
    | PaletteAtOutOfRange // getNearestBarycenter: k_redux.at(0) on an empty palette

  /** A value or the error that the source would have thrown instead. */
  datatype Result<+T> = Ok(value: T) | Err(error: Error)

  /** An operation that only changes state: it succeeds or throws. */
  datatype Outcome = Success | Failure(error: Error)
}
