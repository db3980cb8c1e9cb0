/**
 * The ArgumentErr exceptions thrown by the command-line layer, one
 * constructor per distinct message, and the text each one carries.
 */
module ArgErrors {
  datatype ArgError =
    | TooFewInputs                     // fewer than three positional inputs
    | InvalidPrefix(prefix: string)    // output prefix empty or an image/camera
    | UnevenImagesCameras              // odd count in the paired scenario
    | NotAnImage(path: string)
    | NotACamera(path: string)
    | CountMismatch                    // images and cameras of different lengths
    | MissingImage(path: string)
    | MissingCamera(path: string)
    | CouldNotParse(token: string)     // a metadata token without VAR and VAL
    | NoChecks                         // a BitChecker for zero arguments
    | TooManyChecks                    // a BitChecker for more than 32 arguments

  /** The message text the source attaches to each error. */
  function Message(e: ArgError): string {
    match e
    case TooFewInputs => "Expecting at least three inputs to stereo.\n"
    case InvalidPrefix(p) => "Invalid output prefix: " + p + ".\n"
    case UnevenImagesCameras => "Expecting as many images as cameras.\n"
    case NotAnImage(p) => "Expecting an image, got: " + p + ".\n"
    case NotACamera(p) => "Expecting a camera, got: " + p + ".\n"
    case CountMismatch => "Expecting the number of images and cameras to agree.\n"
    case MissingImage(p) => "Cannot find the image file: " + p + ".\n"
    case MissingCamera(p) => "Cannot find the camera file: " + p + ".\n"
    case CouldNotParse(t) => "Could not parse: " + t + "\n"
    case NoChecks => "There must be at least one thing you read.\n"
    case TooManyChecks => "You can only have up to 32 checks.\n"
  }
}
