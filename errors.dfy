/**
 * The error kinds of the tool (src/error.rs). The user-facing texts these
 * kinds are displayed with carry no logic and are not modelled; the payload
 * string is the message the raising code builds.
 */
module Errors {

  datatype RepError =
    | InvalidArguments(message: string)
    /* Raised by argument parsing for an unrecognised dash token. */
    | UnknownFlag(message: string)
    | FileNotFound(path: string)
    | GlobPatternError(message: string)
    | IoError(message: string)
    | NoFilesMatched
}
