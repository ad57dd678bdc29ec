/** The application error of src/error.rs; wrapped foreign errors are kept without their payloads. */
module Errors {

  datatype AppError =
    | InvalidConfigError(message: string)
    | InvalidArgumentError(argument: string, details: string)
    | FilesystemError
    | UrlParseError
    | HttpError
    | ImageError
    | RILError
}
