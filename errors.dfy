/** The crate-wide error enum (declared in src/trayiconbuilder.rs). */
module Errors {

  datatype Error =
    | MenuItemNotFound
    | IconLoadingFailed
    | SenderMissing
    | IconMissing
    | OsError
}
