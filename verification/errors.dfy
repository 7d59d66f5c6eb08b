/** What the modelled operations raise. */
module Errors {
  import opened JsonValues

  /** The built-in Python exceptions the modelled code lets escape. */
  datatype Fault = AttributeError | TypeError | ValueError

  /** `ConfigError` with the problem its message names, or another
      exception the code does not catch. */
  datatype Error =
    | ConfigNotFound
    | UnsupportedExtension(suffix: string)
    | MissingKey(key: string)
    | StartUrlsNotList
    | SelectorMissing(field: string)
    | TemplateRequired
    | UnsupportedMode(mode: Json)
    | Raised(fault: Fault)
  {
    predicate IsConfigError() {
      !Raised?
    }
  }
}
