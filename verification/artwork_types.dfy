/** The vocabulary shared by the layers of the artwork resolve pipeline. */
module ArtworkTypes {
  import opened Common

  /** Canonical `(scheme, value, size)` address of an artwork target. */
  datatype Key = Key(scheme: string, value: string, size: string)

  /** What one run of the provider cascade answers. */
  datatype Outcome =
    | Resolved(hash: string, provider: Option<string>)
    | Failed(reason: string)
}
