/** Values shared by the validator registry, the validators and the validate command. */
module Types {

  /** Go's `(T, bool)` lookups and nullable pointers. */
  datatype Option<+T> = None | Some(value: T)

  /** A Go `(T, error)` pair where exactly one side is meaningful; errors are kept as their text. */
  datatype Result<+T, +E> = Success(value: T) | Failure(error: E)

  /** A Go `error` return on its own: nil, or an error with its text. */
  datatype Outcome<+E> = Pass | Fail(error: E)

  newtype byte = x: int | 0 <= x < 256

  /** The addon metadata fields this model reads; `indexImage` is a Go `*string`. */
  datatype AddonMetadata = AddonMetadata(
    id: string,
    icon: string,
    indexImage: Option<string>,
    operatorName: string)

  /** One operator bundle extracted from the index image, kept as its raw manifest text. */
  datatype Bundle = Bundle(manifest: string)

  /** The subject handed to every validator: the metadata and the extracted bundles. */
  datatype MetaBundle = MetaBundle(addonMeta: AddonMetadata, bundles: seq<Bundle>)

  /** What a validator's runner returns: the verdict, a message for humans and an optional hard error. */
  datatype RunResult = RunResult(passed: bool, message: string, err: Option<string>)

  /** The signature every validator's runner has. */
  type Runner = MetaBundle -> RunResult

  /**
   * A registered rule: its code, human name and description, and the runner.
   * The registry never looks at the runner, so its type is a parameter; the
   * validators of this model instantiate it with Runner.
   */
  datatype Validator<R> = Validator(
    code: string,
    name: string,
    description: string,
    runner: R)
}
