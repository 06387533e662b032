/** The value types shared by the generation service and the app (types.ts),
    plus the shapes JavaScript gives to absent values, thrown values and
    settled promises. */
module Types {

  /** The three screens of the app. */
  datatype AppState = Idle | Loading | Result

  /** What one successful generation hands to the result screen. */
  datatype GeneratedAssets = GeneratedAssets(images: seq<string>, stlContent: string)

  /** `T | null` and `T | undefined`. */
  datatype Option<T> = None | Some(value: T)

  /** A thrown value: an `Error` object carrying its message, or anything else. */
  datatype Thrown = Error(message: string) | NonError

  /** The outcome of awaiting a promise: it resolved with a value or was rejected with a reason. */
  datatype Settled<T> = Resolved(value: T) | Rejected(reason: Thrown)
}
