/** Shared vocabulary of the QuickChat model: optional values, the error
    outcomes the controllers throw, and JavaScript truthiness of strings. */
module Common {

  datatype Option<T> = None | Some(value: T)

  /** User identifiers and socket identifiers travel as strings. */
  type UserId = string
  type SocketId = string

  /** What a handler throws: an `ApiError` with its HTTP status and message,
      or some other exception (a failed upload, a ReferenceError). */
  datatype Failure = ApiError(status: nat, message: string) | Thrown

  /** What the image host answers to an upload: the stored image's URL and
      public id, or a failure (the upload throws). */
  datatype UploadOutcome = Uploaded(secureUrl: string, publicId: string) | UploadFailed

  /** The value a handler answers with, or what it threw. */
  datatype Result<T> = Ok(status: nat, value: T) | Err(failure: Failure)

  /** JavaScript truthiness of an optional string: `undefined` and `""` are falsy. */
  predicate Truthy(s: Option<string>)
  {
    s.Some? && s.value != ""
  }

  /** `prefix` is a prefix of `s` (String.prototype.startsWith). */
  predicate StartsWith(s: string, prefix: string)
  {
    |prefix| <= |s| && s[..|prefix|] == prefix
  }

  /** `part` occurs somewhere in `s` (String.prototype.includes). */
  predicate Contains(s: string, part: string)
  {
    exists i {:trigger s[i..]} :: 0 <= i <= |s| - |part| && StartsWith(s[i..], part)
  }

  /** The elements of a sequence, as a set. */
  function Elems<T(!new)>(s: seq<T>): (r: set<T>)
    ensures forall x :: x in r <==> x in s
  {
    set x | x in s
  }

  /** No element of `s` occurs twice. */
  predicate NoDup<T(==)>(s: seq<T>)
  {
    forall i, j :: 0 <= i < j < |s| ==> s[i] != s[j]
  }

  /** Putting a new element in front keeps a sequence duplicate-free. */
  lemma NoDupPrepend<T>(a: T, s: seq<T>)
    ensures a !in s && NoDup(s) ==> NoDup([a] + s)
  {
    if a !in s && NoDup(s) {
      forall i, j | 0 <= i < j < |[a] + s| ensures ([a] + s)[i] != ([a] + s)[j] {
        if i == 0 { assert ([a] + s)[j] == s[j - 1]; }
      }
    }
  }
}
