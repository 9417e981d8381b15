/** Small shared vocabulary of the credential forms: optional values, the
    outcome of a simulated backend call, the external effects a form performs,
    and a string search used by the parsers. */
module Common {

  /** A value that may be absent (`null` in the source). */
  datatype Option<+T> = None | Some(value: T)

  /** How a simulated backend call settles: its promise resolves with a value
      or rejects with an `Error` whose message is kept. */
  datatype Response<+T> = Resolved(value: T) | Rejected(message: string)

  /** Effects a form performs on its surroundings, recorded in a log. */
  datatype Effect =
    | OnSuccess            // the caller-supplied completion callback ran
    | Navigate(path: string)  // the router was asked to go to `path`

  /** The index of the first `c` in `s`, or `|s|` when there is none
      (`s.indexOf(c)` with "not found" mapped to the length). */
  function IndexOf(s: string, c: char): (k: nat)
    ensures k <= |s|
    ensures k < |s| ==> s[k] == c
    ensures forall i :: 0 <= i < k ==> s[i] != c
  {
    if s == [] then 0
    else if s[0] == c then 0
    else 1 + IndexOf(s[1..], c)
  }
}
