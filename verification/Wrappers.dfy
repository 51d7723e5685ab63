/** What may be missing, and what ends early. */
module Wrappers {

  datatype Option<T> = None | Some(value: T)

  /** A C string's text: what comes before the first terminator. */
  function CStr<T(==)>(s: seq<T>, nul: T): (r: seq<T>)
    ensures nul !in r && r <= s
    ensures nul !in s ==> r == s
  {
    if s == [] || s[0] == nul then [] else [s[0]] + CStr(s[1..], nul)
  }
}
