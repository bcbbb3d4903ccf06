/** Python list indexing and slicing, including negative positions. */
module PyLists {

  /** `s[i]` does not raise `IndexError` in Python exactly when `-len(s) <= i < len(s)`. */
  predicate IndexOk(i: int, n: nat) {
    0 <= n + i && i < n
  }

  /** Python's `s[i]`: a negative `i` counts from the end. */
  function At<T>(s: seq<T>, i: int): (r: T)
    requires IndexOk(i, |s|)
    ensures 0 <= i ==> r == s[i]
    ensures i < 0 ==> r == s[|s| + i]
  {
    if i < 0 then s[|s| + i] else s[i]
  }

  /** Where Python's `s[:n]` stops for a list of length `len`. */
  function SliceStop(n: int, len: nat): (k: nat)
    ensures k <= len
    ensures 0 <= n ==> k == if n < len then n else len
    ensures n < 0 ==> k == if len + n < 0 then 0 else len + n
  {
    if 0 <= n then (if n < len then n else len)
    else if len + n < 0 then 0 else len + n
  }

  /** Python's `s[:n]`. */
  function TakePrefix<T>(s: seq<T>, n: int): (r: seq<T>)
    ensures r == s[..SliceStop(n, |s|)]
  {
    s[..SliceStop(n, |s|)]
  }
}
