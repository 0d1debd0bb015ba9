/** A value that may be missing. */
module Options {
  datatype Option<T> = None | Some(value: T)
}

/** Spaces in text. */
module Spaces {

  /** isspace in the C locale; the same characters are spaces for Python's regular expressions. */
  predicate IsSpace(c: char) { c == ' ' || '\t' <= c <= '\r' }

  function TrimRight(s: string): (t: string)
    ensures t <= s
    ensures t == [] || !IsSpace(t[|t| - 1])
    ensures forall i :: |t| <= i < |s| ==> IsSpace(s[i])
  {
    if s != [] && IsSpace(s[|s| - 1]) then TrimRight(s[..|s| - 1]) else s
  }
}

/** The size that both loggers give to their buffers. */
module LogSizes {

  /** kLargeBuffer */
  const SIZE: nat := 4000 * 1000
}
