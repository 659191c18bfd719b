/** What the caches need to know of names and questions. */
module Dns {

  datatype Option<+T> = None | Some(value: T)

  /** A name is its labels, leftmost first; labels are compared as the server compares
      them, so equal labels are the same string here. */
  type Label = string
  type Name = seq<Label>

  const ROOT: Name := []

  /** The root is the name without labels or with a single empty one. */
  predicate IsRoot(n: Name) {
    |n| == 0 || (|n| == 1 && n[0] == "")
  }

  datatype Question = Question(qname: Name, qtype: int, qclass: int, rrType: int)
}
