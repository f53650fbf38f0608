/** Byte strings, and the prefix and suffix facts the stream proofs share. */
module ByteStrings {

  type Byte = b: int | 0 <= b < 256

  type Bytes = seq<Byte>

  predicate IsPrefix<T(==)>(p: seq<T>, s: seq<T>) {
    |p| <= |s| && s[..|p|] == p
  }

  predicate IsSuffix<T(==)>(t: seq<T>, s: seq<T>) {
    |t| <= |s| && s[|s| - |t|..] == t
  }

  lemma SuffixGrows<T>(t: seq<T>, s: seq<T>, more: seq<T>)
    requires IsSuffix(t, s)
    ensures IsSuffix(t + more, s + more)
  {
  }
}
