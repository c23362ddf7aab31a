/**
 * Facts about sequence concatenation, stated once for every element type
 * so that proofs about strings, string lists and dictionaries can use them
 * without re-deriving them on their own terms.
 */
module Seqs {

  lemma ConsParts<T>(x: T, e: seq<T>)
    ensures ([x] + e)[0] == x && ([x] + e)[1..] == e && |[x] + e| == 1 + |e|
  {
  }

  lemma ConsAssoc<T>(x: T, e: seq<T>, f: seq<T>)
    ensures [x] + (e + f) == ([x] + e) + f
  {
  }

  lemma HeadTailAppend<T>(e: seq<T>, f: seq<T>)
    requires |e| >= 1
    ensures (e + f)[0] == e[0] && (e + f)[1..] == e[1..] + f
  {
  }

  lemma InitAppend<T>(e: seq<T>, f: seq<T>)
    requires |f| >= 1
    ensures (e + f)[..|e + f| - 1] == e + f[..|f| - 1] && (e + f)[|e + f| - 1] == f[|f| - 1]
  {
  }

  lemma SnocAssoc<T>(e: seq<T>, f: seq<T>, x: T)
    ensures (e + f) + [x] == e + (f + [x])
  {
  }

  lemma DropPrefix<T>(e: seq<T>, f: seq<T>)
    ensures (e + f)[|e|..] == f
  {
  }

  lemma Assoc<T>(e: seq<T>, f: seq<T>, g: seq<T>)
    ensures (e + f) + g == e + (f + g)
  {
  }

  lemma InAppend<T>(x: T, e: seq<T>, f: seq<T>)
    ensures x in e + f <==> x in e || x in f
  {
  }

  lemma InTail<T>(x: T, e: seq<T>)
    requires |e| > 0
    ensures x in e[1..] ==> x in e
  {
  }
}
