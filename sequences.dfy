/**
 * Small facts about sequences, stated once so that proofs elsewhere can
 * name the step they need instead of leaving the solver to rediscover it.
 */
module Sequences {

  /** Moving a middle piece across a concatenation: the step of every loop
      that appends to a builder what a specification produces next. */
  lemma ConcatShift<T>(before: seq<T>, piece: seq<T>, rest: seq<T>, tail: seq<T>, whole: seq<T>, after: seq<T>)
    requires before + rest == whole && rest == piece + tail && after == before + piece
    ensures after + tail == whole
  {
  }

  /** Concatenation is associative, stated for reuse where the solver would
      otherwise search for it among many other facts. */
  lemma ConcatAssoc<T>(x: seq<T>, y: seq<T>, z: seq<T>)
    ensures x + y + z == x + (y + z)
  {
  }

  /** The prefix of length i + 1 extends the prefix of length i by s[i]. */
  lemma TakeSnoc<T>(s: seq<T>, i: nat)
    requires i < |s|
    ensures s[..i + 1] == s[..i] + [s[i]]
  {
  }

  /** Dropping the last element and putting it back gives the sequence. */
  lemma InitLast<T>(s: seq<T>)
    requires s != []
    ensures s == s[..|s| - 1] + [s[|s| - 1]]
  {
  }

  /** Appending nothing leaves a sequence as it is. */
  lemma AppendEmpty<T>(s: seq<T>)
    ensures s + [] == s
  {
  }

  /** Prepending nothing leaves a sequence as it is. */
  lemma PrependEmpty<T>(s: seq<T>)
    ensures [] + s == s
  {
  }

  /** A non-empty sequence is its head followed by its tail. */
  lemma ConsTail<T>(s: seq<T>)
    requires s != []
    ensures s == [s[0]] + s[1..]
  {
  }

  /** The tail of [x] + s is s. */
  lemma TailOfCons<T>(x: T, s: seq<T>)
    ensures ([x] + s)[1..] == s
  {
  }

  /** The prefix of full length is the sequence. */
  lemma TakeAll<T>(s: seq<T>)
    ensures s[..|s|] == s
  {
  }

  /** The sequence that drops the last element of s + [x] is s. */
  lemma InitOfSnoc<T>(s: seq<T>, x: T)
    ensures (s + [x])[..|s|] == s
  {
  }
}
