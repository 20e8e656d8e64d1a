// Facts about sequences that the loops of the model use, proved once for
// every element type so that no proof about particular elements has to
// redo them.
module Seqs {
  /** A prefix one longer is the prefix and the next element. */
  lemma TakeNext<T>(s: seq<T>, i: nat)
    requires i < |s|
    ensures s[..i + 1] == s[..i] + [s[i]]
  {
  }

  /** A non-empty sequence is its front and its last element. */
  lemma FrontLast<T>(s: seq<T>)
    requires s != []
    ensures s[..|s| - 1] + [s[|s| - 1]] == s
  {
  }

  /** A sequence headed by two elements, split after the first. */
  lemma PairCons<T>(a: T, b: T, t: seq<T>)
    ensures [a, b] + t == [a] + ([b] + t)
  {
  }

  /** The head and the tail of a sequence built by consing. */
  lemma ConsTail<T>(a: T, t: seq<T>)
    ensures ([a] + t)[0] == a && ([a] + t)[1..] == t
  {
  }

  /** Splitting off the head of the left operand of a concatenation. */
  lemma ConcatHead<T>(u: seq<T>, t: seq<T>)
    requires u != []
    ensures (u + t)[0] == u[0] && (u + t)[1..] == u[1..] + t
    ensures [u[0]] + (u[1..] + t) == u + t
  {
  }

  /** Dropping past a leading element. */
  lemma ConsDrop<T>(x: T, s: seq<T>, k: nat)
    requires k <= |s|
    ensures ([x] + s)[k + 1..] == s[k..]
  {
  }

  /** Being a prefix is transitive. */
  lemma PrefixTrans<T>(a: seq<T>, b: seq<T>, c: seq<T>)
    requires a <= b && b <= c
    ensures a <= c
  {
    assert forall i | 0 <= i < |a| :: a[i] == b[i] == c[i];
  }

  /** Regrouping a concatenation of four. */
  lemma Regroup<T>(a: seq<T>, b: seq<T>, c: seq<T>, d: seq<T>)
    ensures a + (b + c + d) == a + b + c + d
  {
  }
}
