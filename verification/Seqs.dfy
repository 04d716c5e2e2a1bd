/** Small facts about sequences that the other modules lean on. */
module Seqs {

  lemma CutAppend<T>(x: seq<T>, u: seq<T>, n: nat)
    requires n <= |x|
    ensures (x + u)[..n] == x[..n]
    ensures (x + u)[n..] == x[n..] + u
  {
  }

  lemma AppendAssoc<T>(a: seq<T>, b: seq<T>, c: seq<T>)
    ensures a + (b + c) == (a + b) + c
  {
  }

  lemma Rejoin<T>(x: seq<T>, u: seq<T>, n: nat)
    requires n <= |u|
    ensures u[..n] + u[n..] == u
    ensures (x + u[..n]) + u[n..] == x + u
  {
  }

  lemma DropTwice<T>(s: seq<T>, m: nat, n: nat)
    requires m + n <= |s|
    ensures s[m..][n..] == s[m + n..]
  {
  }
}
