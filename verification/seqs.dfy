/** Regrouping facts about sequence concatenation, proved once so that the proofs using them
    need not unfold the sequences involved. */
module Seqs {

  /** Regrouping a concatenation. */
  lemma Concat3<T>(a: seq<T>, b: seq<T>, c: seq<T>)
    ensures (a + b) + c == a + (b + c)
  {
  }

  /** Moving the head of `q` to the end of `a`. */
  lemma MoveHead<T>(a: seq<T>, q: seq<T>)
    requires q != []
    ensures (a + [q[0]]) + q[1..] == a + q
  {
    assert q == [q[0]] + q[1..];
    Concat3(a, [q[0]], q[1..]);
  }
}
