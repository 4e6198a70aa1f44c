/** Proposal numbers: how a proposer makes one, and why two attempts never share one. */
module PaxosBallots {

  import opened Decimals

  /** The number a proposer makes for one attempt: nanoseconds, a dash, its own index. */
  function GeneratePNum(nanoseconds: nat, me: nat): string {
    Decimal(nanoseconds) + "-" + Decimal(me)
  }

  /** Two attempts share a number only if they share the clock reading and the peer: attempts of
      different peers never collide, and a peer's own attempts collide only within one nanosecond. */
  lemma PNumUnique(t: nat, me: nat, t': nat, me': nat)
    requires GeneratePNum(t, me) == GeneratePNum(t', me')
    ensures t == t' && me == me'
  {
    var x, y := GeneratePNum(t, me), GeneratePNum(t', me');
    var i, j := |Decimal(t)|, |Decimal(t')|;
    assert x[i] == '-' && y[j] == '-';
    assert forall k :: 0 <= k < i ==> x[k] == Decimal(t)[k];
    assert forall k :: 0 <= k < j ==> y[k] == Decimal(t')[k];
    assert i == j;
    assert x[..i] == Decimal(t) && y[..j] == Decimal(t');
    assert x[i + 1..] == Decimal(me) && y[j + 1..] == Decimal(me');
    DecimalInjective(t, t');
    DecimalInjective(me, me');
  }
}
