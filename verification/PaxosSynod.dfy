/** Agreement for one instance. The acceptors' promises are not monotone here: a decision overwrites
    both numbers with the decided ballot, which may be lower. */
module PaxosSynod {
  import opened Collections
  import opened Lexicographic
  import opened PaxosPeer

  // Every message ever sent. A message may be delivered late, more than once, or never.
  datatype Msg =
    | Ask(k: int, pnum: string)
    | Promise(k: int, pnum: string, from: nat, reply: PrepareReply)
    | Propose(k: int, pnum: string, v: Value)
    | Vote(k: int, pnum: string, from: nat, err: Err)
    | Decision(k: int, pnum: string, v: Value, sender: nat, done: int)

  // Instance k as seen across the peers: each peer's table entry, the messages about k, and the
  // values handed to Start for k.
  datatype Synod = Synod(k: int, acc: seq<Option<Instance>>, net: set<Msg>, starts: set<Value>)

  /* ---- vocabulary ---- */

  ghost predicate Proposed(x: Synod, b: string, v: Value) { Propose(x.k, b, v) in x.net }

  ghost predicate Voted(x: Synod, q: nat, b: string) { Vote(x.k, b, q, OK) in x.net }

  ghost predicate Promised(x: Synod, q: nat, b: string, a: string, w: Value) {
    Promise(x.k, b, q, PrepareReply(OK, a, w)) in x.net
  }

  ghost function Voters(x: Synod, b: string): set<nat> {
    set q: nat | q < |x.acc| && Voted(x, q, b)
  }

  // A majority accepted ballot b.
  ghost predicate Chosen(x: Synod, b: string) { |Voters(x, b)| >= Majority(|x.acc|) }

  ghost predicate NoneBelow(x: Synod, c: string) {
    forall d :: Rank(d) < Rank(c) ==> !Chosen(x, d)
  }

  /* ---- steps ---- */

  ghost predicate PrepareStep(x: Synod, x': Synod, q: nat, b: string) {
    && q < |x.acc| && b != ""
    && var (inst, reply) := OnPrepare(x.acc[q], b);
    && x' == x.(acc := x.acc[q := Some(inst)], net := x.net + {Promise(x.k, b, q, reply)})
  }

  ghost predicate RepliesSent(x: Synod, b: string, replies: seq<PrepareReply>) {
    && |replies| == |x.acc|
    && forall i :: 0 <= i < |replies| ==> replies[i] == NO_PROMISE || Promise(x.k, b, i, replies[i]) in x.net
  }

  ghost predicate ProposeStep(x: Synod, x': Synod, b: string, replies: seq<PrepareReply>, own: Value) {
    && b != "" && own in x.starts && (forall v :: !Proposed(x, b, v))
    && RepliesSent(x, b, replies)
    && |OkPeers(Errs(replies))| >= Majority(|x.acc|)
    && x' == x.(net := x.net + {Propose(x.k, b, Highest(replies, own).1)})
  }

  ghost predicate AcceptStep(x: Synod, x': Synod, q: nat, b: string, v: Value) {
    && q < |x.acc| && Proposed(x, b, v)
    && var (inst, err) := OnAccept(x.acc[q], b, v);
    && x' == x.(acc := x.acc[q := Some(inst)], net := x.net + {Vote(x.k, b, q, err)})
  }

  ghost predicate DecideStep(x: Synod, x': Synod, q: nat, b: string, v: Value) {
    && q < |x.acc| && Proposed(x, b, v) && Chosen(x, b)
    && x' == x.(acc := x.acc[q := Some(Instance(Decided, b, b, v))])
  }

  /* ---- invariant ---- */

  ghost predicate HasProposal(x: Synod, b: string) { exists v :: Proposed(x, b, v) }

  ghost predicate AcceptorOk(x: Synod, q: nat)
    requires q < |x.acc|
  {
    match x.acc[q]
    case None => (forall b :: !Voted(x, q, b)) && (forall b, a, w :: !Promised(x, q, b, a, w))
    case Some(i) =>
      && Rank(i.na) <= Rank(i.np)
      && (i.na == "" || Proposed(x, i.na, i.va))
      && (i.state == Decided ==> DecidedUpTo(x, i.na))
  }

  ghost predicate DecidedUpTo(x: Synod, b: string) {
    exists d :: Chosen(x, d) && Rank(d) <= Rank(b)
  }

  // Peer q promised b and reported an accepted ballot of at most a.
  ghost predicate PromisedUpTo(x: Synod, q: nat, b: string, a: string) {
    exists a', w :: Promised(x, q, b, a', w) && Rank(a') <= Rank(a)
  }

  ghost predicate Justifies(x: Synod, b: string, v: Value, quorum: set<nat>, a: string) {
    && |quorum| >= Majority(|x.acc|)
    && (forall q: nat :: q in quorum ==> q < |x.acc| && PromisedUpTo(x, q, b, a))
    && (if a == "" then v in x.starts else Rank(a) < Rank(b) && Proposed(x, a, v))
  }

  ghost predicate Justified(x: Synod, b: string, v: Value) {
    exists quorum, a :: Justifies(x, b, v, quorum, a)
  }

  ghost predicate MessagesOk(x: Synod) {
    && (forall b, v :: Proposed(x, b, v) ==> b != "" && Justified(x, b, v))
    && (forall b, v, v' :: Proposed(x, b, v) && Proposed(x, b, v') ==> v == v')
    && (forall q: nat, b :: Voted(x, q, b) ==> q < |x.acc| && HasProposal(x, b))
    && (forall q: nat, b, a, w :: Promised(x, q, b, a, w) ==>
          q < |x.acc| && Rank(a) < Rank(b) && (a == "" || Proposed(x, a, w)))
    && (forall b, v, p, done :: Decision(x.k, b, v, p, done) in x.net ==> Proposed(x, b, v) && Chosen(x, b))
  }

  // Acceptor q's promises above c report an accepted ballot of at least c.
  ghost predicate ReportsFrom(x: Synod, q: nat, c: string) {
    forall b, a, w :: Promised(x, q, b, a, w) && Rank(b) > Rank(c) ==> Rank(a) >= Rank(c)
  }

  ghost predicate HeldBy(x: Synod, c: string, quorum: set<nat>) {
    && |quorum| >= Majority(|x.acc|)
    && forall q: nat :: q in quorum ==> q < |x.acc| && Voted(x, q, c) && ReportsFrom(x, q, c)
  }

  // What holds of a ballot c while nothing smaller has been chosen.
  ghost predicate BallotOk(x: Synod, c: string) {
    && (forall q: nat :: q < |x.acc| && Voted(x, q, c) ==> x.acc[q].Some? && Rank(x.acc[q].value.na) >= Rank(c))
    && (!Chosen(x, c) ==>
          && (forall q: nat, b, a, w :: Promised(x, q, b, a, w) && Rank(b) > Rank(c) ==>
                q < |x.acc| && x.acc[q].Some? && Rank(x.acc[q].value.np) > Rank(c))
          && (forall q: nat :: Voted(x, q, c) ==> ReportsFrom(x, q, c)))
    && (Chosen(x, c) ==> exists quorum :: HeldBy(x, c, quorum))
  }

  ghost predicate Inv(x: Synod) {
    && MessagesOk(x)
    && (forall q: nat :: q < |x.acc| ==> AcceptorOk(x, q))
    && (forall c :: NoneBelow(x, c) ==> BallotOk(x, c))
  }

  /* ---- votes only grow ---- */

  lemma VotersGrow(x: Synod, x': Synod)
    requires x.k == x'.k && |x.acc| == |x'.acc| && x.net <= x'.net
    ensures forall b :: Voters(x, b) <= Voters(x', b)
    ensures forall b :: Chosen(x, b) ==> Chosen(x', b)
    ensures forall c :: NoneBelow(x', c) ==> NoneBelow(x, c)
  {
    forall b
      ensures Voters(x, b) <= Voters(x', b)
      ensures Chosen(x, b) ==> Chosen(x', b)
    {
      Fits(Voters(x, b), Voters(x', b));
    }
  }

  lemma Fits(a: set<nat>, b: set<nat>)
    requires a <= b
    ensures |a| <= |b|
  {
    if a != b {
      assert |a| + |b - a| == |b| by { assert a + (b - a) == b; }
    }
  }

  lemma VotersSame(x: Synod, x': Synod)
    requires x.k == x'.k && |x.acc| == |x'.acc|
    requires forall q: nat, b :: Voted(x', q, b) <==> Voted(x, q, b)
    ensures forall b :: Voters(x', b) == Voters(x, b) && (Chosen(x', b) <==> Chosen(x, b))
    ensures forall c :: NoneBelow(x', c) <==> NoneBelow(x, c)
  {
    forall b
      ensures Voters(x', b) == Voters(x, b)
    {
    }
  }

  /* ---- every step keeps the invariant ---- */

  lemma JustifiedStays(x: Synod, x': Synod, b: string, v: Value)
    requires x.k == x'.k && |x.acc| == |x'.acc| && x.net <= x'.net && x.starts <= x'.starts
    requires Justified(x, b, v)
    ensures Justified(x', b, v)
  {
    var quorum, a :| Justifies(x, b, v, quorum, a);
    forall q | q in quorum
      ensures PromisedUpTo(x', q, b, a)
    {
      var a', w :| Promised(x, q, b, a', w) && Rank(a') <= Rank(a);
      assert Promised(x', q, b, a', w);
    }
    assert Justifies(x', b, v, quorum, a);
  }

  lemma DecidedStays(x: Synod, x': Synod, b: string)
    requires x.k == x'.k && |x.acc| == |x'.acc| && x.net <= x'.net
    requires DecidedUpTo(x, b)
    ensures DecidedUpTo(x', b)
  {
    VotersGrow(x, x');
    var d :| Chosen(x, d) && Rank(d) <= Rank(b);
    assert Chosen(x', d);
  }

  lemma PrepareKeeps(x: Synod, x': Synod, q0: nat, b0: string)
    requires Inv(x) && PrepareStep(x, x', q0, b0)
    ensures Inv(x')
  {
    PrepareKeepsMessages(x, x', q0, b0);
    forall q: nat | q < |x'.acc|
      ensures AcceptorOk(x', q)
    {
      PrepareKeepsAcceptor(x, x', q0, b0, q);
    }
    VotersSame(x, x');
    forall c | NoneBelow(x', c)
      ensures BallotOk(x', c)
    {
      PrepareKeepsBallot(x, x', q0, b0, c);
    }
  }

  lemma PrepareKeepsMessages(x: Synod, x': Synod, q0: nat, b0: string)
    requires PrepareStep(x, x', q0, b0) && MessagesOk(x) && AcceptorOk(x, q0)
    ensures MessagesOk(x')
  {
    var (inst, reply) := OnPrepare(x.acc[q0], b0);
    if x.acc[q0].Some? { RankOrder(x.acc[q0].value.np, b0); }
    assert forall b, v :: Proposed(x', b, v) <==> Proposed(x, b, v);
    VotersSame(x, x');
    forall b, v | Proposed(x', b, v)
      ensures Justified(x', b, v)
    {
      JustifiedStays(x, x', b, v);
    }
    forall q: nat, b | Voted(x', q, b)
      ensures HasProposal(x', b)
    {
      var v :| Proposed(x, b, v);
      assert Proposed(x', b, v);
    }
    forall q: nat, b, a, w | Promised(x', q, b, a, w)
      ensures q < |x.acc| && Rank(a) < Rank(b) && (a == "" || Proposed(x', a, w))
    {
      assert Promised(x, q, b, a, w) || (q == q0 && b == b0 && reply == PrepareReply(OK, a, w));
    }
  }

  lemma PrepareKeepsAcceptor(x: Synod, x': Synod, q0: nat, b0: string, q: nat)
    requires q < |x.acc| && AcceptorOk(x, q) && PrepareStep(x, x', q0, b0)
    ensures AcceptorOk(x', q)
  {
    if x.acc[q0].Some? { RankOrder(x.acc[q0].value.np, b0); }
    if x.acc[q].Some? && x.acc[q].value.state == Decided { DecidedStays(x, x', x.acc[q].value.na); }
    assert forall b :: Voted(x', q, b) ==> Voted(x, q, b);
    assert q != q0 ==> forall b, a, w :: Promised(x', q, b, a, w) ==> Promised(x, q, b, a, w);
  }

  // A voter for c has accepted from c on, and says so in any later promise.
  lemma PrepareKeepsReports(x: Synod, x': Synod, q0: nat, b0: string, c: string, q: nat)
    requires PrepareStep(x, x', q0, b0) && BallotOk(x, c) && Voted(x, q, c) && ReportsFrom(x, q, c)
    ensures ReportsFrom(x', q, c)
  {
    hide Rank;
    var (inst, reply) := OnPrepare(x.acc[q0], b0);
    forall b, a, w | Promised(x', q, b, a, w) && Rank(b) > Rank(c)
      ensures Rank(a) >= Rank(c)
    {
      assert Promised(x, q, b, a, w) || (q == q0 && reply == PrepareReply(OK, a, w));
    }
  }

  // A peer that promised above c has its promise above c.
  lemma PrepareKeepsPromises(x: Synod, x': Synod, q0: nat, b0: string, c: string, q: nat, b: string, a: string, w: Value)
    requires PrepareStep(x, x', q0, b0) && BallotOk(x, c) && AcceptorOk(x, q0) && !Chosen(x, c)
    requires Promised(x', q, b, a, w) && Rank(b) > Rank(c)
    ensures q < |x.acc| && x'.acc[q].Some? && Rank(x'.acc[q].value.np) > Rank(c)
  {
    hide Rank, Voted, ReportsFrom, Chosen, AcceptorOk;
    var (inst, reply) := OnPrepare(x.acc[q0], b0);
    PromiseRises(x.acc[q0], b0);
    if Promised(x, q, b, a, w) {
      assert q < |x.acc| && x.acc[q].Some? && Rank(x.acc[q].value.np) > Rank(c);
    } else {
      assert q == q0 && b == b0 && reply.err == OK;
    }
  }

  lemma PromiseRises(acc: Option<Instance>, b: string)
    ensures var (inst, reply) := OnPrepare(acc, b);
            (acc.Some? ==> Rank(inst.np) >= Rank(acc.value.np)) && (reply.err == OK ==> inst.np == b)
  {
    if acc.Some? { RankOrder(acc.value.np, b); }
  }

  lemma PrepareKeepsBallot(x: Synod, x': Synod, q0: nat, b0: string, c: string)
    requires PrepareStep(x, x', q0, b0) && BallotOk(x, c) && AcceptorOk(x, q0)
    requires MessagesOk(x)
    ensures BallotOk(x', c)
  {
    hide Rank, MessagesOk, ReportsFrom, AcceptorOk;
    VotersSame(x, x');
    forall q: nat | Voted(x, q, c) && ReportsFrom(x, q, c)
      ensures ReportsFrom(x', q, c)
    {
      PrepareKeepsReports(x, x', q0, b0, c, q);
    }
    if Chosen(x', c) {
      var quorum :| HeldBy(x, c, quorum);
      assert HeldBy(x', c, quorum);
    } else {
      forall q: nat, b, a, w | Promised(x', q, b, a, w) && Rank(b) > Rank(c)
        ensures q < |x.acc| && x'.acc[q].Some? && Rank(x'.acc[q].value.np) > Rank(c)
      {
        PrepareKeepsPromises(x, x', q0, b0, c, q, b, a, w);
      }
    }
  }

  lemma ProposeKeeps(x: Synod, x': Synod, b0: string, replies: seq<PrepareReply>, own: Value)
    requires Inv(x) && ProposeStep(x, x', b0, replies, own)
    ensures Inv(x')
  {
    ProposeKeepsMessages(x, x', b0, replies, own);
    forall q: nat | q < |x'.acc|
      ensures AcceptorOk(x', q)
    {
      ProposeKeepsAcceptor(x, x', b0, replies, own, q);
    }
    OrderUntouched(x, x');
  }

  lemma ProposeKeepsAcceptor(x: Synod, x': Synod, b0: string, replies: seq<PrepareReply>, own: Value, q: nat)
    requires ProposeStep(x, x', b0, replies, own) && q < |x.acc| && AcceptorOk(x, q)
    ensures AcceptorOk(x', q)
  {
    assert forall b :: Voted(x', q, b) <==> Voted(x, q, b);
    assert forall b, a, w :: Promised(x', q, b, a, w) <==> Promised(x, q, b, a, w);
    if x.acc[q].Some? && x.acc[q].value.state == Decided { DecidedStays(x, x', x.acc[q].value.na); }
  }

  // The promises gathered for b0 justify the value they lead to.
  lemma GatheredJustifies(x: Synod, b0: string, replies: seq<PrepareReply>, own: Value)
    requires MessagesOk(x) && RepliesSent(x, b0, replies) && |OkPeers(Errs(replies))| >= Majority(|x.acc|)
    requires own in x.starts
    ensures Justified(x, b0, Highest(replies, own).1)
  {
    var (a, v0) := Highest(replies, own);
    HighestIsMaximum(replies, own);
    var quorum := OkPeers(Errs(replies));
    forall q | q in quorum
      ensures q < |x.acc| && PromisedUpTo(x, q, b0, a)
    {
      RankOrder(a, replies[q].acceptPnum);
      assert Promised(x, q, b0, replies[q].acceptPnum, replies[q].acceptValue);
    }
    if a != "" {
      var i :| 0 <= i < |replies| && replies[i].err == OK && replies[i].acceptPnum == a && replies[i].acceptValue == v0;
      assert Promised(x, i, b0, a, v0);
    }
    assert Justifies(x, b0, v0, quorum, a);
  }

  lemma ProposeKeepsMessages(x: Synod, x': Synod, b0: string, replies: seq<PrepareReply>, own: Value)
    requires MessagesOk(x) && ProposeStep(x, x', b0, replies, own)
    ensures MessagesOk(x')
  {
    var v0 := Highest(replies, own).1;
    assert forall b, v :: Proposed(x', b, v) <==> Proposed(x, b, v) || (b == b0 && v == v0);
    assert forall q: nat, b, a, w :: Promised(x', q, b, a, w) <==> Promised(x, q, b, a, w);
    VotersSame(x, x');
    GatheredJustifies(x, b0, replies, own);
    forall b, v | Proposed(x', b, v)
      ensures Justified(x', b, v)
    {
      JustifiedStays(x, x', b, v);
    }
    forall q: nat, b | Voted(x', q, b)
      ensures HasProposal(x', b)
    {
      var v :| Proposed(x, b, v);
      assert Proposed(x', b, v);
    }
  }

  // A step that adds no vote and no promise and leaves the acceptors alone.
  lemma OrderUntouched(x: Synod, x': Synod)
    requires x.k == x'.k && x.acc == x'.acc
    requires forall q: nat, b :: Voted(x', q, b) <==> Voted(x, q, b)
    requires forall q: nat, b, a, w :: Promised(x', q, b, a, w) <==> Promised(x, q, b, a, w)
    requires forall c :: NoneBelow(x, c) ==> BallotOk(x, c)
    ensures forall c :: NoneBelow(x', c) ==> BallotOk(x', c)
  {
    VotersSame(x, x');
    forall c | NoneBelow(x', c)
      ensures BallotOk(x', c)
    {
      assert BallotOk(x, c);
      if Chosen(x', c) {
        var quorum :| HeldBy(x, c, quorum);
        assert HeldBy(x', c, quorum);
      }
    }
  }

  lemma AcceptKeeps(x: Synod, x': Synod, q0: nat, b0: string, v0: Value)
    requires Inv(x) && AcceptStep(x, x', q0, b0, v0)
    ensures Inv(x')
  {
    AcceptKeepsMessages(x, x', q0, b0, v0);
    forall q: nat | q < |x'.acc|
      ensures AcceptorOk(x', q)
    {
      AcceptKeepsAcceptor(x, x', q0, b0, v0, q);
    }
    VotersGrow(x, x');
    forall c | NoneBelow(x', c)
      ensures BallotOk(x', c)
    {
      AcceptKeepsBallot(x, x', q0, b0, v0, c);
    }
  }

  lemma AcceptKeepsMessages(x: Synod, x': Synod, q0: nat, b0: string, v0: Value)
    requires AcceptStep(x, x', q0, b0, v0) && MessagesOk(x)
    ensures MessagesOk(x')
  {
    assert forall b, v :: Proposed(x', b, v) <==> Proposed(x, b, v);
    assert forall q: nat, b, a, w :: Promised(x', q, b, a, w) <==> Promised(x, q, b, a, w);
    VotersGrow(x, x');
    forall b, v | Proposed(x', b, v)
      ensures Justified(x', b, v)
    {
      JustifiedStays(x, x', b, v);
    }
    forall q: nat, b | Voted(x', q, b)
      ensures q < |x.acc| && HasProposal(x', b)
    {
      if Voted(x, q, b) {
        var v :| Proposed(x, b, v);
        assert Proposed(x', b, v);
      } else {
        assert Proposed(x', b0, v0);
      }
    }
  }

  lemma AcceptKeepsAcceptor(x: Synod, x': Synod, q0: nat, b0: string, v0: Value, q: nat)
    requires AcceptStep(x, x', q0, b0, v0) && q < |x.acc| && AcceptorOk(x, q)
    ensures AcceptorOk(x', q)
  {
    if x.acc[q0].Some? { RankOrder(b0, x.acc[q0].value.np); }
    if x.acc[q].Some? && x.acc[q].value.state == Decided { DecidedStays(x, x', x.acc[q].value.na); }
    assert q != q0 ==> forall b :: Voted(x', q, b) ==> Voted(x, q, b);
    assert forall b, a, w :: Promised(x', q, b, a, w) ==> Promised(x, q, b, a, w);
  }

  lemma AcceptKeepsBallot(x: Synod, x': Synod, q0: nat, b0: string, v0: Value, c: string)
    requires AcceptStep(x, x', q0, b0, v0) && BallotOk(x, c) && AcceptorOk(x, q0)
    ensures BallotOk(x', c)
  {
    var (inst, err) := OnAccept(x.acc[q0], b0, v0);
    if x.acc[q0].Some? { RankOrder(b0, x.acc[q0].value.np); }
    VotersGrow(x, x');
    assert forall q: nat, b, a, w :: Promised(x', q, b, a, w) <==> Promised(x, q, b, a, w);
    assert forall q: nat, b :: Voted(x', q, b) <==> Voted(x, q, b) || (q == q0 && b == b0 && err == OK);
    assert forall q: nat :: ReportsFrom(x, q, c) ==> ReportsFrom(x', q, c);
    if Chosen(x, c) {
      var quorum :| HeldBy(x, c, quorum);
      assert HeldBy(x', c, quorum);
    } else {
      forall q: nat | Voted(x', q, c)
        ensures ReportsFrom(x', q, c)
      {
      }
      if Chosen(x', c) {
        assert HeldBy(x', c, Voters(x', c));
      }
    }
  }

  lemma DecideKeeps(x: Synod, x': Synod, q0: nat, b0: string, v0: Value)
    requires Inv(x) && DecideStep(x, x', q0, b0, v0)
    ensures Inv(x')
  {
    assert forall b, v :: Proposed(x', b, v) <==> Proposed(x, b, v);
    assert forall q: nat, b, a, w :: Promised(x', q, b, a, w) <==> Promised(x, q, b, a, w);
    VotersSame(x, x');
    forall b, v | Proposed(x', b, v)
      ensures Justified(x', b, v)
    {
      JustifiedStays(x, x', b, v);
    }
    forall q: nat, b | Voted(x', q, b)
      ensures HasProposal(x', b)
    {
      var v :| Proposed(x, b, v);
      assert Proposed(x', b, v);
    }
    forall q: nat | q < |x'.acc|
      ensures AcceptorOk(x', q)
    {
      assert AcceptorOk(x, q);
      if q != q0 && x.acc[q].Some? && x.acc[q].value.state == Decided { DecidedStays(x, x', x.acc[q].value.na); }
      assert q == q0 ==> Chosen(x', b0);
    }
    forall c | NoneBelow(x', c)
      ensures BallotOk(x', c)
    {
      DecideKeepsBallot(x, x', q0, b0, v0, c);
    }
  }

  /** The decision may lower both of acceptor q0's numbers, but never below a ballot c under which
      nothing has been chosen. */
  lemma DecideKeepsBallot(x: Synod, x': Synod, q0: nat, b0: string, v0: Value, c: string)
    requires DecideStep(x, x', q0, b0, v0) && NoneBelow(x, c) && BallotOk(x, c)
    ensures BallotOk(x', c)
  {
    assert forall q: nat, b, a, w :: Promised(x', q, b, a, w) <==> Promised(x, q, b, a, w);
    VotersSame(x, x');
    RankOrder(b0, c);
    assert forall q: nat :: ReportsFrom(x, q, c) <==> ReportsFrom(x', q, c);
    if Chosen(x', c) {
      var quorum :| HeldBy(x, c, quorum);
      assert HeldBy(x', c, quorum);
    }
  }

  // A step that only adds a decision or a Prepare request.
  lemma TalkKeeps(x: Synod, x': Synod)
    requires Inv(x)
    requires x.k == x'.k && x.acc == x'.acc && x.net <= x'.net && x.starts <= x'.starts
    requires forall m :: m in x'.net && m !in x.net ==>
      m.Ask? || (m.Decision? && m.k == x.k && Proposed(x, m.pnum, m.v) && Chosen(x, m.pnum))
    ensures Inv(x')
  {
    assert forall b, v :: Proposed(x', b, v) <==> Proposed(x, b, v);
    assert forall q: nat, b, a, w :: Promised(x', q, b, a, w) <==> Promised(x, q, b, a, w);
    VotersSame(x, x');
    forall b, v | Proposed(x', b, v)
      ensures Justified(x', b, v)
    {
      JustifiedStays(x, x', b, v);
    }
    forall q: nat, b | Voted(x', q, b)
      ensures HasProposal(x', b)
    {
      var v :| Proposed(x, b, v);
      assert Proposed(x', b, v);
    }
    forall q: nat | q < |x'.acc|
      ensures AcceptorOk(x', q)
    {
      assert AcceptorOk(x, q);
      if x.acc[q].Some? && x.acc[q].value.state == Decided { DecidedStays(x, x', x.acc[q].value.na); }
    }
    OrderUntouched(x, x');
  }

  /* ---- agreement ---- */

  // Ballots below b that carry a proposal.
  ghost function ProposalsBelow(x: Synod, b: string): set<Msg> {
    set m | m in x.net && m.Propose? && m.k == x.k && Rank(m.pnum) < Rank(b)
  }

  /** Two majorities of n peers share a peer. */
  lemma MajoritiesMeet(a: set<nat>, b: set<nat>, n: nat) returns (q: nat)
    requires forall i :: i in a + b ==> i < n
    requires |a| >= Majority(n) && |b| >= Majority(n)
    ensures q in a && q in b
  {
    Fits(a + b, Upto(n));
    assert |a + b| + |a * b| == |a| + |b|;
    HasMember(a * b);
    q :| q in a * b;
  }

  // A peer of both majorities promised b, and its promises report from c on.
  lemma CommonPeer(x: Synod, c: string, b: string, v: Value, quorum: set<nat>, top: string, held: set<nat>) returns (q: nat)
    requires Justifies(x, b, v, quorum, top) && HeldBy(x, c, held)
    ensures PromisedUpTo(x, q, b, top) && ReportsFrom(x, q, c)
  {
    hide PromisedUpTo, ReportsFrom, Majority;
    q := MajoritiesMeet(quorum, held, |x.acc|);
  }

  /** A proposal above the smallest chosen ballot c repeats the value of a smaller proposal that is
      still at or above c. */
  lemma InheritsFromAbove(x: Synod, c: string, b: string, v: Value) returns (a: string)
    requires MessagesOk(x) && BallotOk(x, c) && Chosen(x, c) && c != ""
    requires Proposed(x, b, v) && Rank(c) < Rank(b)
    ensures Proposed(x, a, v) && Rank(c) <= Rank(a) < Rank(b)
  {
    assert Justified(x, b, v);
    var held :| HeldBy(x, c, held);
    hide MessagesOk, BallotOk, Chosen, Rank, Majority, HeldBy;
    var quorum, top :| Justifies(x, b, v, quorum, top);
    var q := CommonPeer(x, c, b, v, quorum, top, held);
    var a', w :| Promised(x, q, b, a', w) && Rank(a') <= Rank(top);
    assert Rank(c) <= Rank(a');
    a := top;
  }

  /** Every proposal from the smallest chosen ballot c upwards carries c's value. */
  lemma {:induction false} LaterProposalsAgree(x: Synod, c: string, vc: Value, b: string, v: Value)
    requires MessagesOk(x) && BallotOk(x, c) && Chosen(x, c) && Proposed(x, c, vc)
    requires Proposed(x, b, v) && Rank(c) <= Rank(b)
    ensures v == vc
    decreases |ProposalsBelow(x, b)|
  {
    RankOrder(b, c);
    if b != c {
      var a := InheritsFromAbove(x, c, b, v);
      FewerBelow(x, a, v, b);
      LaterProposalsAgree(x, c, vc, a, v);
    }
  }

  lemma FewerBelow(x: Synod, a: string, v: Value, b: string)
    requires Proposed(x, a, v) && Rank(a) < Rank(b)
    ensures |ProposalsBelow(x, a)| < |ProposalsBelow(x, b)|
  {
    Shrinks(ProposalsBelow(x, a), ProposalsBelow(x, b), Propose(x.k, a, v));
  }

  /** Validity: a proposal carries a value that was handed to Start for this instance. */
  lemma {:induction false} ProposalsAreStarted(x: Synod, b: string, v: Value)
    requires MessagesOk(x) && Proposed(x, b, v)
    ensures v in x.starts
    decreases |ProposalsBelow(x, b)|
  {
    var quorum, a :| Justifies(x, b, v, quorum, a);
    if a != "" {
      FewerBelow(x, a, v, b);
      ProposalsAreStarted(x, a, v);
    }
  }

  /** A chosen ballot has a smallest chosen ballot at or below it. */
  lemma {:induction false} SmallestChosen(x: Synod, b: string) returns (c: string)
    requires Inv(x) && Chosen(x, b)
    ensures Chosen(x, c) && NoneBelow(x, c) && Rank(c) <= Rank(b)
    decreases |ProposalsBelow(x, b)|
  {
    if NoneBelow(x, b) {
      c := b;
    } else {
      var d :| Rank(d) < Rank(b) && Chosen(x, d);
      var v := ChosenIsProposed(x, d);
      FewerBelow(x, d, v, b);
      c := SmallestChosen(x, d);
    }
  }

  lemma ChosenIsProposed(x: Synod, b: string) returns (v: Value)
    requires Inv(x) && Chosen(x, b)
    ensures Proposed(x, b, v)
  {
    HasMember(Voters(x, b));
    var q :| q in Voters(x, b);
    v :| Proposed(x, b, v);
  }

  /** Proposals at or above a chosen ballot all carry one value. */
  lemma Agreement(x: Synod, b: string, v: Value, b': string, v': Value)
    requires Inv(x)
    requires Proposed(x, b, v) && DecidedUpTo(x, b)
    requires Proposed(x, b', v') && DecidedUpTo(x, b')
    ensures v == v'
  {
    var d :| Chosen(x, d) && Rank(d) <= Rank(b);
    var d' :| Chosen(x, d') && Rank(d') <= Rank(b');
    var c := SmallestChosen(x, d);
    var c' := SmallestChosen(x, d');
    assert Rank(c) <= Rank(c') && Rank(c') <= Rank(c);
    RankOrder(c, c');
    var vc := ChosenIsProposed(x, c);
    assert BallotOk(x, c);
    LaterProposalsAgree(x, c, vc, b, v);
    LaterProposalsAgree(x, c, vc, b', v');
  }

  /** A decided acceptor holds a proposal at or above a chosen ballot. */
  lemma DecidedHolds(x: Synod, q: nat)
    requires Inv(x) && q < |x.acc| && x.acc[q].Some? && x.acc[q].value.state == Decided
    ensures Proposed(x, x.acc[q].value.na, x.acc[q].value.va) && DecidedUpTo(x, x.acc[q].value.na)
  {
    assert AcceptorOk(x, q);
    var d :| Chosen(x, d) && Rank(d) <= Rank(x.acc[q].value.na);
    var v := ChosenIsProposed(x, d);
  }
}
