/** What the protocol achieves when messages do get through: a proposer whose number is above all others
    decides, and instances that every peer is done with are forgotten. */
module PaxosProgress {
  import opened Collections
  import opened Lexicographic
  import opened PaxosPeer
  import opened PaxosSynod
  import opened PaxosProtocol

  ghost function Last(r: seq<System>): System
    requires r != []
  {
    r[|r| - 1]
  }

  // Peer i is the same in both states.
  ghost predicate SamePeer(s: System, s': System, i: nat) { i < |s.peers| && i < |s'.peers| && s'.peers[i] == s.peers[i] }

  /* ---- proposals come from attempts ---- */

  ghost predicate ProposalsAttempted(s: System) {
    forall m :: m in s.net && m.Propose? ==> (m.k, m.pnum) in s.attempts
  }

  lemma {:induction false} RunProposalsAttempted(r: seq<System>, i: nat)
    requires IsRun(r) && i < |r|
    ensures ProposalsAttempted(r[i])
  {
    if i > 0 {
      RunProposalsAttempted(r, i - 1);
      assert NextAt(r, i - 1);
      var a :| Enabled(r[i - 1], a) && r[i] == Apply(r[i - 1], a);
      StepProposalsAttempted(r[i - 1], a);
    }
  }

  lemma StepProposalsAttempted(s: System, a: Action)
    requires ProposalsAttempted(s) && Enabled(s, a)
    ensures ProposalsAttempted(Apply(s, a))
  {
    hide HandlePrepare, HandleAccept, HandleMin, HandleDone, HandleDecide, HandleOwnDecide, Highest, OkPeers;
  }

  /* ---- one round of asking ---- */

  // Peer q has promised b, with this reply, and holds to it.
  ghost predicate Promises(s: System, k: int, b: string, q: nat, reply: PrepareReply) {
    && q < |s.peers| && reply.err == OK && Promise(k, b, q, reply) in s.net
    && k in s.peers[q].instances && s.peers[q].instances[k].np == b
  }

  // The number peer q has accepted for k.
  function AcceptedNumber(p: Peer, k: int): string { if k in p.instances then p.instances[k].na else "" }

  ghost predicate Above(s: System, k: int, b: string, qs: set<nat>) {
    forall q :: q in qs ==> q < |s.peers| && (k in s.peers[q].instances ==> Less(s.peers[q].instances[k].np, b))
  }

  ghost predicate Replied(s: System, k: int, b: string, replies: seq<PrepareReply>) {
    |replies| == |s.peers| && forall i: nat :: i < |replies| ==> replies[i] == NO_PROMISE || Promises(s, k, b, i, replies[i])
  }

  // s' is s with more promises for b.
  ghost predicate MorePromises(s: System, s': System) {
    && |s'.peers| == |s.peers| && s'.calls == s.calls && s'.attempts == s.attempts
    && s.net <= s'.net && forall m :: m in s'.net ==> m in s.net || m.Promise?
  }

  // From s to s', the peers of qs alone have answered: each promises b and names what it had accepted.
  ghost predicate HaveAnswered(s: System, s': System, k: int, b: string, qs: set<nat>,
                               replies: seq<PrepareReply>, replies': seq<PrepareReply>) {
    && |replies'| == |replies| == |s.peers| && MorePromises(s, s') && Replied(s', k, b, replies')
    && (forall i: nat :: i < |replies'| && i !in qs ==> replies'[i] == replies[i] && SamePeer(s, s', i))
    && forall q :: q in qs ==> q < |replies'| && replies'[q].err == OK && replies'[q].acceptPnum == AcceptedNumber(s.peers[q], k)
  }

  lemma AskOne(r: seq<System>, k: int, b: string, q: nat, replies: seq<PrepareReply>)
      returns (r': seq<System>, replies': seq<PrepareReply>)
    requires IsRun(r) && Ask(k, b) in Last(r).net && Replied(Last(r), k, b, replies)
    requires Above(Last(r), k, b, {q}) && q < |replies| && replies[q] == NO_PROMISE
    ensures IsRun(r') && r <= r' && HaveAnswered(Last(r), Last(r'), k, b, {q}, replies, replies')
  {
    var s := Last(r);
    assert q in {q};
    r' := OneMore(r, OnAsk(q, k, b));
    replies' := replies[q := HandlePrepare(s.peers[q], k, b).1];
  }

  lemma StillAbove(s: System, s1: System, k: int, b: string, q: nat, qs: set<nat>)
    requires Above(s, k, b, qs) && |s1.peers| == |s.peers|
    requires forall i: nat :: i < |s.peers| && i !in {q} ==> SamePeer(s, s1, i)
    ensures Above(s1, k, b, qs - {q})
  {
    forall i | i in qs - {q} ensures i < |s1.peers| && (k in s1.peers[i].instances ==> Less(s1.peers[i].instances[k].np, b)) {
      assert SamePeer(s, s1, i);
    }
  }

  lemma AnsweredJoin(s: System, s1: System, s': System, k: int, b: string, q: nat, qs: set<nat>,
                     replies: seq<PrepareReply>, replies1: seq<PrepareReply>, replies': seq<PrepareReply>)
    requires HaveAnswered(s, s1, k, b, {q}, replies, replies1) && HaveAnswered(s1, s', k, b, qs, replies1, replies')
    requires q !in qs
    ensures HaveAnswered(s, s', k, b, qs + {q}, replies, replies')
  {
    forall i: nat | i < |replies'| && i !in qs + {q} ensures replies'[i] == replies[i] && SamePeer(s, s', i) {
      assert SamePeer(s, s1, i) && SamePeer(s1, s', i);
    }
    forall i | i in qs + {q} ensures i < |replies'| && replies'[i].err == OK && replies'[i].acceptPnum == AcceptedNumber(s.peers[i], k) {
      if i != q { assert SamePeer(s, s1, i); }
    }
  }

  /** Every peer of a set whose promises are all below b answers with a promise. */
  lemma {:induction false} AskAll(r: seq<System>, k: int, b: string, qs: set<nat>, replies: seq<PrepareReply>)
      returns (r': seq<System>, replies': seq<PrepareReply>)
    requires IsRun(r) && Ask(k, b) in Last(r).net && Replied(Last(r), k, b, replies)
    requires Above(Last(r), k, b, qs) && forall q :: q in qs ==> q < |replies| && replies[q] == NO_PROMISE
    ensures IsRun(r') && r <= r' && HaveAnswered(Last(r), Last(r'), k, b, qs, replies, replies')
    decreases |qs|
  {
    assert r != [];
    if qs == {} {
      r', replies' := r, replies;
    } else {
      hide IsRun, Replied;
      var q :| q in qs;
      assert Above(Last(r), k, b, {q}) by { assert {q} <= qs; }
      var r1, replies1 := AskOne(r, k, b, q, replies);
      StillAbove(Last(r), Last(r1), k, b, q, qs);
      r', replies' := AskAll(r1, k, b, qs - {q}, replies1);
      AnsweredJoin(Last(r), Last(r1), Last(r'), k, b, q, qs - {q}, replies, replies1, replies');
      assert qs - {q} + {q} == qs;
    }
  }

  /* ---- one round of voting ---- */

  ghost predicate Free(s: System, k: int, b: string, qs: set<nat>) {
    forall q :: q in qs ==> q < |s.peers| && (k in s.peers[q].instances ==> !Less(b, s.peers[q].instances[k].np))
  }

  ghost predicate AcksSent(s: System, k: int, b: string, acks: seq<Err>) {
    |acks| == |s.peers| && forall i: nat :: i < |acks| && acks[i] == OK ==> Vote(k, b, i, OK) in s.net
  }

  // s' is s with more votes; no table loses an entry, and nobody else proposes or decides.
  ghost predicate MoreVotes(s: System, s': System) {
    && |s'.peers| == |s.peers| && s'.calls == s.calls && s'.attempts == s.attempts && s.net <= s'.net
    && forall q: nat, k :: q < |s.peers| && k in s.peers[q].instances ==> k in s'.peers[q].instances
  }

  // From s to s', the peers of qs alone have been asked to accept, and all have voted.
  ghost predicate HaveVoted(s: System, s': System, k: int, b: string, qs: set<nat>, acks: seq<Err>, acks': seq<Err>) {
    && |acks'| == |acks| == |s.peers| && MoreVotes(s, s') && AcksSent(s', k, b, acks')
    && (forall i: nat :: i < |acks'| && i !in qs ==> acks'[i] == acks[i] && SamePeer(s, s', i))
    && forall q :: q in qs ==> q < |acks'| && acks'[q] == OK
  }

  lemma VoteOne(r: seq<System>, k: int, b: string, v: Value, q: nat, acks: seq<Err>) returns (r': seq<System>)
    requires IsRun(r) && Propose(k, b, v) in Last(r).net && AcksSent(Last(r), k, b, acks) && Free(Last(r), k, b, {q})
    ensures IsRun(r') && r <= r' && q < |acks| && HaveVoted(Last(r), Last(r'), k, b, {q}, acks, acks[q := OK])
  {
    assert q in {q};
    r' := OneMore(r, OnPropose(q, k, b, v));
  }

  lemma FreeRest(s: System, s1: System, k: int, b: string, q: nat, qs: set<nat>)
    requires Free(s, k, b, qs) && |s1.peers| == |s.peers|
    requires forall i: nat :: i < |s.peers| && i !in {q} ==> SamePeer(s, s1, i)
    ensures Free(s1, k, b, qs - {q})
  {
    forall i | i in qs - {q} ensures i < |s1.peers| && (k in s1.peers[i].instances ==> !Less(b, s1.peers[i].instances[k].np)) {
      assert SamePeer(s, s1, i);
    }
  }

  lemma VotedJoin(s: System, s1: System, s': System, k: int, b: string, q: nat, qs: set<nat>,
                  acks: seq<Err>, acks1: seq<Err>, acks': seq<Err>)
    requires HaveVoted(s, s1, k, b, {q}, acks, acks1) && HaveVoted(s1, s', k, b, qs, acks1, acks') && q !in qs
    ensures HaveVoted(s, s', k, b, qs + {q}, acks, acks')
  {
    forall i: nat | i < |acks'| && i !in qs + {q} ensures acks'[i] == acks[i] && SamePeer(s, s', i) {
      assert SamePeer(s, s1, i) && SamePeer(s1, s', i);
    }
  }

  /** Every peer of a set that has not promised more than b votes for it, whether it was asked or not. */
  lemma {:induction false} VoteAll(r: seq<System>, k: int, b: string, v: Value, qs: set<nat>, acks: seq<Err>)
      returns (r': seq<System>, acks': seq<Err>)
    requires IsRun(r) && Propose(k, b, v) in Last(r).net && AcksSent(Last(r), k, b, acks) && Free(Last(r), k, b, qs)
    ensures IsRun(r') && r <= r' && HaveVoted(Last(r), Last(r'), k, b, qs, acks, acks')
    decreases |qs|
  {
    assert r != [];
    if qs == {} {
      r', acks' := r, acks;
    } else {
      hide IsRun, AcksSent;
      var q :| q in qs;
      assert Free(Last(r), k, b, {q}) by { assert {q} <= qs; }
      var r1 := VoteOne(r, k, b, v, q, acks);
      FreeRest(Last(r), Last(r1), k, b, q, qs);
      r', acks' := VoteAll(r1, k, b, v, qs - {q}, acks[q := OK]);
      VotedJoin(Last(r), Last(r1), Last(r'), k, b, q, qs - {q}, acks, acks[q := OK], acks');
      assert qs - {q} + {q} == qs;
    }
  }

  /* ---- a whole attempt ---- */

  function Same<T>(n: nat, x: T): (s: seq<T>)
    ensures |s| == n && forall i :: 0 <= i < n ==> s[i] == x
  {
    seq(n, _ => x)
  }

  lemma GatherAll(r: seq<System>, k: int, b: string, asked: set<nat>, replies: seq<PrepareReply>) returns (r': seq<System>, w: Value)
    requires IsRun(r) && (k, b) in Last(r).attempts && Replied(Last(r), k, b, replies)
    requires forall v :: Propose(k, b, v) !in Last(r).net
    requires |asked| >= Majority(|Last(r).peers|) && forall q :: q in asked ==> q < |replies| && replies[q].err == OK
    ensures IsRun(r') && r <= r' && Propose(k, b, w) in Last(r').net
    ensures Last(r').peers == Last(r).peers && Last(r').attempts == Last(r).attempts
    ensures w == Highest(replies, Last(r).attempts[(k, b)].v).1
  {
    assert r != [];
    hide Highest, IsRun;
    var s := Last(r);
    w := Highest(replies, s.attempts[(k, b)].v).1;
    MoreOk(asked, Errs(replies));
    assert Enabled(s, Gather(k, b, replies));
    r' := OneMore(r, Gather(k, b, replies));
  }

  lemma MoreOk(qs: set<nat>, errs: seq<Err>)
    requires forall q :: q in qs ==> q < |errs| && errs[q] == OK
    ensures |OkPeers(errs)| >= |qs|
  {
    Below(qs, OkPeers(errs));
  }

  lemma Below(a: set<nat>, b: set<nat>)
    requires a <= b
    ensures |a| <= |b|
  {
    assert b == a + (b - a);
  }

  lemma DecideAndAnnounce(r: seq<System>, k: int, b: string, w: Value, voters: set<nat>, acks: seq<Err>) returns (r': seq<System>)
    requires IsRun(r) && (k, b) in Last(r).attempts && Propose(k, b, w) in Last(r).net
    requires AcksSent(Last(r), k, b, acks) && |voters| >= Majority(|Last(r).peers|)
    requires forall q :: q in voters ==> q < |acks| && acks[q] == OK
    requires var p := Last(r).attempts[(k, b)].proposer; p < |Last(r).peers| && k in Last(r).peers[p].instances
    ensures IsRun(r') && r <= r'
    ensures var s, p := Last(r'), Last(r).attempts[(k, b)].proposer;
            && p < |s.peers| && k in s.peers[p].instances && s.peers[p].instances[k] == Instance(Decided, b, b, w)
            && exists done :: Decision(k, b, w, p, done) in s.net
  {
    MoreOk(voters, acks);
    RunOk(r, |r| - 1, k);
    assert r != [];
    hide IsRun;
    var s, p := Last(r), Last(r).attempts[(k, b)].proposer;
    assert Acked(s, k, b, acks);
    var r1 := OneMore(r, DecideOwn(k, b, w, acks));
    var s1 := Last(r1);
    assert s1.peers[p].Valid() && s1.attempts == s.attempts && s1.net == s.net;
    r' := OneMore(r1, Announce(k, b, w, acks));
    assert Decision(k, b, w, p, s1.peers[p].dones[s1.peers[p].me]) in Last(r').net;
  }

  // Proposer p has opened ballot b of instance k with value v, and w is what it proposes.
  ghost predicate Proposing(s: System, p: nat, k: int, b: string, v: Value, w: Value) {
    && (k, b) in s.attempts && s.attempts[(k, b)] == Attempt(p, v) && Propose(k, b, w) in s.net
    && p < |s.peers| && k in s.peers[p].instances
  }

  lemma Open(r: seq<System>, p: nat, k: int, b: string, v: Value) returns (r': seq<System>)
    requires IsRun(r) && Called(p, k, v) in Last(r).calls && b != "" && (k, b) !in Last(r).attempts
    ensures IsRun(r') && r <= r' && Last(r').peers == Last(r).peers && Ask(k, b) in Last(r').net
    ensures (k, b) in Last(r').attempts && Last(r').attempts[(k, b)] == Attempt(p, v)
    ensures forall x :: Propose(k, b, x) !in Last(r').net
  {
    RunProposalsAttempted(r, |r| - 1);
    r' := OneMore(r, Try(p, k, b, v));
  }

  lemma OpenAndAsk(r: seq<System>, p: nat, k: int, b: string, v: Value, asked: set<nat>)
      returns (r': seq<System>, replies: seq<PrepareReply>)
    requires IsRun(r) && Called(p, k, v) in Last(r).calls && b != "" && (k, b) !in Last(r).attempts
    requires Above(Last(r), k, b, asked)
    ensures IsRun(r') && r <= r' && (k, b) in Last(r').attempts && Last(r').attempts[(k, b)] == Attempt(p, v)
    ensures forall x :: Propose(k, b, x) !in Last(r').net
    ensures |replies| == |Last(r').peers| == |Last(r).peers| && Replied(Last(r'), k, b, replies)
    ensures forall i: nat :: i < |replies| && i !in asked ==> replies[i] == NO_PROMISE && SamePeer(Last(r), Last(r'), i)
    ensures forall q :: q in asked ==>
              q < |replies| && replies[q].err == OK && replies[q].acceptPnum == AcceptedNumber(Last(r).peers[q], k)
  {
    var r1 := Open(r, p, k, b, v);
    assert r != [] && r1 != [];
    hide IsRun;
    r', replies := AskAll(r1, k, b, asked, Same(|Last(r).peers|, NO_PROMISE));
    forall i: nat | i < |replies| && i !in asked ensures SamePeer(Last(r), Last(r'), i) {
      assert SamePeer(Last(r1), Last(r'), i);
    }
  }

  /** The first half of an attempt: every peer of a majority below b is asked and promises, and the
      proposer makes its proposal. */
  lemma AskAndPropose(r: seq<System>, p: nat, k: int, b: string, v: Value, asked: set<nat>, voters: set<nat>)
      returns (r': seq<System>, w: Value)
    requires IsRun(r) && Called(p, k, v) in Last(r).calls && b != "" && (k, b) !in Last(r).attempts
    requires Above(Last(r), k, b, asked + voters) && p in asked && |asked| >= Majority(|Last(r).peers|)
    ensures IsRun(r') && r <= r' && |Last(r').peers| == |Last(r).peers|
    ensures Proposing(Last(r'), p, k, b, v, w) && Free(Last(r'), k, b, voters)
    ensures (forall q :: q in asked ==> AcceptedNumber(Last(r).peers[q], k) == "") ==> w == v
  {
    assert r != [];
    hide IsRun;
    var s := Last(r);
    assert Above(s, k, b, asked) by { assert asked <= asked + voters; }
    var r2, replies := OpenAndAsk(r, p, k, b, v, asked);
    var s2 := Last(r2);
    StillFree(s, s2, k, b, asked, voters, replies);
    assert Promises(s2, k, b, p, replies[p]);
    r', w := GatherAll(r2, k, b, asked, replies);
    if forall q :: q in asked ==> AcceptedNumber(s.peers[q], k) == "" {
      NothingAccepted(replies, v);
    }
  }

  /** A proposer whose number is above every promise of two majorities, and whose messages reach them, decides:
      the first is asked, and includes the proposer; the second votes, whether it was asked or not. The
      decided value is its own if none of the first has accepted anything. */
  lemma UndisturbedDecides(r: seq<System>, p: nat, k: int, b: string, v: Value, asked: set<nat>, voters: set<nat>)
      returns (r': seq<System>, w: Value)
    requires IsRun(r) && Called(p, k, v) in Last(r).calls && b != "" && (k, b) !in Last(r).attempts
    requires Above(Last(r), k, b, asked + voters) && p in asked
    requires |asked| >= Majority(|Last(r).peers|) && |voters| >= Majority(|Last(r).peers|)
    ensures IsRun(r') && r <= r' && p < |Last(r').peers| && k in Last(r').peers[p].instances
    ensures Last(r').peers[p].instances[k] == Instance(Decided, b, b, w)
    ensures exists done :: Decision(k, b, w, p, done) in Last(r').net
    ensures (forall q :: q in asked ==> AcceptedNumber(Last(r).peers[q], k) == "") ==> w == v
  {
    assert r != [];
    hide IsRun;
    var r3;
    r3, w := AskAndPropose(r, p, k, b, v, asked, voters);
    var r4, acks := VoteAll(r3, k, b, w, voters, Same(|Last(r).peers|, Reject));
    r' := DecideAndAnnounce(r4, k, b, w, voters, acks);
  }

  // Peers that were asked have promised b itself, and the others less.
  lemma StillFree(s: System, s3: System, k: int, b: string, asked: set<nat>, voters: set<nat>, replies: seq<PrepareReply>)
    requires Above(s, k, b, asked + voters) && |s3.peers| == |s.peers|
    requires Replied(s3, k, b, replies) && forall q :: q in asked ==> q < |replies| && replies[q].err == OK
    requires forall i: nat :: i < |s.peers| && i !in asked ==> SamePeer(s, s3, i)
    ensures Free(s3, k, b, voters)
  {
    RankOrder(b, b);
    forall q | q in voters ensures q < |s3.peers| && (k in s3.peers[q].instances ==> !Less(b, s3.peers[q].instances[k].np)) {
      assert q in asked + voters && (q !in asked ==> SamePeer(s, s3, q));
      if q !in asked && k in s.peers[q].instances {
        RankOrder(b, s.peers[q].instances[k].np);
        RankOrder(s.peers[q].instances[k].np, b);
      }
    }
  }

  lemma NothingAccepted(replies: seq<PrepareReply>, v: Value)
    requires forall i :: 0 <= i < |replies| && replies[i].err == OK ==> replies[i].acceptPnum == ""
    ensures Highest(replies, v).1 == v
  {
    HighestIsMaximum(replies, v);
  }

  /* ---- forgetting ---- */

  // Some announced decision of j says that it is done with t.
  ghost predicate Announced(s: System, j: nat, t: int) {
    exists m :: m in s.net && m.Decision? && m.sender == j && m.done >= t
  }

  // Peer q knows that the peers below n are done with t.
  ghost predicate Knows(s: System, q: nat, t: int, n: nat) {
    q < |s.peers| && n <= |s.peers[q].dones| && forall j :: 0 <= j < n ==> s.peers[q].dones[j] >= t
  }

  lemma HearOne(r: seq<System>, q: nat, m: Msg, t: int, n: nat) returns (r': seq<System>)
    requires IsRun(r) && q < |Last(r).peers| && m in Last(r).net && m.Decision? && m.sender == n != q && m.done >= t
    requires n < |Last(r).peers| && Knows(Last(r), q, t, n) && OwnDone(Last(r).peers[q]) >= t
    ensures IsRun(r') && r <= r' && |Last(r').peers| == |Last(r).peers| && Last(r).net <= Last(r').net
    ensures Knows(Last(r'), q, t, n + 1) && OwnDone(Last(r').peers[q]) >= t
  {
    RunOk(r, |r| - 1, 0);
    assert DonesOk(Last(r).peers);
    r' := OneMore(r, OnDecision(q, m));
  }

  lemma {:induction false} HearAll(r: seq<System>, q: nat, t: int, n: nat) returns (r': seq<System>)
    requires IsRun(r) && q < |Last(r).peers| && n <= |Last(r).peers| && OwnDone(Last(r).peers[q]) >= t
    requires forall j: nat {:trigger Announced(Last(r), j, t)} :: j < n && j != q ==> Announced(Last(r), j, t)
    ensures IsRun(r') && r <= r' && |Last(r').peers| == |Last(r).peers| && Last(r).net <= Last(r').net
    ensures Knows(Last(r'), q, t, n) && OwnDone(Last(r').peers[q]) >= t
    decreases n
  {
    assert r != [];
    if n == 0 {
      r' := r;
    } else {
      r' := HearAll(r, q, t, n - 1);
      if n - 1 != q {
        assert Announced(Last(r), n - 1, t);
        var m :| m in Last(r).net && m.Decision? && m.sender == n - 1 && m.done >= t;
        r' := HearOne(r', q, m, t, n - 1);
      } else {
        KnowsItself(r', q, t);
      }
    }
  }

  lemma KnowsItself(r: seq<System>, q: nat, t: int)
    requires IsRun(r) && Knows(Last(r), q, t, q) && OwnDone(Last(r).peers[q]) >= t
    ensures Knows(Last(r), q, t, q + 1)
  {
    RunOk(r, |r| - 1, 0);
    assert DonesOk(Last(r).peers);
  }

  // Peer q holds no decided instance up to t, and says so.
  ghost predicate Freed(s: System, q: nat, t: int, k: int) {
    && q < |s.peers| && !DecidedAt(s, q, k)
    && forall fate, v :: StatusAnswers(s.peers[q], k, fate, v) ==> fate == Forgotten
  }

  /** Once every peer has announced that it is done with t, a peer that hears them forgets: Min() frees the
      decided instances up to t, and Status says Forgotten for all of them. */
  lemma MemoryIsFreed(r: seq<System>, q: nat, t: int) returns (r': seq<System>)
    requires IsRun(r) && q < |Last(r).peers| && OwnDone(Last(r).peers[q]) >= t
    requires forall j: nat {:trigger Announced(Last(r), j, t)} :: j < |Last(r).peers| && j != q ==> Announced(Last(r), j, t)
    ensures IsRun(r') && r <= r' && forall k :: k <= t ==> Freed(Last(r'), q, t, k)
  {
    var r1 := HearAll(r, q, t, |Last(r).peers|);
    RunOk(r1, |r1| - 1, 0);
    var s := Last(r1);
    assert DonesOk(s.peers) && Enabled(s, Forget(q));
    r' := OneMore(r1, Forget(q));
    ForgetFrees(s, q, t);
  }

  lemma ForgetFrees(s: System, q: nat, t: int)
    requires Enabled(s, Forget(q)) && Knows(s, q, t, |s.peers[q].dones|)
    ensures forall k :: k <= t ==> Freed(Apply(s, Forget(q)), q, t, k)
  {
    assert Least(s.peers[q].dones) >= t;
  }
}
