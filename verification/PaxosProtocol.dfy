/** The whole system: peers with their tables, every message ever sent, and all attempts. Each
    instance above the least Done value refines `PaxosSynod`. */
module PaxosProtocol {
  import opened Collections
  import opened Lexicographic
  import opened PaxosPeer
  import opened PaxosSynod

  // One pass of the proposer loop, known by its instance and its ballot.
  datatype Attempt = Attempt(proposer: nat, v: Value)

  // A call of Start that Min() did not turn away: its proposer may make attempts from then on.
  datatype Called = Called(p: nat, k: int, v: Value)

  datatype System =
    System(peers: seq<Peer>, calls: set<Called>, attempts: map<(int, string), Attempt>, net: set<Msg>)

  datatype Action =
    | Start(p: nat, k: int, v: Value)
    | Try(p: nat, k: int, b: string, v: Value)
    | OnAsk(q: nat, k: int, b: string)
    | Gather(k: int, b: string, replies: seq<PrepareReply>)
    | OnPropose(q: nat, k: int, b: string, v: Value)
    | DecideOwn(k: int, b: string, v: Value, acks: seq<Err>)
    | Announce(k: int, b: string, v: Value, acks: seq<Err>)
    | OnDecision(q: nat, m: Msg)
    | MarkDone(p: nat, upto: int)
    | Forget(p: nat)

  ghost predicate Init(s: System) {
    && |s.peers| > 0
    && (forall i :: 0 <= i < |s.peers| ==> s.peers[i] == Peer(i, seq(|s.peers|, j => -1), map[]))
    && s.calls == {} && s.attempts == map[] && s.net == {}
  }

  // A majority of OK replies to the Accept of ballot b, each really sent.
  ghost predicate Acked(s: System, k: int, b: string, acks: seq<Err>) {
    && |acks| == |s.peers|
    && (forall i :: 0 <= i < |acks| && acks[i] == OK ==> Vote(k, b, i, OK) in s.net)
    && |OkPeers(acks)| >= Majority(|s.peers|)
  }

  ghost predicate Enabled(s: System, a: Action) {
    match a
    case Start(p, k, v) => p < |s.peers| && s.peers[p].Valid()
    case Try(p, k, b, v) => Called(p, k, v) in s.calls && b != "" && (k, b) !in s.attempts
    case OnAsk(q, k, b) => q < |s.peers| && Ask(k, b) in s.net
    case Gather(k, b, replies) =>
      && (k, b) in s.attempts && (forall v :: Propose(k, b, v) !in s.net)
      && |replies| == |s.peers|
      && (forall i :: 0 <= i < |replies| ==> replies[i] == NO_PROMISE || Promise(k, b, i, replies[i]) in s.net)
      && |OkPeers(Errs(replies))| >= Majority(|s.peers|)
    case OnPropose(q, k, b, v) => q < |s.peers| && Propose(k, b, v) in s.net
    case DecideOwn(k, b, v, acks) =>
      && (k, b) in s.attempts && Propose(k, b, v) in s.net && Acked(s, k, b, acks)
      && s.attempts[(k, b)].proposer < |s.peers| && k in s.peers[s.attempts[(k, b)].proposer].instances
    case Announce(k, b, v, acks) =>
      && (k, b) in s.attempts && Propose(k, b, v) in s.net && Acked(s, k, b, acks)
      && s.attempts[(k, b)].proposer < |s.peers|
      && var p := s.attempts[(k, b)].proposer; s.peers[p].Valid()
    case OnDecision(q, m) =>
      q < |s.peers| && m in s.net && m.Decision? && m.sender != q && m.sender < |s.peers[q].dones|
    case MarkDone(p, upto) => p < |s.peers| && s.peers[p].Valid()
    case Forget(p) => p < |s.peers| && s.peers[p].Valid()
  }

  ghost function Apply(s: System, a: Action): System
    requires Enabled(s, a)
  {
    match a
    case Start(p, k, v) =>
      var (p', min) := HandleMin(s.peers[p]);
      s.(peers := s.peers[p := p'], calls := if k < min then s.calls else s.calls + {Called(p, k, v)})
    case Try(p, k, b, v) =>
      s.(attempts := s.attempts[(k, b) := Attempt(p, v)], net := s.net + {Ask(k, b)})
    case OnAsk(q, k, b) =>
      var (p', reply) := HandlePrepare(s.peers[q], k, b);
      s.(peers := s.peers[q := p'], net := s.net + {Promise(k, b, q, reply)})
    case Gather(k, b, replies) =>
      s.(net := s.net + {Propose(k, b, Highest(replies, s.attempts[(k, b)].v).1)})
    case OnPropose(q, k, b, v) =>
      var (p', err) := HandleAccept(s.peers[q], k, b, v);
      s.(peers := s.peers[q := p'], net := s.net + {Vote(k, b, q, err)})
    case DecideOwn(k, b, v, acks) =>
      var p := s.attempts[(k, b)].proposer;
      s.(peers := s.peers[p := HandleOwnDecide(s.peers[p], k, b, v)])
    case Announce(k, b, v, acks) =>
      var p := s.attempts[(k, b)].proposer;
      s.(net := s.net + {Decision(k, b, v, p, s.peers[p].dones[s.peers[p].me])})
    case OnDecision(q, m) =>
      s.(peers := s.peers[q := HandleDecide(s.peers[q], m.k, m.pnum, m.v, m.sender, m.done)])
    case MarkDone(p, upto) => s.(peers := s.peers[p := HandleDone(s.peers[p], upto)])
    case Forget(p) => s.(peers := s.peers[p := HandleMin(s.peers[p]).0])
  }

  ghost predicate Next(s: System, s': System) {
    exists a :: Enabled(s, a) && s' == Apply(s, a)
  }

  ghost predicate NextAt(r: seq<System>, i: nat)
    requires i + 1 < |r|
  {
    Next(r[i], r[i + 1])
  }

  ghost predicate IsRun(r: seq<System>) {
    && |r| > 0 && Init(r[0])
    && forall i: nat :: i + 1 < |r| ==> NextAt(r, i)
  }

  lemma OneMore(r: seq<System>, a: Action) returns (r': seq<System>)
    requires IsRun(r) && Enabled(r[|r| - 1], a)
    ensures IsRun(r') && |r'| == |r| + 1 && r'[..|r|] == r && r'[|r|] == Apply(r[|r| - 1], a)
  {
    r' := r + [Apply(r[|r| - 1], a)];
    forall i: nat | i + 1 < |r'|
      ensures NextAt(r', i)
    {
      assert i + 1 < |r| ==> NextAt(r, i);
    }
  }

  /* ---- bookkeeping that holds for every instance ---- */

  // A peer's view of another's Done value never runs ahead of the truth.
  ghost predicate DonesOk(peers: seq<Peer>) {
    && (forall i :: 0 <= i < |peers| ==> peers[i].me == i && |peers[i].dones| == |peers|)
    && (forall p, i :: 0 <= p < |peers| && 0 <= i < |peers| ==> peers[p].dones[i] <= peers[i].dones[i])
  }

  ghost predicate MessagesFit(s: System) {
    && (forall key :: key in s.attempts ==>
          key.1 != "" && Called(s.attempts[key].proposer, key.0, s.attempts[key].v) in s.calls)
    && (forall m :: m in s.net && m.Ask? ==> m.pnum != "")
    && (forall m :: m in s.net && m.Decision? ==>
          m.sender < |s.peers| && m.done <= OwnDone(s.peers[m.sender]))
  }

  ghost predicate Bookkeeping(s: System) {
    |s.peers| > 0 && DonesOk(s.peers) && MessagesFit(s)
  }

  function OwnDone(p: Peer): int { if p.me < |p.dones| then p.dones[p.me] else -1 }

  ghost function OwnDones(s: System): (d: seq<int>)
    ensures |d| == |s.peers| && forall i :: 0 <= i < |d| ==> d[i] == OwnDone(s.peers[i])
  {
    seq(|s.peers|, i requires 0 <= i < |s.peers| => OwnDone(s.peers[i]))
  }

  // The least, over all peers, of the greatest number that peer has passed to Done.
  ghost function TrueMin(s: System): int {
    if s.peers == [] then -1 else Least(OwnDones(s))
  }

  // What may replace peer q: its own entry does not fall, and the rest stays below the truth.
  ghost predicate MayReplace(peers: seq<Peer>, q: nat, p': Peer) {
    && q < |peers| && p'.me == q && |p'.dones| == |peers|
    && OwnDone(p') >= OwnDone(peers[q])
    && forall i :: 0 <= i < |peers| && i != q ==> p'.dones[i] <= OwnDone(peers[i])
  }

  lemma Replaced(peers: seq<Peer>, q: nat, p': Peer)
    requires DonesOk(peers) && MayReplace(peers, q, p')
    ensures DonesOk(peers[q := p'])
    ensures forall i :: 0 <= i < |peers| ==> OwnDone(peers[i]) <= OwnDone(peers[q := p'][i])
  {
  }

  // A step that leaves one peer's Done entries as they are.
  lemma SameDones(peers: seq<Peer>, q: nat, p': Peer)
    requires DonesOk(peers) && q < |peers| && p'.me == peers[q].me && p'.dones == peers[q].dones
    ensures DonesGrow(peers, peers[q := p'])
  {
    Replaced(peers, q, p');
  }

  // No Done value is forgotten.
  ghost predicate DonesGrow(peers: seq<Peer>, peers': seq<Peer>) {
    |peers'| == |peers| && DonesOk(peers') && forall i :: 0 <= i < |peers| ==> OwnDone(peers[i]) <= OwnDone(peers'[i])
  }

  lemma NoDones(peers: seq<Peer>)
    requires DonesOk(peers)
    ensures DonesGrow(peers, peers)
  {
  }

  lemma OneDoneMore(s: System, a: Action)
    requires Bookkeeping(s) && Enabled(s, a) && (a.OnDecision? || a.MarkDone?)
    ensures DonesGrow(s.peers, Apply(s, a).peers)
  {
    hide HandleMin, OnPrepare, OnAccept, Acked;
    var s' := Apply(s, a);
    match a
    case OnDecision(q, m) => Replaced(s.peers, q, s'.peers[q]);
    case MarkDone(p, upto) => Replaced(s.peers, p, s'.peers[p]);
  }

  lemma DonesKept(s: System, a: Action)
    requires Bookkeeping(s) && Enabled(s, a)
    ensures DonesGrow(s.peers, Apply(s, a).peers)
  {
    if a.OnDecision? || a.MarkDone? {
      OneDoneMore(s, a);
    } else {
      hide DonesOk, MessagesFit, OwnDone, DonesGrow, OnPrepare, OnAccept, Acked, Collected;
      var s' := Apply(s, a);
      match a
      case Start(p, k, v) => SameDones(s.peers, p, s'.peers[p]);
      case OnAsk(q, k, b) => SameDones(s.peers, q, s'.peers[q]);
      case OnPropose(q, k, b, v) => SameDones(s.peers, q, s'.peers[q]);
      case DecideOwn(k, b, v, acks) =>
        var p := s.attempts[(k, b)].proposer;
        SameDones(s.peers, p, s'.peers[p]);
      case Forget(p) => SameDones(s.peers, p, s'.peers[p]);
      case Try(_, _, _, _) => NoDones(s.peers);
      case Gather(_, _, _) => NoDones(s.peers);
      case Announce(_, _, _, _) => NoDones(s.peers);
      case _ =>
    }
  }

  lemma BookkeepingKept(s: System, a: Action)
    requires Bookkeeping(s) && Enabled(s, a)
    ensures Bookkeeping(Apply(s, a))
    ensures TrueMin(s) <= TrueMin(Apply(s, a))
  {
    DonesKept(s, a);
    LeastGrows(OwnDones(s), OwnDones(Apply(s, a)));
    MessagesFitKept(s, a);
  }

  lemma MessagesFitKept(s: System, a: Action)
    requires Bookkeeping(s) && Enabled(s, a) && DonesGrow(s.peers, Apply(s, a).peers)
    ensures MessagesFit(Apply(s, a))
  {
    hide Acked, HandleMin, HandlePrepare, HandleAccept, HandleDecide, HandleOwnDecide, HandleDone, OkPeers, Highest;
    var s' := Apply(s, a);
    forall m | m in s'.net && m.Decision?
      ensures m.sender < |s.peers| && m.done <= OwnDone(s'.peers[m.sender])
    {
      assert m in s.net || a.Announce?;
    }
  }

  lemma LeastGrows(d: seq<int>, d': seq<int>)
    requires |d| == |d'| > 0 && forall i :: 0 <= i < |d| ==> d[i] <= d'[i]
    ensures Least(d) <= Least(d')
  {
  }

  /* ---- one instance ---- */

  ghost function About(net: set<Msg>, k: int): set<Msg> {
    set m | m in net && m.k == k
  }

  ghost function Started(s: System, k: int): set<Value> {
    set key | key in s.attempts && key.0 == k :: s.attempts[key].v
  }

  ghost function View(s: System, k: int): (x: Synod)
    ensures |x.acc| == |s.peers| && forall i :: 0 <= i < |s.peers| ==> x.acc[i] == Find(s.peers[i], k)
  {
    Synod(k, seq(|s.peers|, i requires 0 <= i < |s.peers| => Find(s.peers[i], k)), About(s.net, k), Started(s, k))
  }

  lemma AboutGrows(net: set<Msg>, m: Msg, k: int)
    ensures About(net + {m}, k) == if m.k == k then About(net, k) + {m} else About(net, k)
  {
  }

  lemma AckedIsChosen(s: System, k: int, b: string, acks: seq<Err>)
    requires Acked(s, k, b, acks)
    ensures Chosen(View(s, k), b)
  {
    var x := View(s, k);
    forall q | q in OkPeers(acks)
      ensures q in Voters(x, b)
    {
      assert Voted(x, q, b);
    }
    Fits(OkPeers(acks), Voters(x, b));
  }

  ghost predicate DecidedAt(s: System, q: nat, k: int)
    requires q < |s.peers|
  {
    k in s.peers[q].instances && s.peers[q].instances[k].state == Decided
  }

  // What a step preserves of instance k.
  ghost predicate Kept(s: System, s': System, k: int) {
    && |s'.peers| == |s.peers|
    && Inv(View(s', k))
    && View(s, k).net <= View(s', k).net
    && forall q: nat :: q < |s.peers| && DecidedAt(s, q, k) ==> DecidedAt(s', q, k)
  }

  lemma ViewOfOne(s: System, q: nat, p: Peer, net: set<Msg>, k: int)
    requires q < |s.peers|
    ensures View(s.(peers := s.peers[q := p], net := net), k).acc == View(s, k).acc[q := Find(p, k)]
  {
  }

  lemma OnAskKeeps(s: System, q: nat, k0: int, b: string, k: int)
    requires Bookkeeping(s) && Enabled(s, OnAsk(q, k0, b)) && Inv(View(s, k))
    ensures Kept(s, Apply(s, OnAsk(q, k0, b)), k)
  {
    var s' := Apply(s, OnAsk(q, k0, b));
    var (p', reply) := HandlePrepare(s.peers[q], k0, b);
    var x, x' := View(s, k), View(s', k);
    AboutGrows(s.net, Promise(k0, b, q, reply), k);
    ViewOfOne(s, q, p', s'.net, k);
    if k0 == k {
      PrepareKeeps(x, x', q, b);
    } else {
      assert x' == x;
    }
  }

  lemma GatherKeeps(s: System, k0: int, b: string, replies: seq<PrepareReply>, k: int)
    requires Bookkeeping(s) && Enabled(s, Gather(k0, b, replies)) && Inv(View(s, k))
    ensures Kept(s, Apply(s, Gather(k0, b, replies)), k)
  {
    var s' := Apply(s, Gather(k0, b, replies));
    var own := s.attempts[(k0, b)].v;
    var x, x' := View(s, k), View(s', k);
    AboutGrows(s.net, Propose(k0, b, Highest(replies, own).1), k);
    assert x'.acc == x.acc;
    if k0 == k {
      assert RepliesSent(x, b, replies);
      ProposeKeeps(x, x', b, replies, own);
    } else {
      assert x' == x;
    }
  }

  lemma OnProposeKeeps(s: System, q: nat, k0: int, b: string, v: Value, k: int)
    requires Bookkeeping(s) && Enabled(s, OnPropose(q, k0, b, v)) && Inv(View(s, k))
    ensures Kept(s, Apply(s, OnPropose(q, k0, b, v)), k)
  {
    var s' := Apply(s, OnPropose(q, k0, b, v));
    var (p', err) := HandleAccept(s.peers[q], k0, b, v);
    var x, x' := View(s, k), View(s', k);
    AboutGrows(s.net, Vote(k0, b, q, err), k);
    ViewOfOne(s, q, p', s'.net, k);
    if k0 == k {
      AcceptKeeps(x, x', q, b, v);
    } else {
      assert x' == x;
    }
  }

  // Both ways of recording a decision: by the proposer itself, and on receipt.
  lemma RecordKeeps(s: System, s': System, q: nat, p': Peer, k0: int, b: string, v: Value, k: int)
    requires q < |s.peers| && s' == s.(peers := s.peers[q := p'])
    requires p'.instances == s.peers[q].instances[k0 := Instance(Decided, b, b, v)]
    requires Inv(View(s, k))
    requires k0 == k ==> Proposed(View(s, k), b, v) && Chosen(View(s, k), b)
    ensures Kept(s, s', k)
  {
    var x, x' := View(s, k), View(s', k);
    ViewOfOne(s, q, p', s.net, k);
    if k0 == k {
      DecideKeeps(x, x', q, b, v);
    } else {
      assert x' == x;
    }
  }

  // A step that leaves the tables at k alone and says only what is harmless.
  lemma SayKeeps(s: System, s': System, m: Msg, k: int)
    requires s'.peers == s.peers && s'.net == s.net + {m} && Inv(View(s, k))
    requires Started(s, k) <= Started(s', k)
    requires m.Ask? || (m.Decision? && (m.k == k ==> Proposed(View(s, k), m.pnum, m.v) && Chosen(View(s, k), m.pnum)))
    ensures Kept(s, s', k)
  {
    var x, x' := View(s, k), View(s', k);
    AboutGrows(s.net, m, k);
    assert x'.acc == x.acc;
    TalkKeeps(x, x');
  }

  lemma ForgetKeeps(s: System, p: nat, k: int)
    requires Bookkeeping(s) && p < |s.peers| && k > TrueMin(s) && Inv(View(s, k))
    ensures Kept(s, s.(peers := s.peers[p := HandleMin(s.peers[p]).0]), k)
  {
    var p' := HandleMin(s.peers[p]).0;
    BelowTrueMin(s, p);
    ViewOfOne(s, p, p', s.net, k);
    assert View(s.(peers := s.peers[p := p']), k) == View(s, k);
  }

  // Start looks at Min() first, which collects the table.
  lemma StartKeeps(s: System, p: nat, k0: int, v: Value, k: int)
    requires Bookkeeping(s) && Enabled(s, Start(p, k0, v)) && k > TrueMin(s) && Inv(View(s, k))
    ensures Kept(s, Apply(s, Start(p, k0, v)), k)
  {
    var s' := Apply(s, Start(p, k0, v));
    ForgetKeeps(s, p, k);
    assert View(s', k) == View(s'.(calls := s.calls), k);
  }

  lemma BelowTrueMin(s: System, p: nat)
    requires Bookkeeping(s) && p < |s.peers|
    ensures Least(s.peers[p].dones) <= TrueMin(s)
  {
    var i :| 0 <= i < |s.peers| && OwnDones(s)[i] == TrueMin(s);
    assert Least(s.peers[p].dones) <= s.peers[p].dones[i] <= s.peers[i].dones[i];
  }

  lemma TryKeeps(s: System, p: nat, k0: int, b: string, v: Value, k: int)
    requires Bookkeeping(s) && Enabled(s, Try(p, k0, b, v)) && k > TrueMin(s) && Inv(View(s, k))
    ensures Kept(s, Apply(s, Try(p, k0, b, v)), k)
  {
    var s' := Apply(s, Try(p, k0, b, v));
    assert forall key :: key in s.attempts ==> key in s'.attempts && s'.attempts[key] == s.attempts[key];
    SayKeeps(s, s', Ask(k0, b), k);
  }

  lemma DecideOwnKeeps(s: System, k0: int, b: string, v: Value, acks: seq<Err>, k: int)
    requires Bookkeeping(s) && Enabled(s, DecideOwn(k0, b, v, acks)) && k > TrueMin(s) && Inv(View(s, k))
    ensures Kept(s, Apply(s, DecideOwn(k0, b, v, acks)), k)
  {
    var s', p := Apply(s, DecideOwn(k0, b, v, acks)), s.attempts[(k0, b)].proposer;
    AckedIsChosen(s, k0, b, acks);
    RecordKeeps(s, s', p, s'.peers[p], k0, b, v, k);
  }

  lemma AnnounceKeeps(s: System, k0: int, b: string, v: Value, acks: seq<Err>, k: int)
    requires Bookkeeping(s) && Enabled(s, Announce(k0, b, v, acks)) && k > TrueMin(s) && Inv(View(s, k))
    ensures Kept(s, Apply(s, Announce(k0, b, v, acks)), k)
  {
    var s', p := Apply(s, Announce(k0, b, v, acks)), s.attempts[(k0, b)].proposer;
    AckedIsChosen(s, k0, b, acks);
    SayKeeps(s, s', Decision(k0, b, v, p, s.peers[p].dones[s.peers[p].me]), k);
  }

  lemma OnDecisionKeeps(s: System, q: nat, m: Msg, k: int)
    requires Bookkeeping(s) && Enabled(s, OnDecision(q, m)) && k > TrueMin(s) && Inv(View(s, k))
    ensures Kept(s, Apply(s, OnDecision(q, m)), k)
  {
    var s' := Apply(s, OnDecision(q, m));
    assert m.k == k ==> Decision(k, m.pnum, m.v, m.sender, m.done) in View(s, k).net;
    RecordKeeps(s, s', q, s'.peers[q], m.k, m.pnum, m.v, k);
  }

  lemma MarkDoneKeeps(s: System, p: nat, upto: int, k: int)
    requires Bookkeeping(s) && Enabled(s, MarkDone(p, upto)) && k > TrueMin(s) && Inv(View(s, k))
    ensures Kept(s, Apply(s, MarkDone(p, upto)), k)
  {
    var s' := Apply(s, MarkDone(p, upto));
    ViewOfOne(s, p, s'.peers[p], s.net, k);
    assert View(s', k) == View(s, k);
  }

  /** Above the least Done value, a step of the system is a step of the instance, or leaves it alone. */
  lemma StepRefines(s: System, a: Action, k: int)
    requires Bookkeeping(s) && Enabled(s, a) && k > TrueMin(s) && Inv(View(s, k))
    ensures Kept(s, Apply(s, a), k)
  {
    if a.Forget? {
      ForgetKeeps(s, a.p, k);
    } else {
      hide Enabled, Apply, Kept, Inv, Bookkeeping, TrueMin, View;
      match a
      case Start(p, k0, v) => StartKeeps(s, p, k0, v, k);
      case Try(p, k0, b, v) => TryKeeps(s, p, k0, b, v, k);
      case OnAsk(q, k0, b) => OnAskKeeps(s, q, k0, b, k);
      case Gather(k0, b, replies) => GatherKeeps(s, k0, b, replies, k);
      case OnPropose(q, k0, b, v) => OnProposeKeeps(s, q, k0, b, v, k);
      case DecideOwn(k0, b, v, acks) => DecideOwnKeeps(s, k0, b, v, acks, k);
      case Announce(k0, b, v, acks) => AnnounceKeeps(s, k0, b, v, acks, k);
      case OnDecision(q, m) => OnDecisionKeeps(s, q, m, k);
      case MarkDone(p, upto) => MarkDoneKeeps(s, p, upto, k);
      case Forget(_) =>
    }
  }

  /* ---- whole runs ---- */

  lemma InitOk(s: System, k: int)
    requires Init(s)
    ensures Bookkeeping(s) && Inv(View(s, k))
  {
    var x := View(s, k);
    assert x.net == {};
    assert forall q: nat, b :: !Voted(x, q, b);
    assert forall b :: Voters(x, b) == {};
  }

  lemma NextKeeps(s: System, s': System, k: int)
    requires Bookkeeping(s) && Next(s, s')
    ensures Bookkeeping(s') && TrueMin(s) <= TrueMin(s')
    ensures s.net <= s'.net
    ensures k > TrueMin(s) && Inv(View(s, k)) ==> Kept(s, s', k)
  {
    var a :| Enabled(s, a) && s' == Apply(s, a);
    BookkeepingKept(s, a);
    if k > TrueMin(s) && Inv(View(s, k)) { StepRefines(s, a, k); }
  }

  lemma {:induction false} RunOk(r: seq<System>, i: nat, k: int)
    requires IsRun(r) && i < |r|
    ensures Bookkeeping(r[i])
    ensures k > TrueMin(r[i]) ==> Inv(View(r[i], k))
  {
    if i == 0 {
      InitOk(r[0], k);
    } else {
      RunOk(r, i - 1, k);
      assert NextAt(r, i - 1);
      NextKeeps(r[i - 1], r[i], k);
    }
  }

  /** Agreement. In every run, above the least Done value, no two decisions about an instance
      carry different values. */
  lemma DecisionsAgree(r: seq<System>, i: nat, m: Msg, m': Msg)
    requires IsRun(r) && i < |r|
    requires m in r[i].net && m' in r[i].net && m.Decision? && m'.Decision? && m.k == m'.k
    requires m.k > TrueMin(r[i])
    ensures m.v == m'.v
  {
    RunOk(r, i, m.k);
    var x := View(r[i], m.k);
    assert Decision(x.k, m.pnum, m.v, m.sender, m.done) in x.net;
    assert Decision(x.k, m'.pnum, m'.v, m'.sender, m'.done) in x.net;
    Agreement(x, m.pnum, m.v, m'.pnum, m'.v);
  }

  /** Validity. A decision carries a value that some peer was asked to Start for that instance, at a time
      when the instance was not below its minimum. */
  lemma DecisionsAreStarted(r: seq<System>, i: nat, m: Msg)
    requires IsRun(r) && i < |r|
    requires m in r[i].net && m.Decision? && m.k > TrueMin(r[i])
    ensures exists p :: Called(p, m.k, m.v) in r[i].calls
  {
    RunOk(r, i, m.k);
    var x := View(r[i], m.k);
    assert Decision(x.k, m.pnum, m.v, m.sender, m.done) in x.net;
    ProposalsAreStarted(x, m.pnum, m.v);
    var key :| key in r[i].attempts && key.0 == m.k && r[i].attempts[key].v == m.v;
    assert Called(r[i].attempts[key].proposer, m.k, m.v) in r[i].calls;
  }

  /** Any two peers that show an instance as decided show the same value. */
  lemma DecidedPeersAgree(r: seq<System>, i: nat, k: int, p: nat, q: nat)
    requires IsRun(r) && i < |r| && p < |r[i].peers| && q < |r[i].peers|
    requires k > TrueMin(r[i])
    requires DecidedAt(r[i], p, k) && DecidedAt(r[i], q, k)
    ensures r[i].peers[p].instances[k].va == r[i].peers[q].instances[k].va
  {
    RunOk(r, i, k);
    var x := View(r[i], k);
    DecidedHolds(x, p);
    DecidedHolds(x, q);
    Agreement(x, x.acc[p].value.na, x.acc[p].value.va, x.acc[q].value.na, x.acc[q].value.va);
  }

  lemma MinStep(r: seq<System>, j: nat)
    requires IsRun(r) && j + 1 < |r|
    ensures TrueMin(r[j]) <= TrueMin(r[j + 1])
  {
    RunOk(r, j, 0);
    assert NextAt(r, j);
    NextKeeps(r[j], r[j + 1], 0);
  }

  lemma {:induction false} MinGrows(r: seq<System>, i: nat, j: nat)
    requires IsRun(r) && i <= j < |r|
    ensures TrueMin(r[i]) <= TrueMin(r[j])
  {
    if i < j {
      MinGrows(r, i, j - 1);
      MinStep(r, j - 1);
    }
  }

  // Peer p has decided k in both states, and nothing said about k is lost.
  ghost predicate Persists(s: System, s': System, p: nat, k: int) {
    && |s.peers| == |s'.peers| && p < |s.peers|
    && DecidedAt(s, p, k) && DecidedAt(s', p, k)
    && s.net <= s'.net
  }

  lemma {:induction false} StillDecided(r: seq<System>, i: nat, j: nat, p: nat, k: int)
    requires IsRun(r) && i <= j < |r| && p < |r[i].peers| && DecidedAt(r[i], p, k)
    requires k > TrueMin(r[j])
    ensures Persists(r[i], r[j], p, k)
  {
    if i < j {
      MinStep(r, j - 1);
      StillDecided(r, i, j - 1, p, k);
      PersistsOneStep(r, j - 1, p, k);
    }
  }

  lemma PersistsOneStep(r: seq<System>, j: nat, p: nat, k: int)
    requires IsRun(r) && j + 1 < |r| && p < |r[j].peers| && DecidedAt(r[j], p, k) && k > TrueMin(r[j])
    ensures Persists(r[j], r[j + 1], p, k)
  {
    RunOk(r, j, k);
    assert NextAt(r, j);
    NextKeeps(r[j], r[j + 1], k);
  }

  /* ---- what Status tells ---- */

  lemma StoredKept(s: System, a: Action, p: nat)
    requires Enabled(s, a) && p < |s.peers| && |Apply(s, a).peers| == |s.peers| && Stored(s.peers[p].instances)
    ensures Stored(Apply(s, a).peers[p].instances)
  {
  }

  lemma {:induction false} AllStored(r: seq<System>, i: nat, p: nat)
    requires IsRun(r) && i < |r| && p < |r[i].peers|
    ensures Stored(r[i].peers[p].instances)
  {
    if i > 0 {
      RunOk(r, i - 1, 0);
      assert NextAt(r, i - 1);
      var a :| Enabled(r[i - 1], a) && r[i] == Apply(r[i - 1], a);
      hide Enabled, Apply, Bookkeeping;
      DonesKept(r[i - 1], a);
      AllStored(r, i - 1, p);
      StoredKept(r[i - 1], a, p);
    }
  }

  /** In every run every peer can be asked, and its answer is right: Forgotten exactly where every Done value
      it knows covers the instance, and Decided exactly where it has decided an instance above. Then the
      value is that of every decision announced about the instance, as long as some peer is not done with it. */
  lemma StatusIsRight(r: seq<System>, i: nat, p: nat, k: int, fate: Fate, v: Value)
    requires IsRun(r) && i < |r| && p < |r[i].peers|
    requires StatusAnswers(r[i].peers[p], k, fate, v)
    ensures r[i].peers[p].Valid() && Stored(r[i].peers[p].instances)
    ensures fate == Forgotten <==> k <= Least(r[i].peers[p].dones)
    ensures fate == Decided <==> k > Least(r[i].peers[p].dones) && DecidedAt(r[i], p, k)
    ensures fate == Decided && k > TrueMin(r[i]) ==>
              forall m :: m in r[i].net && m.Decision? && m.k == k ==> m.v == v
  {
    RunOk(r, i, k);
    AllStored(r, i, p);
    var d := r[i].peers[p].dones;
    var least :| 0 <= least < |d| && d[least] == Least(d);
    if fate == Decided && k > TrueMin(r[i]) {
      var x := View(r[i], k);
      DecidedHolds(x, p);
      forall m | m in r[i].net && m.Decision? && m.k == k ensures m.v == v {
        assert Decision(x.k, m.pnum, m.v, m.sender, m.done) in x.net;
        Agreement(x, x.acc[p].value.na, x.acc[p].value.va, m.pnum, m.v);
      }
    }
  }

  /** Stability. Once a peer's Status reports an instance as decided, it reports the same value
      ever after, as long as some peer has not passed Done for it, however many later Accepts
      and Decides overwrite the entry. */
  lemma StatusIsStable(r: seq<System>, i: nat, j: nat, p: nat, k: int, v: Value, fate': Fate, v': Value)
    requires IsRun(r) && i <= j < |r| && p < |r[i].peers| && k > TrueMin(r[j])
    requires StatusAnswers(r[i].peers[p], k, Decided, v)
    requires p < |r[j].peers| && StatusAnswers(r[j].peers[p], k, fate', v')
    ensures fate' == Decided && v' == v
  {
    MinGrows(r, i, j);
    StillDecided(r, i, j, p, k);
    RunOk(r, i, k);
    RunOk(r, j, k);
    BelowTrueMin(r[j], p);
    StatusIsRight(r, j, p, k, fate', v');
    var x, x' := View(r[i], k), View(r[j], k);
    DecidedHolds(x, p);
    DecidedHolds(x', p);
    DecidedStays(x, x', x.acc[p].value.na);
    Agreement(x', x.acc[p].value.na, x.acc[p].value.va, x'.acc[p].value.na, x'.acc[p].value.va);
  }
}
