/** Exactly which instances agree: those above the least Done value, and those below zero, which nobody can
    start. Once every peer is done with an instance and has forgotten it, an attempt that was under way
    can decide it again, differently. */
module PaxosForgotten {
  import opened Collections
  import opened Lexicographic
  import opened PaxosPeer
  import opened PaxosSynod
  import opened PaxosProtocol

  // A system of one peer, whose table is `t`.
  ghost function Alone(done: int, t: map<int, Instance>, calls: set<Called>, attempts: map<(int, string), Attempt>, net: set<Msg>): System {
    System([Peer(0, [done], t)], calls, attempts, net)
  }

  lemma Step(r: seq<System>, a: Action, s': System) returns (r': seq<System>)
    requires IsRun(r) && Enabled(r[|r| - 1], a)
    requires Apply(r[|r| - 1], a) == s'
    ensures IsRun(r') && r' != [] && r'[|r'| - 1] == s'
  {
    r' := OneMore(r, a);
  }

  // An attempt takes instance k from unknown to proposed.
  lemma Propounds(r: seq<System>, k: int, done: int, calls: set<Called>, at: map<(int, string), Attempt>, net: set<Msg>, b: string, v: Value)
      returns (r': seq<System>, net': set<Msg>)
    requires IsRun(r) && r[|r| - 1] == Alone(done, map[], calls, at, net)
    requires Called(0, k, v) in calls
    requires b != "" && (k, b) !in at && forall m :: m in net ==> m.pnum != b
    ensures IsRun(r') && r' != []
    ensures r'[|r'| - 1] == Alone(done, map[k := Instance(Pending, b, "", Nil)], calls, at[(k, b) := Attempt(0, v)], net')
    ensures net <= net' && Propose(k, b, v) in net' && forall m :: m in net' ==> m in net || m.pnum == b
  {
    var promise := PrepareReply(OK, "", Nil);
    var at' := at[(k, b) := Attempt(0, v)];
    var net1 := net + {Ask(k, b)};
    var net2 := net1 + {Promise(k, b, 0, promise)};
    net' := net2 + {Propose(k, b, v)};
    r' := Step(r, Try(0, k, b, v), Alone(done, map[], calls, at', net1));
    r' := Step(r', OnAsk(0, k, b), Alone(done, map[k := Instance(Pending, b, "", Nil)], calls, at', net2));
    assert OkPeers(Errs([promise])) == {0};
    assert Highest([promise][..0], v) == ("", v) && Highest([promise], v) == ("", v);
    r' := Step(r', Gather(k, b, [promise]), Alone(done, map[k := Instance(Pending, b, "", Nil)], calls, at', net'));
  }

  // ... and from proposed to decided and announced.
  lemma Concludes(r: seq<System>, k: int, done: int, calls: set<Called>, at: map<(int, string), Attempt>, net: set<Msg>, b: string, v: Value)
      returns (r': seq<System>, net': set<Msg>)
    requires IsRun(r) && r[|r| - 1] == Alone(done, map[k := Instance(Pending, b, "", Nil)], calls, at, net)
    requires (k, b) in at && at[(k, b)].proposer == 0 && Propose(k, b, v) in net
    ensures IsRun(r') && r' != []
    ensures r'[|r'| - 1] == Alone(done, map[k := Instance(Decided, b, b, v)], calls, at, net')
    ensures net <= net' && Decision(k, b, v, 0, done) in net' && forall m :: m in net' ==> m in net || m.pnum == b
  {
    var net1 := net + {Vote(k, b, 0, OK)};
    net' := net1 + {Decision(k, b, v, 0, done)};
    r' := Votes(r, k, done, calls, at, net, b, v);
    assert map[k := Instance(Pending, b, b, v)][k := Instance(Decided, b, b, v)] == map[k := Instance(Decided, b, b, v)];
    assert OkPeers([OK]) == {0};
    r' := Step(r', DecideOwn(k, b, v, [OK]), Alone(done, map[k := Instance(Decided, b, b, v)], calls, at, net1));
    r' := Step(r', Announce(k, b, v, [OK]), Alone(done, map[k := Instance(Decided, b, b, v)], calls, at, net'));
  }

  lemma Votes(r: seq<System>, k: int, done: int, calls: set<Called>, at: map<(int, string), Attempt>, net: set<Msg>, b: string, v: Value)
      returns (r': seq<System>)
    requires IsRun(r) && r[|r| - 1] == Alone(done, map[k := Instance(Pending, b, "", Nil)], calls, at, net)
    requires Propose(k, b, v) in net
    ensures IsRun(r') && r' != []
    ensures r'[|r'| - 1] == Alone(done, map[k := Instance(Pending, b, b, v)], calls, at, net + {Vote(k, b, 0, OK)})
  {
    RankOrder(b, b);
    assert map[k := Instance(Pending, b, "", Nil)][k := Instance(Pending, b, b, v)] == map[k := Instance(Pending, b, b, v)];
    r' := Step(r, OnPropose(0, k, b, v), Alone(done, map[k := Instance(Pending, b, b, v)], calls, at, net + {Vote(k, b, 0, OK)}));
  }

  // Two calls of Start for instance k of a fresh system, before anything else happens.
  lemma TwoCalls(k: int, first: Value, second: Value) returns (r: seq<System>)
    requires k >= 0
    ensures IsRun(r) && r[|r| - 1] == Alone(-1, map[], {Called(0, k, first), Called(0, k, second)}, map[], {})
  {
    r := [Alone(-1, map[], {}, map[], {})];
    assert Init(r[0]) by { assert seq(1, j => -1) == [-1]; }
    assert HandleMin(Peer(0, [-1], map[])) == (Peer(0, [-1], map[]), 0) by { assert Least([-1]) == -1; }
    r := Step(r, Start(0, k, first), Alone(-1, map[], {Called(0, k, first)}, map[], {}));
    r := Step(r, Start(0, k, second), Alone(-1, map[], {Called(0, k, first), Called(0, k, second)}, map[], {}));
  }

  // The first proposer's attempt, up to its announcement; then the peer is done with t and forgets.
  lemma FirstThenForgotten(k: int, t: int, first: Value, second: Value)
      returns (r: seq<System>, at: map<(int, string), Attempt>, net: set<Msg>)
    requires 0 <= k <= t
    ensures IsRun(r) && r[|r| - 1] == Alone(t, map[], {Called(0, k, first), Called(0, k, second)}, at, net)
    ensures Decision(k, "1", first, 0, -1) in net && (k, "2") !in at && forall m :: m in net ==> m.pnum == "1"
  {
    hide IsRun, Enabled, Apply;
    var calls := {Called(0, k, first), Called(0, k, second)};
    var net1;
    r := TwoCalls(k, first, second);
    at := map[(k, "1") := Attempt(0, first)];
    assert map[][(k, "1") := Attempt(0, first)] == at;
    r, net1 := Propounds(r, k, -1, calls, map[], {}, "1", first);
    r, net := Concludes(r, k, -1, calls, at, net1, "1", first);
    r := Forgets(r, k, t, calls, at, net, Instance(Decided, "1", "1", first));
  }

  lemma Forgets(r: seq<System>, k: int, t: int, calls: set<Called>, at: map<(int, string), Attempt>, net: set<Msg>, inst: Instance)
      returns (r': seq<System>)
    requires 0 <= k <= t && IsRun(r) && r[|r| - 1] == Alone(-1, map[k := inst], calls, at, net) && inst.state == Decided
    ensures IsRun(r') && r'[|r'| - 1] == Alone(t, map[], calls, at, net)
  {
    var m := map[k := inst];
    assert [-1][0 := t] == [t];
    r' := Step(r, MarkDone(0, t), Alone(t, m, calls, at, net));
    assert PaxosPeer.Collected(Peer(0, [t], m)) == map[] by { assert Least([t]) == t; }
    r' := Step(r', Forget(0), Alone(t, map[], calls, at, net));
  }

  /** An instance the system is done with can be decided twice: both calls of Start come first, one
      proposer finishes, the peer is done with the instance and forgets it, and then the other proposer
      makes its attempt. */
  lemma ForgottenMayDisagree(k: int, t: int) returns (r: seq<System>)
    requires 0 <= k <= t
    ensures IsRun(r) && TrueMin(r[|r| - 1]) == t && !Agrees(r[|r| - 1], k)
  {
    hide IsRun;
    var first, second := Val("a"), Val("b");
    var calls := {Called(0, k, first), Called(0, k, second)};
    var at, net, net3, net4;
    r, at, net := FirstThenForgotten(k, t, first, second);
    r, net3 := Propounds(r, k, t, calls, at, net, "2", second);
    r, net4 := Concludes(r, k, t, calls, at[(k, "2") := Attempt(0, second)], net3, "2", second);
    assert Decision(k, "1", first, 0, -1) in net4 && Decision(k, "2", second, 0, t) in net4;
    assert OwnDones(r[|r| - 1]) == [t];
  }

  // No two decisions about instance k carry different values.
  ghost predicate Agrees(s: System, k: int) {
    forall m, m' :: m in s.net && m' in s.net && m.Decision? && m'.Decision? && m.k == m'.k == k ==> m.v == m'.v
  }

  /* ---- instances below zero ---- */

  // Nothing is ever said about an instance below zero.
  ghost predicate NoneNegative(s: System) {
    && (forall p, i :: 0 <= p < |s.peers| && 0 <= i < |s.peers[p].dones| ==> s.peers[p].dones[i] >= -1)
    && (forall c :: c in s.calls ==> c.k >= 0)
    && (forall key :: key in s.attempts ==> key.0 >= 0)
    && (forall m :: m in s.net ==> m.k >= 0)
    && (forall m :: m in s.net && m.Decision? ==> m.done >= -1)
  }

  lemma DonesNotNegative(s: System, a: Action, p: nat)
    requires Bookkeeping(s) && NoneNegative(s) && Enabled(s, a) && p < |s.peers|
    ensures forall i :: 0 <= i < |Apply(s, a).peers[p].dones| ==> Apply(s, a).peers[p].dones[i] >= -1
  {
    hide OnPrepare, OnAccept, Collected, Bookkeeping, Acked;
  }

  lemma NoneNegativeKept(s: System, a: Action)
    requires Bookkeeping(s) && NoneNegative(s) && Enabled(s, a)
    ensures NoneNegative(Apply(s, a))
  {
    hide OnPrepare, OnAccept, Collected, Acked, HandlePrepare, HandleAccept, HandleDecide, HandleOwnDecide, HandleDone;
    var s' := Apply(s, a);
    forall p | 0 <= p < |s'.peers| ensures forall i :: 0 <= i < |s'.peers[p].dones| ==> s'.peers[p].dones[i] >= -1 {
      DonesNotNegative(s, a, p);
    }
    if a.Start? { assert Least(s.peers[a.p].dones) >= -1; }
  }

  lemma StartHasNoneNegative(s: System)
    requires Init(s)
    ensures NoneNegative(s)
  {
  }

  lemma {:induction false} RunHasNoneNegative(r: seq<System>, i: nat)
    requires IsRun(r) && i < |r|
    ensures NoneNegative(r[i])
  {
    if i == 0 {
      StartHasNoneNegative(r[0]);
    } else {
      hide Next, Bookkeeping, NoneNegative, Init, Inv;
      RunHasNoneNegative(r, i - 1);
      assert Bookkeeping(r[i - 1]) by { RunOk(r, i - 1, 0); }
      assert NextAt(r, i - 1);
      NextHasNoneNegative(r[i - 1], r[i]);
    }
  }

  lemma NextHasNoneNegative(s: System, s': System)
    requires Bookkeeping(s) && NoneNegative(s) && Next(s, s')
    ensures NoneNegative(s')
  {
    hide Bookkeeping, NoneNegative;
    var a :| Enabled(s, a) && s' == Apply(s, a);
    hide Enabled, Apply;
    NoneNegativeKept(s, a);
  }

  // Every run that ends with least Done value t agrees on instance k.
  ghost predicate AlwaysAgrees(k: int, t: int) {
    forall r: seq<System> :: IsRun(r) && TrueMin(r[|r| - 1]) == t ==> Agrees(r[|r| - 1], k)
  }

  /** Agreement is certain exactly for the instances above the least Done value, and for those below
      zero, which Start always turns away. */
  lemma AgreementExactly(k: int, t: int)
    ensures AlwaysAgrees(k, t) <==> k > t || k < 0
  {
    if k > t || k < 0 {
      forall r: seq<System> | IsRun(r) && TrueMin(r[|r| - 1]) == t ensures Agrees(r[|r| - 1], k) {
        var s := r[|r| - 1];
        RunHasNoneNegative(r, |r| - 1);
        forall m, m' | m in s.net && m' in s.net && m.Decision? && m'.Decision? && m.k == m'.k == k ensures m.v == m'.v {
          DecisionsAgree(r, |r| - 1, m, m');
        }
      }
    } else {
      var r := ForgottenMayDisagree(k, t);
      assert !Agrees(r[|r| - 1], k);
    }
  }
}
