/** One Paxos peer: what each handler does to the peer's tables, first as functions on the peer's
    state, then as the class whose methods update the tables in place. */
module PaxosPeer {
  import opened Collections
  import opened Lexicographic

  datatype Fate = Decided | Pending | Forgotten

  // An application value; `Nil` is the untyped nil a fresh instance holds.
  datatype Value = Nil | Val(data: string)

  datatype Instance = Instance(state: Fate, np: string, na: string, va: Value)

  const NEW_INSTANCE := Instance(Pending, "", "", Nil)

  // `Silent` is the error field of a reply that was never filled in: the call failed.
  datatype Err = OK | Reject | Silent

  datatype PrepareReply = PrepareReply(err: Err, acceptPnum: string, acceptValue: Value)

  // What sendPrepare reads when a call fails.
  const NO_PROMISE := PrepareReply(Reject, "", Nil)

  datatype Peer = Peer(me: nat, dones: seq<int>, instances: map<int, Instance>) {
    ghost predicate Valid() { me < |dones| }
  }

  function Majority(n: nat): nat { n / 2 + 1 }

  /* ---- what the handlers compute ---- */

  /* One table entry under a Prepare or an Accept; `None` is an instance the peer does not know. */

  function OnPrepare(o: Option<Instance>, pnum: string): (Instance, PrepareReply) {
    if o.None? then (NEW_INSTANCE.(np := pnum), PrepareReply(OK, "", Nil))
    else if Less(o.value.np, pnum) then (o.value.(np := pnum), PrepareReply(OK, o.value.na, o.value.va))
    else (o.value, NO_PROMISE)
  }

  function OnAccept(o: Option<Instance>, pnum: string, v: Value): (Instance, Err) {
    if o.None? then (Instance(Pending, pnum, pnum, v), OK)
    else if Less(pnum, o.value.np) then (o.value, Reject)
    else (Instance(o.value.state, pnum, pnum, v), OK)
  }

  function Find(p: Peer, k: int): Option<Instance> {
    if k in p.instances then Some(p.instances[k]) else None
  }

  function HandlePrepare(p: Peer, k: int, pnum: string): (Peer, PrepareReply) {
    var (inst, reply) := OnPrepare(Find(p, k), pnum);
    (p.(instances := p.instances[k := inst]), reply)
  }

  function HandleAccept(p: Peer, k: int, pnum: string, v: Value): (Peer, Err) {
    var (inst, err) := OnAccept(Find(p, k), pnum, v);
    (p.(instances := p.instances[k := inst]), err)
  }

  function HandleDecide(p: Peer, k: int, pnum: string, v: Value, sender: nat, done: int): Peer
    requires sender < |p.dones|
  {
    Peer(p.me, p.dones[sender := done], p.instances[k := Instance(Decided, pnum, pnum, v)])
  }

  // The local half of sendDecide.
  function HandleOwnDecide(p: Peer, k: int, pnum: string, v: Value): Peer {
    p.(instances := p.instances[k := Instance(Decided, pnum, pnum, v)])
  }

  function HandleDone(p: Peer, k: int): Peer
    requires p.Valid()
  {
    if k > p.dones[p.me] then p.(dones := p.dones[p.me := k]) else p
  }

  /** The least entry of a nonempty table. */
  function Least(s: seq<int>): (m: int)
    requires s != []
    ensures m in s && forall i :: 0 <= i < |s| ==> m <= s[i]
  {
    if |s| == 1 then s[0]
    else
      var m := Least(s[..|s| - 1]);
      if s[|s| - 1] < m then s[|s| - 1] else m
  }

  // The table Min() leaves behind: decided instances up to the least done entry are dropped.
  function Collected(p: Peer): map<int, Instance>
    requires p.Valid()
  {
    map k | k in p.instances && !(k <= Least(p.dones) && p.instances[k].state == Decided) :: p.instances[k]
  }

  // The instances when the keys in `todo` have still to be looked at.
  ghost function Swept(all: map<int, Instance>, todo: set<int>, min: int): map<int, Instance> {
    map k | k in all && (k in todo || !(k <= min && all[k].state == Decided)) :: all[k]
  }

  lemma SweptEnds(all: map<int, Instance>, min: int)
    ensures Swept(all, all.Keys, min) == all
    ensures Swept(all, {}, min) == map k | k in all && !(k <= min && all[k].state == Decided) :: all[k]
  {
  }

  lemma SweptStep(all: map<int, Instance>, todo: set<int>, min: int, k: int)
    requires todo <= all.Keys && k in todo
    ensures k in Swept(all, todo, min) && Swept(all, todo, min)[k] == all[k]
    ensures Swept(all, todo - {k}, min) ==
            if k <= min && all[k].state == Decided then Swept(all, todo, min) - {k} else Swept(all, todo, min)
  {
  }

  function HandleMin(p: Peer): (Peer, int)
    requires p.Valid()
  {
    (p.(instances := Collected(p)), Least(p.dones) + 1)
  }

  function HandleStatus(p: Peer, k: int): (Peer, (Fate, Value))
    requires p.Valid()
  {
    var (p', min) := HandleMin(p);
    (p', if k < min then (Forgotten, Nil)
         else if k !in p'.instances then (Pending, Nil)
         else (p'.instances[k].state, p'.instances[k].va))
  }

  // No entry of a table says Forgotten.
  predicate Stored(instances: map<int, Instance>) { forall k :: k in instances ==> instances[k].state != Forgotten }

  /** What Status promises of a peer: Forgotten exactly for the instances that every Done entry covers,
      Decided with the value exactly for the decided ones above, and Pending for all others. */
  predicate StatusAnswers(p: Peer, k: int, fate: Fate, v: Value) {
    && (fate == Forgotten <==> forall i :: 0 <= i < |p.dones| ==> k <= p.dones[i])
    && (fate == Decided <==>
          (exists i :: 0 <= i < |p.dones| && p.dones[i] < k) && k in p.instances && p.instances[k].state == Decided)
    && (fate == Decided ==> v == p.instances[k].va)
    && (fate == Forgotten ==> v == Nil)
    && (fate == Pending ==> v == if k in p.instances then p.instances[k].va else Nil)
  }

  lemma StatusIsAnswered(p: Peer, k: int)
    requires p.Valid() && Stored(p.instances)
    ensures var (p', (fate, v)) := HandleStatus(p, k); StatusAnswers(p, k, fate, v)
  {
    var least := Least(p.dones);
    var i :| 0 <= i < |p.dones| && p.dones[i] == least;
  }

  /* ---- what a proposer makes of the replies ---- */

  ghost function OkPeers(errs: seq<Err>): set<nat> {
    set i: nat | i < |errs| && errs[i] == OK
  }

  lemma OkPeersStep(errs: seq<Err>, n: nat)
    requires n < |errs|
    ensures |OkPeers(errs[..n + 1])| == |OkPeers(errs[..n])| + if errs[n] == OK then 1 else 0
  {
    var a, b := OkPeers(errs[..n]), OkPeers(errs[..n + 1]);
    assert b == if errs[n] == OK then a + {n} else a;
  }

  function Errs(rs: seq<PrepareReply>): (es: seq<Err>)
    ensures |es| == |rs| && forall i :: 0 <= i < |rs| ==> es[i] == rs[i].err
  {
    seq(|rs|, i requires 0 <= i < |rs| => rs[i].err)
  }

  /** The number and value sendPrepare ends up with after the replies `rs`, in peer order. */
  function Highest(rs: seq<PrepareReply>, v: Value): (string, Value) {
    if rs == [] then ("", v)
    else
      var best, r := Highest(rs[..|rs| - 1], v), rs[|rs| - 1];
      if r.err == OK && Less(best.0, r.acceptPnum) then (r.acceptPnum, r.acceptValue) else best
  }

  /** The chosen value belongs to a promise with the greatest accepted number, and is the
      proposer's own value only if no promise reports an accepted number. */
  lemma {:induction false} HighestIsMaximum(rs: seq<PrepareReply>, v: Value)
    ensures forall i :: 0 <= i < |rs| && rs[i].err == OK ==> !Less(Highest(rs, v).0, rs[i].acceptPnum)
    ensures var (n, w) := Highest(rs, v);
            (n == "" && w == v) ||
            (n != "" && exists i :: 0 <= i < |rs| && rs[i].err == OK && rs[i].acceptPnum == n && rs[i].acceptValue == w)
  {
    if rs != [] {
      var init, r := rs[..|rs| - 1], rs[|rs| - 1];
      HighestIsMaximum(init, v);
      var best := Highest(init, v);
      var (n, w) := Highest(rs, v);
      RankOrder(best.0, r.acceptPnum);
      forall i | 0 <= i < |rs| && rs[i].err == OK
        ensures !Less(n, rs[i].acceptPnum)
      {
        RankOrder(n, rs[i].acceptPnum);
        if i < |init| {
          assert init[i] == rs[i];
          RankOrder(best.0, init[i].acceptPnum);
        }
      }
      if n == best.0 && w == best.1 && n != "" {
        var i :| 0 <= i < |init| && init[i].err == OK && init[i].acceptPnum == n && init[i].acceptValue == w;
        assert rs[i] == init[i];
      }
    }
  }

  lemma HasMember(s: set<int>)
    requires s != {}
    ensures exists k :: k in s
  {
    if forall k :: k !in s {
      assert false;
    }
  }

  /* ---- the peer ---- */

  class Paxos {
    const me: nat
    var dones: seq<int>
    var instances: map<int, Instance>

    ghost predicate Valid()
      reads this
    {
      me < |dones|
    }

    ghost function State(): Peer
      reads this
    {
      Peer(me, dones, instances)
    }

    constructor (npeers: nat, me: nat)
      requires me < npeers
      ensures Valid() && State() == Peer(me, seq(npeers, i => -1), map[])
    {
      this.me := me;
      dones := seq(npeers, i => -1);
      instances := map[];
    }

    method Prepare(k: int, pnum: string) returns (reply: PrepareReply)
      modifies `instances
      ensures (State(), reply) == HandlePrepare(old(State()), k, pnum)
      ensures reply.err == OK <==> k !in old(instances) || Less(old(instances)[k].np, pnum)
      ensures reply.err == OK && k in old(instances) ==>
                (reply.acceptPnum, reply.acceptValue) == (old(instances)[k].na, old(instances)[k].va)
      ensures k in instances && (reply.err == OK ==> instances[k].np == pnum)
      ensures instances == old(instances)[k := instances[k]]
    {
      var err;
      if k !in instances {
        instances := instances[k := NEW_INSTANCE];
        err := OK;
      } else {
        err := if Less(instances[k].np, pnum) then OK else Reject;
      }
      var inst := instances[k];
      if err == OK {
        reply := PrepareReply(OK, inst.na, inst.va);
        instances := instances[k := inst.(np := pnum)];
      } else {
        reply := NO_PROMISE;
      }
      assert instances == HandlePrepare(old(State()), k, pnum).0.instances;
    }

    method Accept(k: int, pnum: string, v: Value) returns (err: Err)
      modifies `instances
      ensures (State(), err) == HandleAccept(old(State()), k, pnum, v)
      ensures err == OK <==> k !in old(instances) || !Less(pnum, old(instances)[k].np)
      ensures k in instances && instances == old(instances)[k := instances[k]]
      ensures err == OK ==> (instances[k].na, instances[k].np, instances[k].va) == (pnum, pnum, v)
      ensures err != OK ==> instances == old(instances)
    {
      if k !in instances {
        instances := instances[k := NEW_INSTANCE];
        err := OK;
      } else {
        err := if Less(pnum, instances[k].np) then Reject else OK;
      }
      if err == OK {
        instances := instances[k := instances[k].(na := pnum, np := pnum, va := v)];
      }
      assert instances == HandleAccept(old(State()), k, pnum, v).0.instances;
    }

    method Decide(k: int, pnum: string, v: Value, sender: nat, done: int)
      requires sender < |dones|
      modifies `instances, `dones
      ensures State() == HandleDecide(old(State()), k, pnum, v, sender, done)
      ensures instances == old(instances)[k := Instance(Decided, pnum, pnum, v)] && dones == old(dones)[sender := done]
    {
      if k !in instances {
        instances := instances[k := NEW_INSTANCE];
      }
      instances := instances[k := instances[k].(va := v)];
      instances := instances[k := instances[k].(na := pnum)];
      instances := instances[k := instances[k].(np := pnum)];
      instances := instances[k := instances[k].(state := Decided)];
      dones := dones[sender := done];
    }

    method Done(k: int)
      requires Valid()
      modifies `dones
      ensures State() == HandleDone(old(State()), k)
      ensures dones == old(dones)[me := if k > old(dones)[me] then k else old(dones)[me]]
    {
      if k > dones[me] {
        dones := dones[me := k];
      }
    }

    method Min() returns (min1: int)
      requires Valid()
      modifies `instances
      ensures (State(), min1) == HandleMin(old(State()))
      ensures min1 - 1 in dones && forall i :: 0 <= i < |dones| ==> min1 - 1 <= dones[i]
      ensures forall k :: k in instances <==> k in old(instances) && (k >= min1 || old(instances)[k].state != Decided)
      ensures forall k :: k in instances ==> instances[k] == old(instances)[k]
    {
      var min := dones[me];
      for i := 0 to |dones|
        invariant min in dones && min <= dones[me]
        invariant forall j :: 0 <= j < i ==> min <= dones[j]
      {
        if dones[i] < min {
          min := dones[i];
        }
      }
      assert min == Least(dones);
      hide Least, Swept;
      var todo: set<int> := instances.Keys;
      SweptEnds(instances, min);
      while todo != {}
        invariant todo <= old(instances).Keys && instances == Swept(old(instances), todo, min)
        decreases |todo|
      {
        HasMember(todo);
        var k :| k in todo;
        SweptStep(old(instances), todo, min, k);
        todo := todo - {k};
        if k <= min && instances[k].state == Decided {
          instances := instances - {k};
        }
      }
      min1 := min + 1;
    }

    method Status(k: int) returns (fate: Fate, v: Value)
      requires Valid()
      modifies `instances
      ensures (State(), (fate, v)) == HandleStatus(old(State()), k)
      ensures Stored(old(instances)) ==> StatusAnswers(old(State()), k, fate, v)
    {
      if Stored(instances) { StatusIsAnswered(State(), k); }
      var min := Min();
      if k < min {
        return Forgotten, Nil;
      }
      if k !in instances {
        return Pending, Nil;
      }
      return instances[k].state, instances[k].va;
    }

    /** `remote[i]` is what the call to peer i leaves in the reply: `NO_PROMISE` if it failed.
        The peer asks itself directly. */
    method SendPrepare(k: int, v: Value, pnum: string, remote: seq<PrepareReply>) returns (ok: bool, value: Value)
      requires Valid() && |remote| == |dones|
      modifies `instances
      ensures var (p', own) := HandlePrepare(old(State()), k, pnum);
              State() == p' &&
              var replies := remote[me := own];
              ok == (|OkPeers(Errs(replies))| >= Majority(|dones|)) && value == Highest(replies, v).1
    {
      ghost var (p', own) := HandlePrepare(old(State()), k, pnum);
      ghost var replies := remote[me := own];
      ghost var errs := Errs(replies);
      var num, replyPnum := 0, "";
      value := v;
      for i := 0 to |remote|
        invariant State() == if i <= me then old(State()) else p'
        invariant num == |OkPeers(errs[..i])|
        invariant (replyPnum, value) == Highest(replies[..i], v)
      {
        var reply := remote[i];
        if i == me {
          reply := Prepare(k, pnum);
        }
        OkPeersStep(errs, i);
        assert replies[..i + 1][..i] == replies[..i] && reply == replies[i];
        if reply.err == OK {
          num := num + 1;
          if Less(replyPnum, reply.acceptPnum) {
            replyPnum, value := reply.acceptPnum, reply.acceptValue;
          }
        }
      }
      assert errs[..|errs|] == errs && replies[..|replies|] == replies;
      ok := num >= Majority(|dones|);
    }

    method SendAccept(k: int, pnum: string, v: Value, remote: seq<Err>) returns (ok: bool)
      requires Valid() && |remote| == |dones|
      modifies `instances
      ensures var (p', own) := HandleAccept(old(State()), k, pnum, v);
              State() == p' && ok == (|OkPeers(remote[me := own])| >= Majority(|dones|))
    {
      ghost var (p', own) := HandleAccept(old(State()), k, pnum, v);
      ghost var errs := remote[me := own];
      var num := 0;
      for i := 0 to |remote|
        invariant State() == if i <= me then old(State()) else p'
        invariant num == |OkPeers(errs[..i])|
      {
        var err := remote[i];
        if i == me {
          err := Accept(k, pnum, v);
        }
        OkPeersStep(errs, i);
        if err == OK {
          num := num + 1;
        }
      }
      assert errs[..|errs|] == errs;
      ok := num >= Majority(|dones|);
    }

    /** Not ok stands for the nil dereference when Min() has deleted the table entry meanwhile. */
    method SendDecide(k: int, pnum: string, v: Value) returns (ok: bool)
      modifies `instances
      ensures ok <==> k in old(instances)
      ensures State() == if ok then HandleOwnDecide(old(State()), k, pnum, v) else old(State())
      ensures ok ==> instances == old(instances)[k := Instance(Decided, pnum, pnum, v)]
    {
      if k !in instances { return false; }
      instances := instances[k := instances[k].(state := Decided)];
      instances := instances[k := instances[k].(na := pnum)];
      instances := instances[k := instances[k].(np := pnum)];
      instances := instances[k := instances[k].(va := v)];
      ok := true;
    }
  }
}
