/** The queue of messages in flight, by priority, and the channel's map of the same messages. */
module NsqInFlight {
  import opened NsqHeap

  class Message {
    const id: string
    var clientID: int
    var pri: int
    var index: int

    constructor (id: string)
      ensures this.id == id
    {
      this.id := id;
      clientID, pri, index := 0, 0, 0;
    }
  }

  ghost function Pris(pq: seq<Message>): (p: seq<int>)
    reads pq`pri
    ensures |p| == |pq| && forall i :: 0 <= i < |pq| ==> p[i] == pq[i].pri
  {
    if pq == [] then [] else Pris(pq[..|pq| - 1]) + [pq[|pq| - 1].pri]
  }

  // Every message knows its place.
  ghost predicate Placed(pq: seq<Message>)
    reads pq`index
  {
    forall i :: 0 <= i < |pq| ==> pq[i].index == i
  }

  function Members(pq: seq<Message>): set<Message> { set m | m in pq }

  lemma MembersMore(pq: seq<Message>, x: Message)
    ensures Members(pq + [x]) == Members(pq) + {x}
    ensures multiset(pq + [x]) == multiset(pq) + multiset{x}
  {
  }

  ghost predicate Within(pq: seq<Message>, held: set<Message>) {
    forall i :: 0 <= i < |pq| ==> pq[i] in held
  }

  class InFlightPqueue {
    var pq: seq<Message>
    var capacity: nat
    ghost var held: set<Message>

    // Everything but the order.
    ghost predicate Kept()
      reads this, held`index
    {
      held == Members(pq) && Placed(pq) && |pq| <= capacity
    }

    ghost predicate InOrder()
      reads this`pq, pq`pri
    {
      IsHeap(Pris(pq), |pq|)
    }

    constructor (capacity: nat)
      ensures Kept() && InOrder() && pq == [] && this.capacity == capacity
    {
      pq, this.capacity, held := [], capacity, {};
    }

    method Swap(i: nat, j: nat)
      requires i < |pq| && j < |pq| && Within(pq, held) && Placed(pq)
      modifies this`pq, held`index
      ensures pq == Exchanged(old(pq), i, j) && Within(pq, held) && Placed(pq)
      ensures Pris(pq) == Exchanged(old(Pris(pq)), i, j)
    {
      pq := pq[i := pq[j]][j := pq[i]];
      pq[i].index := i;
      pq[j].index := j;
    }

    // Sifts up among the first n messages; `ordered` tells whether they were in order but for j0.
    method Up(j0: nat, ghost n: nat, ghost ordered: bool)
      requires j0 < n <= |pq| && Within(pq, held) && Placed(pq) && (ordered ==> RisingAt(Pris(pq), n, j0))
      modifies this`pq, held`index
      ensures Rearranged(old(pq), pq, n) && Within(pq, held) && Placed(pq) && (ordered ==> IsHeap(Pris(pq), n))
    {
      hide RisingAt, IsHeap, Placed, Within, Rearranged, Exchanged;
      var j: nat := j0;
      StillRearranged(pq, n);
      while true
        invariant j < n <= |pq| && Within(pq, held) && Placed(pq) && (ordered ==> RisingAt(Pris(pq), n, j))
        invariant Rearranged(old(pq), pq, n)
        decreases j
      {
        var i := if j == 0 then 0 else (j - 1) / 2;
        if i == j || pq[j].pri >= pq[i].pri {
          if ordered { UpEnd(Pris(pq), n, j); }
          break;
        }
        if ordered { UpStep(Pris(pq), n, j); }
        RearrangedMore(old(pq), pq, i, j, n);
        Swap(i, j);
        j := i;
      }
    }

    // Sifts down among the first n messages.
    method Down(i0: nat, n: nat, ghost ordered: bool)
      requires i0 <= n <= |pq| && Within(pq, held) && Placed(pq) && (ordered ==> SinkingAt(Pris(pq), n, i0, i0))
      modifies this`pq, held`index
      ensures Rearranged(old(pq), pq, n) && Within(pq, held) && Placed(pq) && (ordered ==> RisingAt(Pris(pq), n, i0))
    {
      hide RisingAt, SinkingAt, Smaller, Placed, Within, Rearranged, Exchanged;
      var i: nat := i0;
      StillRearranged(pq, n);
      while true
        invariant i0 <= i <= n <= |pq| && Within(pq, held) && Placed(pq) && (ordered ==> SinkingAt(Pris(pq), n, i, i0))
        invariant Rearranged(old(pq), pq, n)
        decreases n - i
      {
        var j1 := 2 * i + 1;
        if j1 >= n {
          if ordered { DownLeaf(Pris(pq), n, i, i0); }
          break;
        }
        var j := j1;
        if j1 + 1 < n && pq[j1].pri >= pq[j1 + 1].pri {
          j := j1 + 1;
        }
        SmallerChild(Pris(pq), n, i, j);
        if pq[j].pri >= pq[i].pri {
          if ordered { DownStop(Pris(pq), n, i, i0, j); }
          break;
        }
        if ordered { DownStep(Pris(pq), n, i, i0, j); }
        RearrangedMore(old(pq), pq, i, j, n);
        Swap(i, j);
        i := j;
      }
    }

    /** Adds x. A queue made with no room at all cannot grow. */
    method Push(x: Message)
      requires Kept() && x !in pq && capacity > 0
      modifies this, held`index, x`index
      ensures Kept() && (old(InOrder()) ==> InOrder())
      ensures multiset(pq) == multiset(old(pq)) + multiset{x} && held == old(held) + {x}
      ensures capacity == if |old(pq)| < old(capacity) then old(capacity) else 2 * old(capacity)
    {
      hide RisingAt, Exchanged, Rearranged, IsHeap, Placed, Within, Pris, Members;
      var n := |pq|;
      if n + 1 > capacity {
        capacity := capacity * 2;
      }
      Append(x);
      ghost var was := pq;
      Up(n, n + 1, old(InOrder()));
      SameMessages(was, pq, n + 1);
    }

    method Append(x: Message)
      requires held == Members(pq) && Placed(pq) && x !in pq
      modifies this`pq, this`held, x`index
      ensures pq == old(pq) + [x] && held == old(held) + {x} && held == Members(pq)
      ensures multiset(pq) == multiset(old(pq)) + multiset{x}
      ensures Within(pq, held) && Placed(pq) && (old(InOrder()) ==> RisingAt(Pris(pq), |pq|, |pq| - 1))
    {
      hide IsHeap, RisingAt;
      var n := |pq|;
      ghost var p := Pris(pq);
      pq := pq + [x];
      x.index := n;
      held := held + {x};
      MembersMore(old(pq), x);
      assert pq[..n] == old(pq);
      assert Pris(pq)[..n] == p;
      if IsHeap(p, |p|) { OneMore(p, Pris(pq)); }
    }

    /** Takes out the first message, which has the least priority when the heap is in order. */
    method Pop() returns (x: Message)
      requires Kept() && |pq| > 0
      modifies this, held`index
      ensures Kept() && (old(InOrder()) ==> InOrder())
      ensures x == old(pq)[0] && x.index == -1 && held == old(held) - {x}
      ensures multiset(pq) + multiset{x} == multiset(old(pq))
      ensures old(InOrder()) ==> forall m :: m in old(pq) ==> x.pri <= m.pri
    {
      hide SinkingAt, RisingAt, Exchanged, Rearranged, IsHeap, Placed, Within, Pris, Members, Fits;
      HeldWithin(pq, held);
      var n := |pq|;
      ghost var first, ordered := pq[0], InOrder();
      if ordered {
        TopIsFirst(pq);
        LastToHole(Pris(pq), n, 0);
      }
      ToTheEnd(pq, 0);
      Swap(0, n - 1);
      ghost var swapped := pq;
      Down(0, n - 1, ordered);
      StillLast(old(pq), swapped, pq);
      LastMembers(old(pq), pq, first);
      if ordered { UpEnd(Pris(pq), n - 1, 0); }
      if n < capacity / 2 && capacity > 25 {
        capacity := capacity / 2;
      }
      x := DropLast(old(pq), first, ordered);
    }

    /** Takes out the message at place i. */
    method Remove(i: nat) returns (x: Message)
      requires Kept() && i < |pq|
      modifies this, held`index
      ensures Kept() && (old(InOrder()) ==> InOrder())
      ensures x == old(pq)[i] && x.index == -1 && held == old(held) - {x}
      ensures multiset(pq) + multiset{x} == multiset(old(pq))
    {
      hide SinkingAt, RisingAt, Exchanged, Rearranged, IsHeap, Placed, Within, Pris, Members, Fits;
      HeldWithin(pq, held);
      var n := |pq|;
      ghost var gone, ordered := pq[i], InOrder();
      if n - 1 != i {
        if ordered { LastToHole(Pris(pq), n, i); }
        ToTheEnd(pq, i);
        Swap(i, n - 1);
        SiftRest(old(pq), i, n - 1, gone, ordered);
      } else {
        if ordered { Shorter(Pris(pq), n); }
        StillLastItself(pq);
      }
      x := DropLast(old(pq), gone, ordered);
    }

    // Down and up among the first n messages, the last one staying where it is.
    method SiftRest(ghost was: seq<Message>, i: nat, n: nat, ghost last: Message, ghost ordered: bool)
      requires i < n && |pq| == n + 1 && LastIs(was, pq, last)
      requires Within(pq, held) && Placed(pq) && (ordered ==> SinkingAt(Pris(pq), n, i, i))
      modifies this`pq, held`index
      ensures LastIs(was, pq, last) && |pq| == n + 1 && Within(pq, held) && Placed(pq) && (ordered ==> IsHeap(Pris(pq), n))
    {
      hide SinkingAt, RisingAt, Exchanged, Rearranged, IsHeap, Placed, Within;
      ghost var before := pq;
      Down(i, n, ordered);
      StillLast(was, before, pq);
      ghost var sunk := pq;
      SameMessages(before, pq, n);
      Up(i, n, ordered);
      SameMessages(sunk, pq, n);
      StillLast(was, sunk, pq);
    }

    // The last message leaves.
    method DropLast(ghost was: seq<Message>, ghost last: Message, ghost ordered: bool) returns (x: Message)
      requires LastIs(was, pq, last) && Placed(pq) && |pq| - 1 <= capacity
      requires held == Members(was) && (ordered ==> IsHeap(Pris(pq), |pq| - 1))
      modifies this`pq, this`held, held`index
      ensures Kept() && (ordered ==> InOrder())
      ensures x == last && x.index == -1 && held == old(held) - {x}
      ensures multiset(pq) + multiset{x} == multiset(was)
    {
      LastMembers(was, pq, last);
      var n := |pq|;
      x := pq[n - 1];
      CutLast(pq);
      if ordered { Cut(Pris(pq), n - 1); }
      assert Pris(pq[..n - 1]) == Pris(pq)[..n - 1];
      NotAgain(pq);
      pq := pq[..n - 1];
      held := held - {x};
      x.index := -1;
    }

    /** The first message, if that is due, or else how far it is above max. In a heap in order that is a
        message of least priority. */
    method PeekAndShift(max: int) returns (x: Message?, wait: int)
      requires Kept()
      modifies this, held`index
      ensures Kept() && (old(InOrder()) ==> InOrder())
      ensures x == null <==> old(pq) == [] || max < old(pq[0].pri)
      ensures x == null ==> pq == old(pq) && wait == if pq == [] then 0 else pq[0].pri - max
      ensures x != null ==> x == old(pq)[0] && x.pri <= max && wait == 0 && x.index == -1 &&
                            multiset(pq) + multiset{x} == multiset(old(pq))
      ensures old(InOrder()) ==> (x == null <==> forall m :: m in old(pq) ==> max < m.pri)
      ensures old(InOrder()) && x != null ==> forall m :: m in old(pq) ==> x.pri <= m.pri
    {
      if |pq| == 0 { return null, 0; }
      ghost var ordered := InOrder();
      if ordered { TopIsFirst(pq); }
      var top := pq[0];
      if top.pri > max {
        return null, top.pri - max;
      }
      x := Pop();
      wait := 0;
    }
  }

  // The same messages, those from place n on where they were.
  ghost predicate Rearranged(was: seq<Message>, now: seq<Message>, n: nat) {
    |was| == |now| && n <= |now| && multiset(now) == multiset(was) && now[n..] == was[n..]
  }

  lemma StillRearranged(pq: seq<Message>, n: nat)
    requires n <= |pq|
    ensures Rearranged(pq, pq, n)
  {
  }

  lemma SameMessages(was: seq<Message>, now: seq<Message>, n: nat)
    requires Rearranged(was, now, n)
    ensures |was| == |now| && multiset(now) == multiset(was) && Members(now) == Members(was)
  {
    forall m ensures m in now <==> m in was {
      assert m in multiset(now) <==> m in multiset(was);
    }
  }

  lemma RearrangedMore(was: seq<Message>, now: seq<Message>, i: nat, j: nat, n: nat)
    requires Rearranged(was, now, n) && i < n && j < n
    ensures Rearranged(was, Exchanged(now, i, j), n)
  {
    assert multiset(Exchanged(now, i, j)) == multiset(now);
  }

  lemma HeldWithin(pq: seq<Message>, held: set<Message>)
    requires held == Members(pq)
    ensures Within(pq, held)
  {
  }

  // Message i has moved to the end.
  ghost predicate LastIs(was: seq<Message>, now: seq<Message>, x: Message) {
    |was| == |now| && now != [] && multiset(now) == multiset(was) && now[|now| - 1] == x
  }

  lemma ToTheEnd(pq: seq<Message>, i: nat)
    requires i < |pq|
    ensures LastIs(pq, Exchanged(pq, i, |pq| - 1), pq[i])
  {
    var now := Exchanged(pq, i, |pq| - 1);
    assert multiset(now) == multiset(pq);
  }

  lemma LastMembers(was: seq<Message>, now: seq<Message>, x: Message)
    requires LastIs(was, now, x)
    ensures |was| == |now| && now != [] && Members(now) == Members(was)
  {
    SameMessages(was, now, |now|);
  }

  lemma StillLastItself(pq: seq<Message>)
    requires pq != []
    ensures LastIs(pq, pq, pq[|pq| - 1])
  {
  }

  lemma StillLast(was: seq<Message>, mid: seq<Message>, now: seq<Message>)
    requires mid != [] && LastIs(was, mid, mid[|mid| - 1]) && Rearranged(mid, now, |mid| - 1)
    ensures LastIs(was, now, mid[|mid| - 1])
  {
    assert now[|now| - 1] == now[|now| - 1..][0];
  }

  lemma TopIsFirst(pq: seq<Message>)
    requires pq != [] && IsHeap(Pris(pq), |pq|)
    ensures forall m :: m in pq ==> pq[0].pri <= m.pri
  {
    forall k | 0 <= k < |pq| ensures pq[0].pri <= pq[k].pri { TopIsLeast(Pris(pq), |pq|, k); }
  }

  lemma Shorter(p: seq<int>, n: nat)
    requires 0 < n <= |p| && IsHeap(p, n)
    ensures IsHeap(p, n - 1)
  {
  }

  // With the last element in place i, the rest may have to sink or rise there.
  lemma LastToHole(p: seq<int>, n: nat, i: nat)
    requires i < n == |p| && IsHeap(p, n)
    ensures SinkingAt(Exchanged(p, i, n - 1), n - 1, i, i)
  {
    var q, r := Exchanged(p, i, n - 1), p[i := p[n - 1]];
    Disturbed(p, n, i, p[n - 1]);
    assert forall k :: 0 <= k < n - 1 ==> q[k] == r[k];
    forall k | 0 < k < n - 1 && k != i && Parent(k) != i ensures Fits(q, k) { assert Fits(r, k); }
  }

  lemma OneMore(p: seq<int>, q: seq<int>)
    requires IsHeap(p, |p|) && |q| == |p| + 1 && q[..|p|] == p
    ensures RisingAt(q, |q|, |p|)
  {
    assert forall k :: 0 <= k < |p| ==> q[k] == p[k];
    forall k | 0 <= k < |q| && k != |p| ensures Fits(q, k) { assert Fits(p, k); }
  }

  // A message that knows its place is there once.
  lemma NotAgain(pq: seq<Message>)
    requires pq != [] && Placed(pq)
    ensures forall m :: m in pq[..|pq| - 1] <==> m in pq && m != pq[|pq| - 1]
  {
    var n := |pq| - 1;
    assert pq == pq[..n] + [pq[n]];
  }

  lemma CutLast<T>(s: seq<T>)
    requires s != []
    ensures multiset(s[..|s| - 1]) + multiset{s[|s| - 1]} == multiset(s)
  {
    assert s == s[..|s| - 1] + [s[|s| - 1]];
  }

  lemma Cut(p: seq<int>, n: nat)
    requires n <= |p| && IsHeap(p, n)
    ensures IsHeap(p[..n], n)
  {
    forall k | 0 <= k < n ensures Fits(p[..n], k) { assert Fits(p, k); }
  }

  /* ---- the channel ---- */

  class Channel {
    var inFlightMessages: map<string, Message>
    const inFlightPQ: InFlightPqueue

    // Map and heap hold the same messages.
    ghost predicate Synced()
      reads this, inFlightPQ, inFlightPQ.held`index
    {
      && inFlightPQ.Kept() && inFlightPQ.capacity > 0
      && inFlightMessages.Values == inFlightPQ.held
      && forall id :: id in inFlightMessages ==> inFlightMessages[id].id == id
    }

    constructor ()
      ensures Synced() && inFlightPQ.InOrder() && inFlightMessages == map[] && fresh(inFlightPQ)
      ensures inFlightPQ.pq == [] && inFlightPQ.held == {}
    {
      inFlightPQ := new InFlightPqueue(1024);
      inFlightMessages := map[];
    }

    /** A message whose ID is not in flight enters map and heap. One that is gets its priority
        changed all the same, which the heap does not notice. */
    method StartInFlightTimeout(msg: Message, clientID: int, now: int) returns (ok: bool)
      requires Synced()
      modifies this`inFlightMessages, inFlightPQ, inFlightPQ.held`index, msg
      ensures ok <==> msg.id !in old(inFlightMessages)
      ensures Synced() && msg.pri == now && msg.clientID == clientID
      ensures ok ==> (old(inFlightPQ.InOrder()) ==> inFlightPQ.InOrder())
      ensures ok ==> inFlightMessages == old(inFlightMessages)[msg.id := msg] && inFlightPQ.held == old(inFlightPQ.held) + {msg}
      ensures !ok ==> (inFlightMessages, inFlightPQ.pq, inFlightPQ.held) == old((inFlightMessages, inFlightPQ.pq, inFlightPQ.held))
      ensures !ok ==> Pris(inFlightPQ.pq) ==
                      old(if msg in inFlightPQ.held then Pris(inFlightPQ.pq)[msg.index := now] else Pris(inFlightPQ.pq))
    {
      hide IsHeap, Placed, Pris;
      NewIsNotHeld(inFlightMessages, msg);
      Stamp(msg, clientID, now);
      ok := PushInFlightMessage(msg);
      if !ok { return; }
      inFlightPQ.Push(msg);
    }

    method Stamp(msg: Message, clientID: int, now: int)
      requires Synced()
      modifies msg`clientID, msg`pri
      ensures msg.pri == now && msg.clientID == clientID && Synced()
      ensures msg in inFlightPQ.held ==> 0 <= msg.index < |inFlightPQ.pq|
      ensures Pris(inFlightPQ.pq) ==
              old(if msg in inFlightPQ.held then Pris(inFlightPQ.pq)[msg.index := now] else Pris(inFlightPQ.pq))
    {
      msg.clientID := clientID;
      msg.pri := now;
    }

    method PushInFlightMessage(msg: Message) returns (ok: bool)
      modifies this`inFlightMessages
      ensures ok <==> msg.id !in old(inFlightMessages)
      ensures inFlightMessages == if ok then old(inFlightMessages)[msg.id := msg] else old(inFlightMessages)
    {
      if msg.id in inFlightMessages { return false; }
      inFlightMessages := inFlightMessages[msg.id := msg];
      ok := true;
    }
  }

  lemma NewIsNotHeld(messages: map<string, Message>, msg: Message)
    requires forall id :: id in messages ==> messages[id].id == id
    ensures msg.id !in messages ==> msg !in messages.Values && messages[msg.id := msg].Values == messages.Values + {msg}
  {
    if msg.id !in messages {
      var m := messages[msg.id := msg];
      forall x | x in messages.Values ensures x in m.Values {
        var id :| id in messages && messages[id] == x;
        assert m[id] == x;
      }
      assert m[msg.id] == msg;
    }
  }

  /** Starting the timeout of a message again, at any clock reading, keeps the heap in order exactly if
      that reading is no earlier than the parent's priority and no later than any child's. */
  lemma RestartedStaysInOrder(p: seq<int>, i: nat, now: int)
    requires i < |p| && IsHeap(p, |p|)
    ensures IsHeap(p[i := now], |p|) <==>
            (i > 0 ==> p[Parent(i)] <= now) && forall k :: 0 < k < |p| && Parent(k) == i ==> now <= p[k]
  {
    var q := p[i := now];
    if IsHeap(q, |q|) {
      if i > 0 { assert Fits(q, i); }
      forall k | 0 < k < |p| && Parent(k) == i ensures now <= p[k] { assert Fits(q, k); }
    } else {
      var k :| 0 <= k < |q| && !Fits(q, k);
      assert Fits(p, k);
    }
  }

  /* ---- runs of calls ---- */

  datatype Call = Call(msg: Message, clientID: int, now: int)

  // The messages in flight after some calls: the first of each ID stays.
  function After(messages: map<string, Message>, calls: seq<Call>): map<string, Message> {
    if calls == [] then messages
    else
      var m, msg := After(messages, calls[..|calls| - 1]), calls[|calls| - 1].msg;
      if msg.id in m then m else m[msg.id := msg]
  }

  // Call i starts the timeout of a message that is in flight already.
  predicate Restarts(messages: map<string, Message>, calls: seq<Call>, i: nat)
    requires i < |calls|
  {
    var m, msg := After(messages, calls[..i]), calls[i].msg;
    msg.id in m && m[msg.id] == msg
  }

  /** Map and heap agree after every run of calls, and hold the first message of each ID. The heap is in order
      if it was and no call started a message again. */
  method StartAll(c: Channel, calls: seq<Call>)
    requires c.Synced()
    modifies c`inFlightMessages, c.inFlightPQ, c.inFlightPQ.held`index, Messages(calls)
    ensures c.Synced() && c.inFlightMessages == After(old(c.inFlightMessages), calls)
    ensures old(c.inFlightPQ.InOrder()) && (forall i :: 0 <= i < |calls| ==> !Restarts(old(c.inFlightMessages), calls, i))
            ==> c.inFlightPQ.InOrder()
  {
    ghost var was, held, ordered := c.inFlightMessages, c.inFlightPQ.held, c.inFlightPQ.InOrder();
    for i := 0 to |calls|
      invariant c.Synced() && c.inFlightMessages == After(was, calls[..i])
      invariant c.inFlightPQ.held <= held + Messages(calls)
      invariant ordered && (forall k :: 0 <= k < i ==> !Restarts(was, calls, k)) ==> c.inFlightPQ.InOrder()
    {
      assert calls[..i + 1][..i] == calls[..i];
      assert calls[i].msg in Messages(calls);
      if !Restarts(was, calls, i) { NotHeld(c.inFlightMessages, calls[i].msg); }
      var ok := c.StartInFlightTimeout(calls[i].msg, calls[i].clientID, calls[i].now);
    }
    assert calls[..|calls|] == calls;
  }

  function Messages(calls: seq<Call>): set<Message> { set i | 0 <= i < |calls| :: calls[i].msg }

  lemma NotHeld(messages: map<string, Message>, msg: Message)
    requires forall id :: id in messages ==> messages[id].id == id
    requires !(msg.id in messages && messages[msg.id] == msg)
    ensures msg !in messages.Values
  {
  }

  // A heap of two messages of different priority.
  lemma TwoInOrder(pq: seq<Message>, a: Message, b: Message)
    requires a != b && Placed(pq) && Members(pq) == {a, b} && IsHeap(Pris(pq), |pq|) && a.pri < b.pri
    ensures pq == [a, b]
  {
    assert a in Members(pq) && b in Members(pq);
    forall i | 0 <= i < |pq| ensures pq[i] == a || pq[i] == b { assert pq[i] in Members(pq); }
    TopIsFirst(pq);
    assert pq[0] == a;
    forall i | 1 <= i < |pq| ensures pq[i] == b && i == 1 {
      assert pq[i].index == i && pq[0].index == 0;
      var k :| 0 <= k < |pq| && pq[k] == b;
      assert b.index == k;
      assert pq[1].index == 1;
    }
  }

  /** From a new channel two messages are started, and then one of them again: the heap is out of order if
      and only if the first is now later than the second, whichever of them was started again. */
  method RestartBreaksOrder(a: Message, b: Message, again: Message, clientID: int, first: int, second: int, third: int)
      returns (c: Channel)
    requires a.id != b.id && first < second && (again == a || again == b)
    modifies a, b
    ensures c.Synced() && c.inFlightPQ.held == {a, b}
    ensures c.inFlightPQ.InOrder() <==> if again == a then third <= second else first <= third
  {
    hide IsHeap, Pris, Placed, Members;
    c := new Channel();
    var ok := c.StartInFlightTimeout(a, clientID, first);
    assert c.inFlightPQ.held == {a};
    ok := c.StartInFlightTimeout(b, clientID, second);
    assert a.pri == first && b.pri == second;
    TwoInOrder(c.inFlightPQ.pq, a, b);
    PrisOfTwo(c.inFlightPQ.pq, a, b);
    ok := c.StartInFlightTimeout(again, clientID, third);
    assert [first, second][0 := third] == [third, second] && [first, second][1 := third] == [first, third];
    HeapOfTwo(if again == a then [third, second] else [first, third]);
  }

  lemma PrisOfTwo(pq: seq<Message>, a: Message, b: Message)
    requires pq == [a, b] && Placed(pq)
    ensures Pris(pq) == [a.pri, b.pri] && a.index == 0 && b.index == 1
  {
    assert pq[0].index == 0 && pq[1].index == 1;
  }

  lemma HeapOfTwo(p: seq<int>)
    requires |p| == 2
    ensures IsHeap(p, 2) <==> p[0] <= p[1]
  {
    assert Fits(p, 1) <==> p[0] <= p[1];
  }
}
