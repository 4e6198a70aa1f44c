/** The view service: how views follow each other over any sequence of pings and ticks. */
module ViewService {

  datatype View = View(viewnum: nat, primary: string, backup: string)

  const DEAD_PINGS := 5

  datatype Server = Server(view: View, primaryAcked: nat, primaryTick: nat, currentTick: nat, backupTick: nat) {
    predicate Acked() { primaryAcked == view.viewnum }
  }

  const START := Server(View(0, "", ""), 0, 0, 0, 0)

  function Pinged(s: Server, me: string, viewnum: nat): Server {
    if s.view.viewnum == 0 && s.view.primary == "" then
      s.(view := View(1, me, s.view.backup), primaryAcked := 0, primaryTick := s.currentTick)
    else if s.view.primary == me then
      if viewnum != 0 then s.(primaryAcked := viewnum, primaryTick := s.currentTick)
      else if s.view.backup != "" then Promoted(s)
      else s
    else if s.view.backup == "" && s.Acked() then
      s.(view := View(s.view.viewnum + 1, s.view.primary, me), backupTick := s.currentTick)
    else if s.view.backup == me then
      var s' := s.(backupTick := s.currentTick);
      if viewnum == 0 && s.Acked() then s'.(view := s.view.(viewnum := s.view.viewnum + 1)) else s'
    else s
  }

  // The backup, if any, becomes primary.
  function Promoted(s: Server): Server {
    s.(view := View(s.view.viewnum + 1, s.view.backup, ""), primaryAcked := 0, primaryTick := s.backupTick)
  }

  // Go's difference of unsigned numbers.
  function Since(now: nat, tick: nat): nat { (now - tick) % 0x1_0000_0000_0000_0000 }

  function Ticked(s: Server): Server {
    var s1 := s.(currentTick := s.currentTick + 1);
    var s2 := if Since(s1.currentTick, s1.primaryTick) >= DEAD_PINGS && s1.Acked() then Promoted(s1) else s1;
    if s2.view.backup != "" && Since(s2.currentTick, s2.backupTick) >= DEAD_PINGS && s2.Acked()
    then s2.(view := View(s2.view.viewnum + 1, s2.view.primary, ""))
    else s2
  }

  class ViewServer {
    var view: View
    var primaryAcked: nat
    var primaryTick: nat
    var currentTick: nat
    var backupTick: nat

    ghost function State(): Server
      reads this
    {
      Server(view, primaryAcked, primaryTick, currentTick, backupTick)
    }

    constructor ()
      ensures State() == START
    {
      view, primaryAcked, primaryTick, currentTick, backupTick := View(0, "", ""), 0, 0, 0, 0;
    }

    method Ping(me: string, viewnum: nat) returns (reply: View)
      modifies this
      ensures State() == Pinged(old(State()), me, viewnum) && reply == view
    {
      if view.viewnum == 0 && view.primary == "" {
        view := view.(viewnum := view.viewnum + 1);
        view := view.(primary := me);
        primaryAcked := 0;
        primaryTick := currentTick;
      } else if view.primary == me {
        if viewnum == 0 {
          if view.backup != "" {
            view := view.(primary := view.backup);
            view := view.(backup := "");
            primaryAcked := 0;
            primaryTick := backupTick;
            view := view.(viewnum := view.viewnum + 1);
          }
        } else {
          primaryAcked := viewnum;
          primaryTick := currentTick;
        }
      } else if view.backup == "" && primaryAcked == view.viewnum {
        view := view.(backup := me);
        view := view.(viewnum := view.viewnum + 1);
        backupTick := currentTick;
      } else if view.backup == me {
        backupTick := currentTick;
        if viewnum == 0 && primaryAcked == view.viewnum {
          view := view.(viewnum := view.viewnum + 1);
        }
      }
      reply := view;
    }

    method Tick()
      modifies this
      ensures State() == Ticked(old(State()))
    {
      currentTick := currentTick + 1;
      if (currentTick - primaryTick) % 0x1_0000_0000_0000_0000 >= DEAD_PINGS && primaryAcked == view.viewnum {
        view := view.(primary := view.backup);
        view := view.(backup := "");
        primaryAcked := 0;
        primaryTick := backupTick;
        view := view.(viewnum := view.viewnum + 1);
      }
      if view.backup != "" && (currentTick - backupTick) % 0x1_0000_0000_0000_0000 >= DEAD_PINGS
         && primaryAcked == view.viewnum {
        view := view.(backup := "");
        view := view.(viewnum := view.viewnum + 1);
      }
    }
  }

  /* ---- runs ---- */

  datatype Event = Ping(me: string, viewnum: nat) | Tick

  function Does(s: Server, e: Event): Server {
    match e
    case Ping(me, viewnum) => Pinged(s, me, viewnum)
    case Tick => Ticked(s)
  }

  // The state a run of calls leads to.
  function After(es: seq<Event>): Server {
    if es == [] then START else Does(After(es[..|es| - 1]), es[|es| - 1])
  }

  // Servers have names.
  predicate Named(es: seq<Event>) { forall i :: 0 <= i < |es| ==> es[i].Ping? ==> es[i].me != "" }

  lemma OneMore(es: seq<Event>, e: Event)
    ensures After(es + [e]) == Does(After(es), e)
    ensures Named(es + [e]) ==> Named(es) && (e.Ping? ==> e.me != "")
  {
    assert (es + [e])[..|es|] == es && (es + [e])[|es|] == e;
    assert forall i :: 0 <= i < |es| ==> es[i] == (es + [e])[i];
  }

  // What every reachable state has.
  predicate Sound(s: Server) {
    && s.primaryTick <= s.currentTick && s.backupTick <= s.currentTick
    && (s.view.primary != "" ==> s.view.primary != s.view.backup)
    && (s.view.viewnum == 0 ==> s.view == START.view)
    && (s.view.primary == "" ==> s.view.backup == "" && s.primaryAcked == 0)
  }

  // How one view follows another.
  predicate Follows(v: View, v': View) {
    v' == v || (v'.viewnum == v.viewnum + 1 && (v.viewnum > 0 ==> v'.primary == v.primary || v'.primary == v.backup))
  }

  lemma StepKeeps(s: Server, e: Event)
    requires Sound(s) && (e.Ping? ==> e.me != "")
    ensures Sound(Does(s, e)) && Follows(s.view, Does(s, e).view)
  {
  }

  lemma {:induction false} RunIsSound(es: seq<Event>)
    requires Named(es)
    ensures Sound(After(es))
  {
    if es != [] {
      RunIsSound(es[..|es| - 1]);
      StepKeeps(After(es[..|es| - 1]), es[|es| - 1]);
    }
  }

  /** Views are numbered one after another, and each primary after view 1 was primary or backup of the
      view before. */
  lemma {:induction false} Lineage(es: seq<Event>, e: Event)
    requires Named(es + [e])
    ensures Follows(After(es).view, After(es + [e]).view)
  {
    OneMore(es, e);
    RunIsSound(es);
    StepKeeps(After(es), e);
  }

  /** Primary and backup never coincide, and the tick differences never wrap. */
  lemma {:induction false} NeverBothAndNoUnderflow(es: seq<Event>)
    requires Named(es)
    ensures var s := After(es);
            (s.view.primary != "" ==> s.view.primary != s.view.backup) &&
            s.primaryTick <= s.currentTick && s.backupTick <= s.currentTick
  {
    RunIsSound(es);
  }

  /** A view above 0 without a primary is the last one. */
  lemma {:induction false} DeadViewStays(es: seq<Event>, more: seq<Event>)
    requires Named(es) && Named(more) && After(es).view.viewnum > 0 && After(es).view.primary == ""
    ensures After(es + more).view == After(es).view
    decreases |more|
  {
    if more == [] {
      assert es + more == es;
    } else {
      var before := more[..|more| - 1];
      DeadViewStays(es, before);
      assert (es + more)[..|es + more| - 1] == es + before;
      RunIsSound(es + before);
    }
  }

  /** A primary is lost for good exactly when a tick finds it five ticks late, its view acknowledged,
      and no backup to promote. */
  lemma {:induction false} DiesExactly(es: seq<Event>, e: Event)
    requires Named(es + [e]) && After(es).view.primary != ""
    ensures After(es + [e]).view.primary == ""
            <==> var s := After(es);
                 e.Tick? && Since(s.currentTick + 1, s.primaryTick) >= DEAD_PINGS && s.Acked() && s.view.backup == ""
  {
    hide After, Named, Since;
    OneMore(es, e);
    RunIsSound(es);
  }

  /** A view is left before its primary acknowledged it exactly when the primary pings as restarted while
      there is a backup, against what the package documents; the backup then leads the next view. */
  lemma {:induction false} LeftUnacknowledged(es: seq<Event>, e: Event)
    requires Named(es + [e]) && After(es).view.viewnum > 0 && !After(es).Acked()
    ensures var s, s' := After(es), After(es + [e]);
            (s'.view != s.view <==> s.view.backup != "" && e == Ping(s.view.primary, 0)) &&
            (s'.view != s.view ==> s'.view == View(s.view.viewnum + 1, s.view.backup, ""))
  {
    hide After, Named;
    OneMore(es, e);
    RunIsSound(es);
  }

  /** And it happens: view 2, of a and b, gives way to view 3 without a's acknowledgement. */
  lemma RestartLeavesUnacknowledged(a: string, b: string)
    requires a != "" && b != "" && a != b
    ensures var es := [Ping(a, 0), Ping(a, 1), Ping(b, 0)];
            After(es).view == View(2, a, b) && !After(es).Acked() &&
            After(es + [Ping(a, 0)]).view == View(3, b, "")
  {
    hide After;
    var r0: seq<Event> := [];
    var r1, r2, r3 := [Ping(a, 0)], [Ping(a, 0), Ping(a, 1)], [Ping(a, 0), Ping(a, 1), Ping(b, 0)];
    assert r0 + [Ping(a, 0)] == r1 && r1 + [Ping(a, 1)] == r2 && r2 + [Ping(b, 0)] == r3;
    NoCalls();
    OneMore(r0, Ping(a, 0));
    OneMore(r1, Ping(a, 1));
    OneMore(r2, Ping(b, 0));
    OneMore(r3, Ping(a, 0));
  }

  lemma NoCalls()
    ensures After([]) == START
  {
  }

  /* ---- the views, told by the calls alone ---- */

  predicate InView(v: View, who: string) { v.primary == who || v.backup == who }

  // The call after es is a sign of life of `who`: its ping finds or gives it a place in the view, and is not
  // that of a primary that has restarted.
  predicate Lives(es: seq<Event>, e: Event, who: string) {
    && e.Ping? && e.me == who && InView(After(es + [e]).view, who)
    && (After(es).view.primary == who ==> e.viewnum != 0)
  }

  // The ticks since the last sign of life.
  function Silence(es: seq<Event>, who: string): nat {
    if es == [] then 0
    else
      var before, e := es[..|es| - 1], es[|es| - 1];
      if Lives(before, e, who) then 0 else Silence(before, who) + if e.Tick? then 1 else 0
  }

  // The number in the last ping of the present primary since it is primary, if that was not 0.
  function LastAck(es: seq<Event>): nat {
    if es == [] then 0
    else
      var before, e := es[..|es| - 1], es[|es| - 1];
      if After(es).view.primary != After(before).view.primary then 0
      else if e.Ping? && e.me == After(before).view.primary && e.viewnum != 0 then e.viewnum
      else LastAck(before)
  }

  // The primary has acknowledged the present view.
  predicate Acknowledged(es: seq<Event>) { LastAck(es) == After(es).view.viewnum }

  predicate Late(es: seq<Event>, who: string) { Since(Silence(es, who) + 1, 0) >= DEAD_PINGS }

  lemma OneCallMore(es: seq<Event>, e: Event, who: string)
    ensures Silence(es + [e], who) == if Lives(es, e, who) then 0 else Silence(es, who) + if e.Tick? then 1 else 0
    ensures LastAck(es + [e]) ==
            if After(es + [e]).view.primary != After(es).view.primary then 0
            else if e.Ping? && e.me == After(es).view.primary && e.viewnum != 0 then e.viewnum
            else LastAck(es)
  {
    assert (es + [e])[..|es|] == es && (es + [e])[|es|] == e;
  }

  // The server's counters say what the calls said.
  ghost predicate Counts(es: seq<Event>) {
    var s := After(es);
    && Sound(s) && s.primaryAcked == LastAck(es)
    && (s.view.primary != "" ==> s.currentTick - s.primaryTick == Silence(es, s.view.primary))
    && (s.view.backup != "" ==> s.currentTick - s.backupTick == Silence(es, s.view.backup))
  }

  lemma CountsOn(es: seq<Event>, e: Event)
    requires Named(es + [e]) && Counts(es)
    ensures Counts(es + [e])
  {
    var s, s' := After(es), After(es + [e]);
    OneMore(es, e);
    StepKeeps(s, e);
    hide After, Named, Silence, LastAck, Since;
    OneCallMore(es, e, s'.view.primary);
    OneCallMore(es, e, s'.view.backup);
    hide Sound;
    assert s.view.primary == "" ==> s.view.backup == "";
  }

  lemma {:induction false} AllCounted(es: seq<Event>)
    requires Named(es)
    ensures Counts(es)
  {
    if es == [] {
      NoCalls();
    } else {
      var before := es[..|es| - 1];
      assert before + [es[|es| - 1]] == es;
      OneMore(before, es[|es| - 1]);
      AllCounted(before);
      CountsOn(before, es[|es| - 1]);
    }
  }

  lemma SinceIs(s: Server)
    requires Sound(s)
    ensures Since(s.currentTick + 1, s.primaryTick) == Since(s.currentTick - s.primaryTick + 1, 0)
    ensures Since(s.currentTick + 1, s.backupTick) == Since(s.currentTick - s.backupTick + 1, 0)
  {
  }

  /** A tick takes the place of a primary away exactly when the view is acknowledged and five ticks, this one
      included, have passed without a sign of life; its backup, if any, takes over. */
  lemma PrimaryLostExactly(es: seq<Event>)
    requires Named(es) && After(es).view.primary != ""
    ensures var v, v' := After(es).view, After(es + [Tick]).view;
            && (v'.primary != v.primary <==> Acknowledged(es) && Late(es, v.primary))
            && (v'.primary != v.primary ==> v' == View(v.viewnum + 1, v.backup, ""))
  {
    AllCounted(es);
    OneMore(es, Tick);
    SinceIs(After(es));
    hide After, Named, Silence, LastAck, Since;
  }

  // The same on the server's own counters.
  lemma TickDrops(s: Server)
    requires Sound(s) && s.view.backup != "" && s.view.primary != ""
    ensures var v, v' := s.view, Ticked(s).view;
            && (!InView(v', v.backup) <==> s.Acked() && Since(s.currentTick + 1, s.primaryTick) < DEAD_PINGS
                                           && Since(s.currentTick + 1, s.backupTick) >= DEAD_PINGS)
            && (!InView(v', v.backup) ==> v' == View(v.viewnum + 1, v.primary, ""))
  {
    hide Since;
  }

  /** A tick drops a backup exactly when the view is acknowledged, the primary is not late, and five ticks
      have passed without a sign of life of the backup. */
  lemma BackupDroppedExactly(es: seq<Event>)
    requires Named(es) && After(es).view.backup != ""
    ensures var v, v' := After(es).view, After(es + [Tick]).view;
            && (!InView(v', v.backup) <==> Acknowledged(es) && !Late(es, v.primary) && Late(es, v.backup))
            && (!InView(v', v.backup) ==> v' == View(v.viewnum + 1, v.primary, ""))
  {
    AllCounted(es);
    OneMore(es, Tick);
    SinceIs(After(es));
    TickDrops(After(es));
    hide After, Named, Silence, LastAck, Since, Ticked, Sound;
  }

  /** The view a ping leads to: the first server leads; a restarted primary gives way to its backup; into
      an acknowledged view without a backup a server joins as backup, and one whose backup restarted gets a
      new number. Nothing else moves the view. */
  lemma PingMovesExactly(es: seq<Event>, me: string, viewnum: nat)
    requires Named(es + [Ping(me, viewnum)])
    ensures var v, v' := After(es).view, After(es + [Ping(me, viewnum)]).view;
            && (v.viewnum == 0 ==> v' == View(1, me, ""))
            && (v.viewnum > 0 ==>
                  var gives := me == v.primary && viewnum == 0 && v.backup != "";
                  var joins := me != v.primary && v.backup == "" && Acknowledged(es);
                  var again := me == v.backup && viewnum == 0 && Acknowledged(es);
                  && (v' != v <==> gives || joins || again)
                  && (gives ==> v' == View(v.viewnum + 1, v.backup, ""))
                  && (joins ==> v' == View(v.viewnum + 1, v.primary, me))
                  && (again ==> v' == View(v.viewnum + 1, v.primary, v.backup)))
  {
    OneMore(es, Ping(me, viewnum));
    AllCounted(es);
    hide After, Named, Silence, LastAck;
  }

  /* ---- the start ---- */

  predicate AllTicks(es: seq<Event>) { forall i :: 0 <= i < |es| ==> es[i].Tick? }

  lemma {:induction false} OnlyTicks(es: seq<Event>)
    requires AllTicks(es)
    ensures if |es| < DEAD_PINGS then After(es) == START.(currentTick := |es|)
            else After(es).view == View(1, "", "")
  {
    hide After;
    if es == [] {
      NoCalls();
    } else {
      var before := es[..|es| - 1];
      assert before + [Tick] == es;
      OnlyTicks(before);
      OneMore(before, Tick);
      if |es| > DEAD_PINGS { DeadViewStays(before, [Tick]); }
    }
  }

  ghost predicate EverPrimary(es: seq<Event>) {
    exists i :: 0 <= i <= |es| && PrimaryAt(es, i)
  }

  predicate PrimaryAt(es: seq<Event>, i: nat)
    requires i <= |es|
  {
    After(es[..i]).view.primary != ""
  }

  lemma OneTickMore(es: seq<Event>, k: nat)
    requires k < |es| && es[0].Tick? && AllTicks(es[1..][..k])
    ensures AllTicks(es[..k + 1])
  {
    assert es[..k + 1] == [es[0]] + es[1..][..k];
  }

  // The number of ticks before the first ping.
  function Leading(es: seq<Event>): (k: nat)
    ensures k <= |es| && AllTicks(es[..k]) && (k < |es| ==> es[k].Ping?)
  {
    if es == [] || es[0].Ping? then 0
    else
      var k := Leading(es[1..]);
      assert AllTicks(es[..k + 1]) by { OneTickMore(es, k); }
      k + 1
  }

  /** A run gets a primary exactly when a server pings within the first five calls: five ticks before the
      first ping make the service useless for good. */
  lemma GetsPrimaryExactly(es: seq<Event>)
    requires Named(es)
    ensures EverPrimary(es) <==> exists k :: 0 <= k < DEAD_PINGS && k < |es| && es[k].Ping?
  {
    var k := Leading(es);
    if k < |es| && k < DEAD_PINGS {
      OnlyTicks(es[..k]);
      assert es[..k + 1] == es[..k] + [es[k]];
      OneMore(es[..k], es[k]);
      assert PrimaryAt(es, k + 1);
    } else {
      forall i | 0 <= i <= |es| ensures !PrimaryAt(es, i) { NeverLed(es, k, i); }
      forall j | 0 <= j < DEAD_PINGS && j < |es| ensures es[j].Tick? { assert es[..k][j].Tick?; }
    }
  }

  lemma NeverLed(es: seq<Event>, k: nat, i: nat)
    requires Named(es) && i <= |es| && k <= |es| && AllTicks(es[..k]) && (k == |es| || k >= DEAD_PINGS)
    ensures After(es[..i]).view.primary == ""
  {
    if i <= k {
      assert AllTicks(es[..i]) by {
        forall j | 0 <= j < i ensures es[..i][j].Tick? { assert es[..i][j] == es[..k][j]; }
      }
      OnlyTicks(es[..i]);
    } else {
      OnlyTicks(es[..k]);
      assert es[..i] == es[..k] + es[k..i];
      DeadViewStays(es[..k], es[k..i]);
    }
  }
}
