/** Bounded overtaking: how often a waiting request can be passed by another session of its class. */
module Fairness {
  import opened Slots
  import opened SlotSafety

  ghost predicate IsRunning(st: State, session: string)
  {
    exists i :: 0 <= i < |st.running| && st.running[i].session == session
  }

  ghost predicate IsWaiting(st: State, session: string)
  {
    exists i :: 0 <= i < |st.waiting| && st.waiting[i].session == session
  }

  /** One request at a time: no session waits while it runs. */
  ghost predicate OneEach(st: State)
  {
    forall i, j :: 0 <= i < |st.waiting| && 0 <= j < |st.running| ==> st.waiting[i].session != st.running[j].session
  }

  /** What the sessions do: one request each at a time, charged only while running, and at least a token per slot.
      `paid` holds the running sessions that were charged since their admission. */
  ghost predicate Fair(st: State, paid: set<string>, e: Event)
  {
    match e
    case DoArrive(s, _) => !IsRunning(st, s) && !IsWaiting(st, s)
    case DoCharge(s, n) => IsRunning(st, s)
    case DoRelease(t) => forall i :: 0 <= i < |st.running| && st.running[i].ticket == t ==>
         st.running[i].session in paid
    case _ => true
  }

  ghost function Paid(cfg: Config, st: State, paid: set<string>, e: Event): set<string>
  {
    match e
    case DoAdmit(t) => if IsTurn(cfg, st, t) then paid - {st.waiting[FindWaiter(st.waiting, t)].session} else paid
    case DoCharge(s, n) => if n >= 1 then paid + {s} else paid
    case _ => paid
  }

  ghost predicate FairRun(cfg: Config, st: State, paid: set<string>, es: seq<Event>)
    decreases |es|
  {
    es == [] ||
    (Fair(st, paid, es[0]) && FairRun(cfg, Step(cfg, st, es[0]), Paid(cfg, st, paid, es[0]), es[1..]))
  }

  /** This event admits session `i` in the class of `w`. */
  ghost predicate Passes(cfg: Config, st: State, w: Waiter, i: string, e: Event)
  {
    && e.DoAdmit? && IsTurn(cfg, st, e.ticket) && w in st.waiting
    && var x := st.waiting[FindWaiter(st.waiting, e.ticket)];
       x != w && x.session == i && x.kind == w.kind
  }

  /** How often session `i` is admitted in the class of `w` while `w` still waits. */
  ghost function Overtakes(cfg: Config, st: State, w: Waiter, i: string, es: seq<Event>): nat
    decreases |es|
  {
    if es == [] || w !in st.waiting then 0
    else (if Passes(cfg, st, w, i, es[0]) then 1 else 0) + Overtakes(cfg, Step(cfg, st, es[0]), w, i, es[1..])
  }

  /** What is left of the bound, given what `i` has been served and whether it still owes for its slot. */
  ghost function Allowance(st: State, paid: set<string>, w: Waiter, i: string): nat
  {
    var s, v := Served(st, w.session), Served(st, i);
    var owes := if IsRunning(st, i) && i !in paid then 1 else 0;
    if v + owes > s + 1 then 0 else s - v + 1 - owes
  }

  // ----- one request at a time is kept -----

  /** No session has two waiting requests either. */
  ghost predicate Solo(st: State)
  {
    OneEach(st) && SoloWaiting(st.waiting)
  }

  lemma {:induction false} SoloAdmit(cfg: Caps, st: State, t: nat)
    requires Inv(cfg, st) && Solo(st)
    ensures Solo(Admit(cfg, st, t))
  {
    if IsTurn(cfg, st, t) {
      hide CountClass, Notices, Before, Preemption;
      var m := FindWaiter(st.waiting, t);
      var w := st.waiting[m];
      var st' := Admit(cfg, st, t);
      AdmitSessions(cfg, st, t);
      DropWaiterSessions(st.waiting, t);
      DropWaiterFacts(st.waiting, t);
      forall i, j | 0 <= i < |st'.waiting| && 0 <= j < |st'.running|
        ensures st'.waiting[i].session != st'.running[j].session
      {
        var k :| 0 <= k < |st.waiting| && st.waiting[k] == st'.waiting[i];
        assert k != m;
        if j < |st.running| {
          assert st.waiting[k].session != st.running[j].session;
        }
      }
    }
  }

  ghost predicate SoloWaiting(ws: seq<Waiter>)
  {
    forall i, j :: 0 <= i < j < |ws| ==> ws[i].session != ws[j].session
  }

  lemma {:induction false} SoloCons(w: Waiter, rest: seq<Waiter>)
    requires SoloWaiting(rest) && forall v :: v in rest ==> v.session != w.session
    ensures SoloWaiting([w] + rest)
  {
    var all := [w] + rest;
    assert forall j :: 1 <= j < |all| ==> all[j] == rest[j - 1] && all[j] in rest;
  }

  lemma {:induction false} DropWaiterSessions(ws: seq<Waiter>, t: nat)
    requires SoloWaiting(ws)
    ensures SoloWaiting(DropWaiter(ws, t))
  {
    if ws != [] {
      DropWaiterSessions(ws[1..], t);
      DropWaiterFacts(ws[1..], t);
      assert forall w :: w in ws[1..] ==> w.session != ws[0].session;
      SoloCons(ws[0], DropWaiter(ws[1..], t));
      assert [] + DropWaiter(ws[1..], t) == DropWaiter(ws[1..], t);
    }
  }

  /** Admission keeps the running sessions in place and adds one at the end. */
  lemma {:induction false} AdmitSessions(cfg: Config, st: State, t: nat)
    requires IsTurn(cfg, st, t)
    ensures var st' := Admit(cfg, st, t);
            var w := st.waiting[FindWaiter(st.waiting, t)];
            && st'.waiting == DropWaiter(st.waiting, t) && st'.served == st.served
            && |st'.running| == |st.running| + 1 && st'.running[|st.running|].session == w.session
            && forall j :: 0 <= j < |st.running| ==> st'.running[j].session == st.running[j].session
  {
  }

  lemma {:induction false} ReleaseInPlace(st: State, t: nat)
    ensures var st', rs := Release(st, t), DropRunning(st.running, t);
            && st'.waiting == st.waiting && st'.served == st.served && |st'.running| == |rs|
            && forall j :: 0 <= j < |rs| ==> st'.running[j].session == rs[j].session
  {
    hide Notices, DropRunning;
  }

  lemma {:induction false} ReleasedFrom(st: State, t: nat, j: nat) returns (k: nat)
    requires j < |Release(st, t).running|
    ensures k < |st.running| && st.running[k].session == Release(st, t).running[j].session
  {
    hide Release, DropRunning;
    ReleaseInPlace(st, t);
    DropRunningFacts(st.running, t);
    assert DropRunning(st.running, t)[j] in st.running;
    k :| 0 <= k < |st.running| && st.running[k] == DropRunning(st.running, t)[j];
  }

  lemma {:induction false} StillRunning(st: State, t: nat, k: nat) returns (j: nat)
    requires k < |st.running| && st.running[k].ticket != t
    ensures j < |Release(st, t).running| && Release(st, t).running[j].session == st.running[k].session
  {
    hide Release, DropRunning;
    ReleaseInPlace(st, t);
    DropRunningFacts(st.running, t);
    var r := st.running[k];
    assert r in st.running;
    j :| 0 <= j < |DropRunning(st.running, t)| && DropRunning(st.running, t)[j] == r;
  }

  lemma {:induction false} ReleaseSessions(st: State, t: nat)
    ensures Release(st, t).waiting == st.waiting && Release(st, t).served == st.served
    ensures forall j :: 0 <= j < |Release(st, t).running| ==> IsRunning(st, Release(st, t).running[j].session)
    ensures forall k :: 0 <= k < |st.running| && st.running[k].ticket != t ==>
              IsRunning(Release(st, t), st.running[k].session)
  {
    ReleaseInPlace(st, t);
    hide Release, DropRunning;
    forall j | 0 <= j < |Release(st, t).running|
      ensures IsRunning(st, Release(st, t).running[j].session)
    {
      var k := ReleasedFrom(st, t, j);
    }
    forall k | 0 <= k < |st.running| && st.running[k].ticket != t
      ensures IsRunning(Release(st, t), st.running[k].session)
    {
      var j := StillRunning(st, t, k);
    }
  }

  lemma {:induction false} AttachSessions(st: State, t: nat, target: Target)
    ensures var st' := Attach(st, t, target);
            && st'.waiting == st.waiting && st'.served == st.served && |st'.running| == |st.running|
            && forall j :: 0 <= j < |st.running| ==> st'.running[j].session == st.running[j].session
  {
  }

  lemma {:induction false} SoloStep(cfg: Caps, st: State, paid: set<string>, e: Event)
    requires Inv(cfg, st) && Solo(st) && Fair(st, paid, e)
    ensures Solo(Step(cfg, st, e))
  {
    match e
    case DoArrive(s, c) =>
      assert forall j :: 0 <= j < |st.running| ==> st.running[j].session != s;
      assert forall j :: 0 <= j < |st.waiting| ==> st.waiting[j].session != s;
    case DoAdmit(t) => SoloAdmit(cfg, st, t);
    case DoAttach(t, target) => AttachSessions(st, t, target);
    case DoRelease(t) =>
      hide Release;
      ReleaseSessions(st, t);
      var st' := Release(st, t);
      forall i, j | 0 <= i < |st'.waiting| && 0 <= j < |st'.running|
        ensures st'.waiting[i].session != st'.running[j].session
      {
        assert IsRunning(st, st'.running[j].session);
      }
    case DoCharge(_, _) =>
  }

  // ----- the allowance pays for every pass -----

  lemma {:induction false} AllowanceStep(cfg: Caps, st: State, paid: set<string>, w: Waiter, i: string, e: Event)
    requires Inv(cfg, st) && Solo(st) && Fair(st, paid, e) && w in st.waiting && i != w.session
    requires w in Step(cfg, st, e).waiting
    ensures (if Passes(cfg, st, w, i, e) then 1 else 0) + Allowance(Step(cfg, st, e), Paid(cfg, st, paid, e), w, i)
            <= Allowance(st, paid, w, i)
  {
    match e
    case DoArrive(_, _) =>
    case DoAdmit(t) => AllowanceAdmit(cfg, st, paid, w, i, t);
    case DoAttach(t, target) =>
      AttachSessions(st, t, target);
      RunningSame(st, Attach(st, t, target), i);
    case DoRelease(t) => AllowanceRelease(st, paid, w, i, t);
    case DoCharge(s, n) =>
      assert s != w.session by {
        var j :| 0 <= j < |st.running| && st.running[j].session == s;
        var k :| 0 <= k < |st.waiting| && st.waiting[k] == w;
        assert st.waiting[k].session != st.running[j].session;
      }
  }

  lemma {:induction false} RunningSame(st: State, st': State, i: string)
    requires |st'.running| == |st.running|
    requires forall j :: 0 <= j < |st.running| ==> st'.running[j].session == st.running[j].session
    ensures IsRunning(st', i) == IsRunning(st, i)
  {
    if j :| 0 <= j < |st.running| && st.running[j].session == i {
      assert st'.running[j].session == i;
    }
  }

  lemma {:induction false} AllowanceRelease(st: State, paid: set<string>, w: Waiter, i: string, t: nat)
    requires Fair(st, paid, DoRelease(t))
    ensures Allowance(Release(st, t), paid, w, i) <= Allowance(st, paid, w, i)
  {
    hide Release;
    ReleaseSessions(st, t);
    if IsRunning(st, i) && i !in paid {
      var k :| 0 <= k < |st.running| && st.running[k].session == i;
      assert st.running[k].ticket != t;
      assert IsRunning(Release(st, t), i);
    }
  }

  lemma {:induction false} NobodyBefore(cfg: Caps, st: State, t: nat, w: Waiter)
    requires IsTurn(cfg, st, t) && w in st.waiting
    ensures var x := st.waiting[FindWaiter(st.waiting, t)]; x.kind == w.kind ==> !Before(st, w, x)
  {
    var k :| 0 <= k < |st.waiting| && st.waiting[k] == w;
  }

  lemma {:induction false} AllowanceAdmit(cfg: Caps, st: State, paid: set<string>, w: Waiter, i: string, t: nat)
    requires Inv(cfg, st) && Solo(st) && w in st.waiting && i != w.session
    requires w in Admit(cfg, st, t).waiting
    ensures (if Passes(cfg, st, w, i, DoAdmit(t)) then 1 else 0)
            + Allowance(Admit(cfg, st, t), Paid(cfg, st, paid, DoAdmit(t)), w, i)
            <= Allowance(st, paid, w, i)
  {
    if IsTurn(cfg, st, t) {
      hide Admit, DropWaiter, Inv, Before;
      AdmitSessions(cfg, st, t);
      var m := FindWaiter(st.waiting, t);
      var x, st' := st.waiting[m], Admit(cfg, st, t);
      assert IsRunning(st', x.session) by {
        assert st'.running[|st.running|].session == x.session;
      }
      if x.session == i {
        assert !IsRunning(st, i);
        if x.kind == w.kind {
          NobodyBefore(cfg, st, t, w);
        }
      } else {
        assert IsRunning(st', i) <==> IsRunning(st, i) by {
          if j :| 0 <= j < |st.running| && st.running[j].session == i {
            assert st'.running[j].session == i;
          }
        }
      }
    }
  }

  lemma {:induction false} OvertakesWithinAllowance(cfg: Caps, st: State, paid: set<string>, w: Waiter, i: string,
                                                    es: seq<Event>)
    requires Inv(cfg, st) && Solo(st) && FairRun(cfg, st, paid, es) && i != w.session
    ensures Overtakes(cfg, st, w, i, es) <= Allowance(st, paid, w, i)
    decreases |es|
  {
    hide Inv, Solo, Step, Allowance, Paid, Fair;
    if es != [] && w in st.waiting {
      var st' := Step(cfg, st, es[0]);
      StepKeeps(cfg, st, es[0]);
      SoloStep(cfg, st, paid, es[0]);
      if w in st'.waiting {
        AllowanceStep(cfg, st, paid, w, i, es[0]);
        OvertakesWithinAllowance(cfg, st', Paid(cfg, st, paid, es[0]), w, i, es[1..]);
      } else {
        LastPass(cfg, st, w, i, es);
      }
    }
  }

  /** The event that admits the waiter itself is not a pass. */
  lemma {:induction false} LastPass(cfg: Caps, st: State, w: Waiter, i: string, es: seq<Event>)
    requires Inv(cfg, st) && es != [] && w in st.waiting && w !in Step(cfg, st, es[0]).waiting
    ensures Overtakes(cfg, st, w, i, es) == 0
  {
    hide Release, Attach;
    match es[0]
    case DoArrive(_, _) =>
    case DoAdmit(t) =>
      DropWaiterFacts(st.waiting, t);
      assert w.ticket == t;
      var k :| 0 <= k < |st.waiting| && st.waiting[k] == w;
      assert FindWaiter(st.waiting, t) == k;
    case DoAttach(t, target) => AttachSessions(st, t, target);
    case DoRelease(t) => ReleaseSessions(st, t);
    case DoCharge(_, _) =>
  }

  /** A waiter with service `s` is passed by a session of its class with service `s_i` at most `max(0, s - s_i + 1)`
      times. */
  lemma {:induction false} BoundedOvertaking(cfg: Caps, st: State, paid: set<string>, w: Waiter, i: string,
                                             es: seq<Event>)
    requires Inv(cfg, st) && Solo(st) && FairRun(cfg, st, paid, es) && w in st.waiting && i != w.session
    ensures var s, v := Served(st, w.session), Served(st, i);
            Overtakes(cfg, st, w, i, es) <= if v > s + 1 then 0 else s - v + 1
  {
    OvertakesWithinAllowance(cfg, st, paid, w, i, es);
  }

  /** The bound's hypotheses hold in every state that a fair run reaches from the start. */
  lemma {:induction false} FairRunsReach(cfg: Caps, st: State, paid: set<string>, es: seq<Event>)
    requires Inv(cfg, st) && Solo(st) && FairRun(cfg, st, paid, es)
    ensures Inv(cfg, Run(cfg, st, es)) && Solo(Run(cfg, st, es))
    decreases |es|
  {
    hide Inv, Solo, Step, Paid, Fair;
    if es != [] {
      StepKeeps(cfg, st, es[0]);
      SoloStep(cfg, st, paid, es[0]);
      FairRunsReach(cfg, Step(cfg, st, es[0]), Paid(cfg, st, paid, es[0]), es[1..]);
    }
  }

  /** In every state that a run reaches, whoever passes a waiter has been served less, or as much with an earlier
      ticket:
      nobody is passed by a later arrival of its class with the same service. */
  lemma {:induction false} NoLaterEqualPasses(cfg: Caps, es: seq<Event>, w: Waiter, i: string, e: Event)
    requires Passes(cfg, Run(cfg, INITIAL, es), w, i, e)
    ensures var st := Run(cfg, INITIAL, es);
            || Served(st, i) < Served(st, w.session)
            || (Served(st, i) == Served(st, w.session) && e.ticket < w.ticket)
  {
    hide Run, IsTurn;
    var st := Run(cfg, INITIAL, es);
    EveryRunIsSafe(cfg, es);
    TurnExact(cfg, st, e.ticket);
    var x :| GoesNext(cfg, st, x, e.ticket);
    var y := st.waiting[FindWaiter(st.waiting, e.ticket)];
    assert x == y by {
      var k :| 0 <= k < |st.waiting| && st.waiting[k] == x;
    }
  }
}
