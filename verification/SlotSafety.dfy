/** Safety of admission and preemption over every run. */
module SlotSafety {
  import opened Bytes
  import opened Slots

  // ----- dropping entries -----

  lemma {:induction false} DropWaiterFacts(ws: seq<Waiter>, ticket: nat)
    ensures forall i :: 0 <= i < |DropWaiter(ws, ticket)| ==>
              DropWaiter(ws, ticket)[i] in ws && DropWaiter(ws, ticket)[i].ticket != ticket
    ensures forall w :: w in ws && w.ticket != ticket ==> w in DropWaiter(ws, ticket)
    ensures (forall i, j :: 0 <= i < j < |ws| ==> ws[i].ticket != ws[j].ticket) ==>
              forall i, j :: 0 <= i < j < |DropWaiter(ws, ticket)| ==>
                DropWaiter(ws, ticket)[i].ticket != DropWaiter(ws, ticket)[j].ticket
  {
    if ws != [] {
      DropWaiterFacts(ws[1..], ticket);
      assert forall w :: w in ws <==> w == ws[0] || w in ws[1..];
    }
  }

  lemma {:induction false} DropRunningFacts(rs: seq<Running>, ticket: nat)
    ensures forall i :: 0 <= i < |DropRunning(rs, ticket)| ==>
              DropRunning(rs, ticket)[i] in rs && DropRunning(rs, ticket)[i].ticket != ticket
    ensures forall r :: r in rs && r.ticket != ticket ==> r in DropRunning(rs, ticket)
  {
    if rs != [] {
      DropRunningFacts(rs[1..], ticket);
      assert forall r :: r in rs <==> r == rs[0] || r in rs[1..];
    }
  }

  ghost predicate UniqueTickets(rs: seq<Running>)
  {
    forall i, j :: 0 <= i < j < |rs| ==> rs[i].ticket != rs[j].ticket
  }

  lemma {:induction false} DropRunningUnique(rs: seq<Running>, ticket: nat)
    requires UniqueTickets(rs)
    ensures UniqueTickets(DropRunning(rs, ticket))
  {
    if rs != [] {
      DropRunningUnique(rs[1..], ticket);
      DropRunningFacts(rs[1..], ticket);
      assert forall r :: r in rs[1..] ==> r.ticket != rs[0].ticket;
    }
  }

  lemma {:induction false} DropRunningCount(rs: seq<Running>, ticket: nat, c: Class)
    ensures CountClass(DropRunning(rs, ticket), c) <= CountClass(rs, c)
  {
    if rs != [] {
      DropRunningCount(rs[1..], ticket, c);
      if rs[0].ticket != ticket {
        assert DropRunning(rs, ticket)[1..] == DropRunning(rs[1..], ticket);
      } else {
        assert DropRunning(rs, ticket) == DropRunning(rs[1..], ticket);
      }
    }
  }

  lemma {:induction false} CountSetAll(rs: seq<Running>, paused: bool, c: Class)
    ensures CountClass(SetAll(rs, paused), c) == CountClass(rs, c)
  {
    if rs != [] {
      CountSetAll(rs[1..], paused, c);
      assert SetAll(rs, paused)[1..] == SetAll(rs[1..], paused);
    }
  }

  lemma {:induction false} CountSnoc(rs: seq<Running>, r: Running, c: Class)
    ensures CountClass(rs + [r], c) == CountClass(rs, c) + if r.kind == c then 1 else 0
  {
    if rs == [] {
      assert rs + [r] == [r] && [r][1..] == [];
    } else {
      assert (rs + [r])[1..] == rs[1..] + [r];
      CountSnoc(rs[1..], r, c);
    }
  }

  lemma {:induction false} CountUpdate(rs: seq<Running>, i: nat, r: Running, c: Class)
    requires i < |rs| && r.kind == rs[i].kind
    ensures CountClass(rs[i := r], c) == CountClass(rs, c)
  {
    if i == 0 {
      assert rs[0 := r][1..] == rs[1..];
    } else {
      assert rs[i := r][1..] == rs[1..][i - 1 := r];
      CountUpdate(rs[1..], i - 1, r, c);
    }
  }

  // ----- each step keeps the invariant -----

  lemma {:induction false} AdmitTickets(cfg: Caps, st: State, ticket: nat)
    requires Tickets(st) && IsTurn(cfg, st, ticket)
    ensures Tickets(Admit(cfg, st, ticket))
  {
    hide Notices, CountClass, DropWaiter, Before;
    DropWaiterFacts(st.waiting, ticket);
    var w := st.waiting[FindWaiter(st.waiting, ticket)];
    var rs := st.running + [Running(ticket, w.session, w.kind, None, false)];
    var st' := Admit(cfg, st, ticket);
    assert forall i :: 0 <= i < |rs| ==> st'.running[i].ticket == rs[i].ticket;
  }

  lemma {:induction false} AdmitKeeps(cfg: Caps, st: State, ticket: nat)
    requires Inv(cfg, st)
    ensures Inv(cfg, Admit(cfg, st, ticket))
  {
    if IsTurn(cfg, st, ticket) {
      AdmitTickets(cfg, st, ticket);
      hide Notices, CountClass, DropWaiter, Tickets, Before;
      var w := st.waiting[FindWaiter(st.waiting, ticket)];
      var r := Running(ticket, w.session, w.kind, None, false);
      var rs := st.running + [r];
      CountSnoc(st.running, r, Interactive);
      CountSnoc(st.running, r, Background);
      CountSetAll(rs, true, Interactive);
      CountSetAll(rs, true, Background);
      AdmittedFlags(st.running, r);
    }
  }

  lemma {:induction false} AdmittedFlags(before: seq<Running>, r: Running)
    requires Preemption(before) && r.target.None? && !r.paused
    ensures var rs := before + [r];
            Preemption(if r.kind.Interactive? then SetAll(rs, true) else rs)
  {
    var rs := before + [r];
    InteractiveSnoc(before, r);
    SetAllInteractive(rs, true);
  }

  lemma {:induction false} InteractiveSnoc(rs: seq<Running>, r: Running)
    ensures SomeInteractive(rs + [r]) <==> SomeInteractive(rs) || r.kind.Interactive?
  {
    var all := rs + [r];
    if SomeInteractive(rs) {
      var i :| 0 <= i < |rs| && rs[i].kind.Interactive?;
      assert all[i].kind.Interactive?;
    }
    if r.kind.Interactive? {
      assert all[|rs|].kind.Interactive?;
    }
  }

  lemma {:induction false} SetAllInteractive(rs: seq<Running>, paused: bool)
    ensures SomeInteractive(SetAll(rs, paused)) <==> SomeInteractive(rs)
  {
    var out := SetAll(rs, paused);
    if i :| 0 <= i < |rs| && rs[i].kind.Interactive? {
      assert out[i].kind.Interactive?;
    }
    if i :| 0 <= i < |out| && out[i].kind.Interactive? {
      assert rs[i].kind.Interactive?;
    }
  }

  lemma {:induction false} AttachKeeps(cfg: Caps, st: State, ticket: nat, t: Target)
    requires Inv(cfg, st)
    ensures Inv(cfg, Attach(st, ticket, t))
  {
    hide CountClass;
    var i := FindRunning(st.running, ticket);
    if i >= 0 {
      var st' := Attach(st, ticket, t);
      CountUpdate(st.running, i, st'.running[i], Interactive);
      CountUpdate(st.running, i, st'.running[i], Background);
      AttachInteractive(st, ticket, t);
    }
  }

  lemma {:induction false} AttachInteractive(st: State, ticket: nat, t: Target)
    requires FindRunning(st.running, ticket) >= 0
    ensures SomeInteractive(Attach(st, ticket, t).running) <==> SomeInteractive(st.running)
    ensures var i := FindRunning(st.running, ticket);
            st.running[i].kind.Background? ==> (OtherInteractive(st.running, ticket) ==> SomeInteractive(st.running))
    ensures var i := FindRunning(st.running, ticket);
            UniqueTickets(st.running) && st.running[i].kind.Background? && SomeInteractive(st.running) ==>
              OtherInteractive(st.running, ticket)
  {
    var st' := Attach(st, ticket, t);
    if k :| 0 <= k < |st.running| && st.running[k].kind.Interactive? {
      assert st'.running[k].kind.Interactive?;
      assert UniqueTickets(st.running) && k != FindRunning(st.running, ticket) ==> st.running[k].ticket != ticket;
    }
    if k :| 0 <= k < |st'.running| && st'.running[k].kind.Interactive? {
      assert st.running[k].kind.Interactive?;
    }
  }

  lemma {:induction false} ReleaseTickets(st: State, ticket: nat)
    requires Tickets(st)
    ensures Tickets(Release(st, ticket))
  {
    hide Notices, DropRunning;
    var rs := DropRunning(st.running, ticket);
    DropRunningFacts(st.running, ticket);
    DropRunningUnique(st.running, ticket);
    assert UniqueTickets(rs);
    var st' := Release(st, ticket);
    assert forall i :: 0 <= i < |rs| ==> st'.running[i].ticket == rs[i].ticket && rs[i] in st.running;
  }

  lemma {:induction false} ReleasedFlags(before: seq<Running>, ticket: nat)
    requires Preemption(before)
    ensures var rs := DropRunning(before, ticket);
            Preemption(if SomeInteractive(rs) then rs else SetAll(rs, false))
  {
    hide DropRunning;
    var rs := DropRunning(before, ticket);
    DropRunningFacts(before, ticket);
    if SomeInteractive(rs) {
      var k :| 0 <= k < |rs| && rs[k].kind.Interactive?;
      assert rs[k] in before;
    } else {
      SetAllInteractive(rs, false);
    }
  }

  lemma {:induction false} ReleaseKeeps(cfg: Caps, st: State, ticket: nat)
    requires Inv(cfg, st)
    ensures Inv(cfg, Release(st, ticket))
  {
    hide Notices, CountClass, DropRunning, Tickets, Preemption;
    var rs := DropRunning(st.running, ticket);
    ReleaseTickets(st, ticket);
    ReleasedFlags(st.running, ticket);
    DropRunningCount(st.running, ticket, Interactive);
    DropRunningCount(st.running, ticket, Background);
    CountSetAll(rs, false, Interactive);
    CountSetAll(rs, false, Background);
  }

  lemma {:induction false} StepKeeps(cfg: Caps, st: State, e: Event)
    requires Inv(cfg, st)
    ensures Inv(cfg, Step(cfg, st, e))
  {
    match e
    case DoArrive(_, _) =>
    case DoAdmit(t) => AdmitKeeps(cfg, st, t);
    case DoAttach(t, target) => AttachKeeps(cfg, st, t, target);
    case DoRelease(t) => ReleaseKeeps(cfg, st, t);
    case DoCharge(_, _) =>
  }

  // ----- runs -----

  function Run(cfg: Config, st: State, es: seq<Event>): State
    decreases |es|
  {
    if es == [] then st else Run(cfg, Step(cfg, st, es[0]), es[1..])
  }

  lemma {:induction false} RunKeeps(cfg: Caps, st: State, es: seq<Event>)
    requires Inv(cfg, st)
    ensures Inv(cfg, Run(cfg, st, es))
    decreases |es|
  {
    hide Inv, Step;
    if es != [] {
      StepKeeps(cfg, st, es[0]);
      RunKeeps(cfg, Step(cfg, st, es[0]), es[1..]);
    }
  }

  /** Tickets, caps and preemption flags are right after every run from the start, whatever is attached. */
  lemma {:induction false} EveryRunIsSafe(cfg: Caps, es: seq<Event>)
    ensures Inv(cfg, Run(cfg, INITIAL, es))
  {
    RunKeeps(cfg, INITIAL, es);
  }

  // ----- who may go next -----

  lemma {:induction false} SameTurn(cfg: Caps, st: State, a: nat, b: nat)
    requires Inv(cfg, st) && IsTurn(cfg, st, a) && IsTurn(cfg, st, b)
    ensures a == b
  {
    var i, j := FindWaiter(st.waiting, a), FindWaiter(st.waiting, b);
    assert !Before(st, st.waiting[i], st.waiting[j]) && !Before(st, st.waiting[j], st.waiting[i]);
  }

  /** At most one waiter is eligible, in every state that a run reaches. */
  lemma {:induction false} OneEligible(cfg: Caps, es: seq<Event>, a: nat, b: nat)
    requires var st := Run(cfg, INITIAL, es);
             IsTurn(cfg, st, a) && IsTurn(cfg, st, b)
    ensures a == b
  {
    EveryRunIsSafe(cfg, es);
    SameTurn(cfg, Run(cfg, INITIAL, es), a, b);
  }

  lemma {:induction false} FirstWaiter(st: State, n: nat) returns (m: nat)
    requires 0 < n <= |st.waiting|
    ensures m < n && forall k :: 0 <= k < n ==> !Before(st, st.waiting[k], st.waiting[m])
  {
    if n == 1 {
      m := 0;
    } else {
      var p := FirstWaiter(st, n - 1);
      m := if Before(st, st.waiting[n - 1], st.waiting[p]) then n - 1 else p;
    }
  }

  /** Whenever nothing runs and someone waits, exactly one waiter is eligible: the daemon cannot wedge. */
  lemma {:induction false} SomeoneEligible(cfg: Caps, es: seq<Event>) returns (ticket: nat)
    requires var st := Run(cfg, INITIAL, es);
             st.running == [] && st.waiting != []
    ensures var st := Run(cfg, INITIAL, es);
            IsTurn(cfg, st, ticket) && forall other :: IsTurn(cfg, st, other) ==> other == ticket
  {
    EveryRunIsSafe(cfg, es);
    var st := Run(cfg, INITIAL, es);
    hide Run;
    var m := FirstWaiter(st, |st.waiting|);
    ticket := st.waiting[m].ticket;
    assert FindWaiter(st.waiting, ticket) == m;
    forall other | IsTurn(cfg, st, other)
      ensures other == ticket
    {
      SameTurn(cfg, st, other, ticket);
    }
  }

  // ----- the order of admission, written out -----

  ghost function Members(rs: seq<Running>, c: Class): set<nat>
  {
    set i: nat | i < |rs| && rs[i].kind == c
  }

  lemma {:induction false} MembersSnoc(rs: seq<Running>, r: Running, c: Class)
    ensures |Members(rs + [r], c)| == |Members(rs, c)| + if r.kind == c then 1 else 0
  {
    var n, all := |rs|, rs + [r];
    var before := Members(rs, c);
    var now := if r.kind == c then before + {n} else before;
    forall i: nat
      ensures i in Members(all, c) <==> i in now
    {
      assert i < n ==> all[i] == rs[i];
      assert i == n ==> all[i] == r;
    }
    assert Members(all, c) == now;
  }

  lemma {:induction false} CountIsSize(rs: seq<Running>, c: Class)
    ensures CountClass(rs, c) == |Members(rs, c)|
  {
    if rs == [] {
      assert Members(rs, c) == {};
    } else {
      hide CountClass, Members;
      var n := |rs| - 1;
      CountIsSize(rs[..n], c);
      CountSnoc(rs[..n], rs[n], c);
      MembersSnoc(rs[..n], rs[n], c);
      assert rs[..n] + [rs[n]] == rs;
    }
  }

  /** After every run the running requests of each class are no more than its slots. */
  lemma {:induction false} CapsHold(cfg: Caps, es: seq<Event>)
    ensures |Members(Run(cfg, INITIAL, es).running, Interactive)| <= cfg.maxInteractive
    ensures |Members(Run(cfg, INITIAL, es).running, Background)| <= cfg.maxBackground
  {
    hide Run, Members;
    EveryRunIsSafe(cfg, es);
    CountIsSize(Run(cfg, INITIAL, es).running, Interactive);
    CountIsSize(Run(cfg, INITIAL, es).running, Background);
  }

  /** A waiter with this ticket goes next: there is a free slot for its class, no interactive request waits before a
      background one, and of its class it is the least served, or the earliest ticket among the least served. */
  ghost predicate GoesNext(cfg: Config, st: State, w: Waiter, ticket: nat)
  {
    && w in st.waiting && w.ticket == ticket
    && |Members(st.running, w.kind)| < (if w.kind.Interactive? then cfg.maxInteractive else cfg.maxBackground)
    && (w.kind.Background? ==> forall v :: v in st.waiting ==> v.kind.Background?)
    && forall v :: v in st.waiting && v != w && v.kind == w.kind ==>
         || Served(st, w.session) < Served(st, v.session)
         || (Served(st, w.session) == Served(st, v.session) && w.ticket < v.ticket)
  }

  lemma {:induction false} TurnExact(cfg: Caps, st: State, ticket: nat)
    requires Tickets(st)
    ensures IsTurn(cfg, st, ticket) <==> exists w :: GoesNext(cfg, st, w, ticket)
  {
    hide CountClass, Members;
    var i := FindWaiter(st.waiting, ticket);
    if IsTurn(cfg, st, ticket) {
      var w := st.waiting[i];
      CountIsSize(st.running, w.kind);
      forall v | v in st.waiting
        ensures v == w || Before(st, w, v)
      {
        var k :| 0 <= k < |st.waiting| && st.waiting[k] == v;
        assert !Before(st, st.waiting[k], w);
      }
      assert GoesNext(cfg, st, w, ticket);
    }
    if w :| GoesNext(cfg, st, w, ticket) {
      CountIsSize(st.running, w.kind);
      var k :| 0 <= k < |st.waiting| && st.waiting[k] == w;
      assert i == k;
      forall j | 0 <= j < |st.waiting|
        ensures !Before(st, st.waiting[j], w)
      {
        assert st.waiting[j] in st.waiting;
      }
    }
  }

  /** In every reachable state a look of a waiting request admits it if and only if it goes next. */
  lemma {:induction false} AdmissionOrder(cfg: Caps, es: seq<Event>, ticket: nat)
    ensures var st := Run(cfg, INITIAL, es);
            Admit(cfg, st, ticket) != st <==> exists w :: GoesNext(cfg, st, w, ticket)
  {
    hide Run, GoesNext, IsTurn;
    EveryRunIsSafe(cfg, es);
    var st := Run(cfg, INITIAL, es);
    TurnExact(cfg, st, ticket);
    if IsTurn(cfg, st, ticket) {
      AdmitMoves(cfg, st, ticket);
    }
  }

  lemma {:induction false} AdmitMoves(cfg: Caps, st: State, ticket: nat)
    requires IsTurn(cfg, st, ticket)
    ensures |Admit(cfg, st, ticket).running| == |st.running| + 1
  {
    hide SetAll, Notices, DropWaiter;
  }

  // ----- tickets are the order of arrival -----

  ghost predicate Queued(ws: seq<Waiter>)
  {
    forall i, j :: 0 <= i < j < |ws| ==> ws[i].ticket < ws[j].ticket
  }

  lemma {:induction false} DropQueued(ws: seq<Waiter>, ticket: nat)
    requires Queued(ws)
    ensures Queued(DropWaiter(ws, ticket))
  {
    if ws != [] {
      var rest := DropWaiter(ws[1..], ticket);
      assert DropWaiter(ws, ticket) == if ws[0].ticket == ticket then [] + rest else [ws[0]] + rest;
      assert [] + rest == rest;
      hide DropWaiter, Queued;
      QueuedTail(ws);
      DropQueued(ws[1..], ticket);
      DropWaiterFacts(ws[1..], ticket);
      QueuedCons(ws[0], rest);
    }
  }

  lemma {:induction false} QueuedTail(ws: seq<Waiter>)
    requires ws != [] && Queued(ws)
    ensures Queued(ws[1..]) && forall w :: w in ws[1..] ==> ws[0].ticket < w.ticket
  {
    var rest := ws[1..];
    assert forall i :: 0 <= i < |rest| ==> rest[i] == ws[i + 1];
  }

  lemma {:induction false} QueuedCons(w: Waiter, rest: seq<Waiter>)
    requires Queued(rest) && forall i :: 0 <= i < |rest| ==> w.ticket < rest[i].ticket
    ensures Queued([w] + rest)
  {
    var all := [w] + rest;
    assert forall j :: 1 <= j < |all| ==> all[j] == rest[j - 1];
  }

  lemma {:induction false} RunQueued(cfg: Caps, st: State, es: seq<Event>)
    requires Inv(cfg, st) && Queued(st.waiting)
    ensures Queued(Run(cfg, st, es).waiting)
    decreases |es|
  {
    hide CountClass, SetAll, Notices, DropWaiter, DropRunning, FindRunning, IsTurn;
    if es != [] {
      StepKeeps(cfg, st, es[0]);
      if es[0].DoAdmit? {
        DropQueued(st.waiting, es[0].ticket);
      }
      hide Inv, Queued;
      RunQueued(cfg, Step(cfg, st, es[0]), es[1..]);
    }
  }

  /** In every state that a run reaches the queue is in the order of arrival, and an arrival joins it at the end. */
  lemma {:induction false} QueueIsInOrder(cfg: Caps, es: seq<Event>, session: string, c: Class)
    ensures var st := Run(cfg, INITIAL, es);
            Queued(st.waiting) && Queued(Arrive(st, session, c).waiting)
  {
    hide Run;
    RunQueued(cfg, INITIAL, es);
    EveryRunIsSafe(cfg, es);
  }

  // ----- service is what was charged -----

  function Charged(es: seq<Event>, session: string): nat
  {
    if es == [] then 0
    else (if es[0].DoCharge? && es[0].session == session then es[0].tokens else 0) + Charged(es[1..], session)
  }

  lemma {:induction false} ServedFrom(cfg: Config, st: State, es: seq<Event>, session: string)
    ensures Served(Run(cfg, st, es), session) == Served(st, session) + Charged(es, session)
    decreases |es|
  {
    hide CountClass, SetAll, Notices, DropWaiter, DropRunning, FindRunning, IsTurn;
    if es != [] {
      ServedFrom(cfg, Step(cfg, st, es[0]), es[1..], session);
    }
  }

  /** What orders the waiters is the sum of all that was charged to their sessions, and nothing else changes it. */
  lemma {:induction false} ServedIsCharged(cfg: Config, es: seq<Event>, session: string)
    ensures Served(Run(cfg, INITIAL, es), session) == Charged(es, session)
  {
    ServedFrom(cfg, INITIAL, es, session);
  }
}
