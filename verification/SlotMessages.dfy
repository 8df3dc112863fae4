/** Pause and resume messages: when what a backend was told last agrees with the flag of each attached request. */
module SlotMessages {
  import opened Bytes
  import opened Slots
  import opened SlotSafety

  // ----- the last message about a request -----

  /** The last pause or resume message about a pair, if any. */
  function Last(sent: seq<Message>, t: Target): Option<bool>
  {
    if sent == [] then None
    else if sent[|sent| - 1].target == t then Some(sent[|sent| - 1].paused)
    else Last(sent[..|sent| - 1], t)
  }

  predicate Told(sent: seq<Message>, t: Target)
  {
    Last(sent, t) == Some(true)
  }

  lemma {:induction false} LastSnoc(sent: seq<Message>, head: seq<Message>, t: Target)
    requires |head| <= 1
    ensures Last(sent + head, t) == if |head| == 1 && head[0].target == t then Some(head[0].paused) else Last(sent, t)
  {
    if head == [] {
      assert sent + head == sent;
    } else {
      assert (sent + head)[..|sent|] == sent;
    }
  }

  /** Some entry attached to this pair changes its flag. */
  predicate SomeFlips(rs: seq<Running>, paused: bool, t: Target)
  {
    exists k :: 0 <= k < |rs| && rs[k].target == Some(t) && Flips(rs[k], paused)
  }

  lemma {:induction false} SomeFlipsCons(rs: seq<Running>, paused: bool, t: Target)
    requires rs != []
    ensures SomeFlips(rs, paused, t) <==>
            (rs[0].target == Some(t) && Flips(rs[0], paused)) || SomeFlips(rs[1..], paused, t)
  {
    if k :| 0 <= k < |rs[1..]| && rs[1..][k].target == Some(t) && Flips(rs[1..][k], paused) {
      assert rs[k + 1].target == Some(t) && Flips(rs[k + 1], paused);
    }
    if k :| 0 < k < |rs| && rs[k].target == Some(t) && Flips(rs[k], paused) {
      assert rs[1..][k - 1].target == Some(t) && Flips(rs[1..][k - 1], paused);
    }
  }

  lemma {:induction false} LastNotices(sent: seq<Message>, rs: seq<Running>, paused: bool, t: Target)
    ensures Last(sent + Notices(rs, paused), t) == if SomeFlips(rs, paused, t) then Some(paused) else Last(sent, t)
    decreases |rs|
  {
    hide Last, SomeFlips;
    if rs == [] {
      assert sent + [] == sent;
      NothingFlips(paused, t);
    } else {
      var head := if Flips(rs[0], paused) && rs[0].target.Some? then [SetPaused(rs[0].target.value, paused)] else [];
      assert sent + Notices(rs, paused) == (sent + head) + Notices(rs[1..], paused);
      LastNotices(sent + head, rs[1..], paused, t);
      LastSnoc(sent, head, t);
      SomeFlipsCons(rs, paused, t);
    }
  }

  lemma {:induction false} NothingFlips(paused: bool, t: Target)
    ensures !SomeFlips([], paused, t)
  {
  }

  // ----- messages since a request was attached -----

  /** How many messages had been sent when each ticket was last attached. */
  type Marks = map<nat, nat>

  function Mark(st: State, marks: Marks, e: Event): Marks
  {
    if e.DoAttach? && FindRunning(st.running, e.ticket) >= 0 then marks[e.ticket := |st.sent|] else marks
  }

  /** What was said last about this request since it was attached is what its flag says. */
  ghost predicate Agrees(r: Running, sent: seq<Message>, marks: Marks)
  {
    r.target.Some? ==>
      && r.ticket in marks && marks[r.ticket] <= |sent|
      && (r.paused <==> Told(sent[marks[r.ticket]..], r.target.value))
  }

  ghost predicate Informed(rs: seq<Running>, sent: seq<Message>, marks: Marks)
  {
    forall i :: 0 <= i < |rs| ==> Agrees(rs[i], sent, marks)
  }

  /** One entry after flags are set: it agrees again unless a request of the other class shares its pair and flips. */
  lemma {:induction false} FlipAgrees(rs: seq<Running>, sent: seq<Message>, marks: Marks, paused: bool, i: nat)
    requires i < |rs| && Agrees(rs[i], sent, marks)
    requires forall k :: 0 <= k < |rs| && rs[k].target.Some? && rs[k].target == rs[i].target && Flips(rs[k], paused) ==>
               paused ==> rs[i].kind.Background?
    ensures Agrees(SetAll(rs, paused)[i], sent + Notices(rs, paused), marks)
  {
    hide Last, Notices, SetAll;
    if rs[i].target.Some? {
      var t, m := rs[i].target.value, marks[rs[i].ticket];
      var more := Notices(rs, paused);
      assert (sent + more)[m..] == sent[m..] + more;
      LastNotices(sent[m..], rs, paused, t);
      if SomeFlips(rs, paused, t) {
        var k :| 0 <= k < |rs| && rs[k].target == Some(t) && Flips(rs[k], paused);
      } else {
        assert !Flips(rs[i], paused);
      }
    }
  }

  // ----- each step -----

  lemma {:induction false} AdmitInforms(cfg: Caps, st: State, marks: Marks, ticket: nat)
    requires Inv(cfg, st) && Informed(st.running, st.sent, marks)
    ensures var st' := Admit(cfg, st, ticket);
            Informed(st'.running, st'.sent, marks)
  {
    if IsTurn(cfg, st, ticket) {
      hide Agrees, Notices, DropWaiter, CountClass, Before, Tickets, SetAll;
      var w := st.waiting[FindWaiter(st.waiting, ticket)];
      var r := Running(ticket, w.session, w.kind, None, false);
      var rs := st.running + [r];
      Unattached(r, st.sent, marks);
      assert Informed(rs, st.sent, marks);
      forall i | 0 <= i < |rs| && w.kind.Interactive?
        ensures Agrees(SetAll(rs, true)[i], st.sent + Notices(rs, true), marks)
      {
        NoInteractiveFlips(st.running, r, i);
        FlipAgrees(rs, st.sent, marks, true, i);
      }
    }
  }

  lemma {:induction false} Unattached(r: Running, sent: seq<Message>, marks: Marks)
    requires r.target.None?
    ensures Agrees(r, sent, marks)
  {
  }

  /** Beside an interactive request every attached background one is paused already, so nothing flips. */
  lemma {:induction false} NoInteractiveFlips(before: seq<Running>, r: Running, i: nat)
    requires Preemption(before) && r.target.None? && i <= |before|
    ensures var rs := before + [r];
            forall k :: 0 <= k < |rs| && rs[k].target.Some? && rs[k].target == rs[i].target && Flips(rs[k], true) ==>
              rs[i].kind.Background?
  {
    var rs := before + [r];
    forall k | 0 <= k < |rs| && rs[k].target.Some? && rs[k].target == rs[i].target && Flips(rs[k], true)
      ensures rs[i].kind.Background?
    {
      assert rs[k] == before[k] && rs[i] == before[i];
      assert before[i].kind.Interactive? ==> SomeInteractive(before);
    }
  }

  lemma {:induction false} ReleaseInforms(st: State, marks: Marks, ticket: nat)
    requires Informed(st.running, st.sent, marks)
    ensures var st' := Release(st, ticket);
            Informed(st'.running, st'.sent, marks)
  {
    hide Agrees, Notices, DropRunning, SetAll;
    var rs := DropRunning(st.running, ticket);
    DropRunningFacts(st.running, ticket);
    assert Informed(rs, st.sent, marks);
    forall i | 0 <= i < |rs|
      ensures Agrees(SetAll(rs, false)[i], st.sent + Notices(rs, false), marks)
    {
      FlipAgrees(rs, st.sent, marks, false, i);
    }
  }

  /** Whether the entry with this ticket is paused by its own attachment. */
  predicate StartsPaused(rs: seq<Running>, ticket: nat)
  {
    var i := FindRunning(rs, ticket);
    i >= 0 && rs[i].kind.Background? && OtherInteractive(rs, ticket)
  }

  /** A request that starts paused shares its pair with no running interactive request. */
  ghost predicate Attachable(rs: seq<Running>, ticket: nat, t: Target)
  {
    StartsPaused(rs, ticket) ==>
      forall j :: 0 <= j < |rs| && rs[j].ticket != ticket && rs[j].target == Some(t) ==> rs[j].kind.Background?
  }

  ghost predicate Allowed(st: State, e: Event)
  {
    e.DoAttach? ==> Attachable(st.running, e.ticket, e.target)
  }

  lemma {:induction false} ToldAfter(sent: seq<Message>, m: nat, t: Target, u: Target)
    requires m <= |sent|
    ensures Told((sent + [SetPaused(t, true)])[m..], u) <==> u == t || Told(sent[m..], u)
  {
    assert (sent + [SetPaused(t, true)])[m..] == sent[m..] + [SetPaused(t, true)];
    LastSnoc(sent[m..], [SetPaused(t, true)], u);
  }

  /** The request attached just now agrees at once. */
  lemma {:induction false} NewcomerAgrees(cfg: Caps, st: State, marks: Marks, ticket: nat, t: Target)
    requires Inv(cfg, st) && FindRunning(st.running, ticket) >= 0
    ensures var i := FindRunning(st.running, ticket);
            Agrees(Attach(st, ticket, t).running[i], Attach(st, ticket, t).sent, marks[ticket := |st.sent|])
  {
    var st' := Attach(st, ticket, t);
    hide CountClass;
    AttachInteractive(st, ticket, t);
    ToldAfter(st.sent, |st.sent|, t, t);
    assert st.sent[|st.sent|..] == [];
    assert !Told([], t);
  }

  /** Any other entry stays in agreement unless it is interactive and the newcomer's pause names its pair. */
  lemma {:induction false} BystanderAgrees(cfg: Caps, st: State, marks: Marks, ticket: nat, t: Target, j: nat)
    requires Inv(cfg, st) && Informed(st.running, st.sent, marks)
    requires FindRunning(st.running, ticket) >= 0 && j < |st.running| && j != FindRunning(st.running, ticket)
    ensures var st' := Attach(st, ticket, t);
            && st'.running[j] == st.running[j]
            && (Agrees(st'.running[j], st'.sent, marks[ticket := |st.sent|]) <==>
                !(StartsPaused(st.running, ticket) && st.running[j].target == Some(t) &&
                    st.running[j].kind.Interactive?))
  {
    hide CountClass, Last;
    var r := st.running[j];
    assert Agrees(r, st.sent, marks) && r.ticket != ticket;
    AttachInteractive(st, ticket, t);
    if r.target.Some? {
      ToldAfter(st.sent, marks[r.ticket], t, r.target.value);
    }
    if StartsPaused(st.running, ticket) {
      assert SomeInteractive(st.running);
    }
  }

  /** Attaching keeps every attached request in agreement if and only if it is not one that starts paused under the
      pair of a running interactive request. */
  lemma {:induction false} AttachExact(cfg: Caps, st: State, marks: Marks, ticket: nat, t: Target)
    requires Inv(cfg, st) && Informed(st.running, st.sent, marks)
    ensures var st' := Attach(st, ticket, t);
            Informed(st'.running, st'.sent, Mark(st, marks, DoAttach(ticket, t))) <==>
            Attachable(st.running, ticket, t)
  {
    var i := FindRunning(st.running, ticket);
    if i >= 0 {
      var st' := Attach(st, ticket, t);
      var marks' := marks[ticket := |st.sent|];
      NewcomerAgrees(cfg, st, marks, ticket, t);
      forall j | 0 <= j < |st.running| && j != i
        ensures Agrees(st'.running[j], st'.sent, marks') <==>
                !(StartsPaused(st.running, ticket) && st.running[j].target == Some(t)
                  && st.running[j].kind.Interactive?)
        ensures st.running[j].ticket != ticket
      {
        BystanderAgrees(cfg, st, marks, ticket, t, j);
      }
      hide Agrees, StartsPaused, CountClass;
      if !Attachable(st.running, ticket, t) {
        var j :| 0 <= j < |st.running| && st.running[j].ticket != ticket && st.running[j].target == Some(t)
                 && !st.running[j].kind.Background?;
        assert !Agrees(st'.running[j], st'.sent, marks');
      }
    } else {
      hide Agrees;
    }
  }

  /** From any safe state in which the messages agree with the flags, a step keeps them agreeing if and only if it is
      allowed; only attaching can be disallowed. */
  lemma {:induction false} StepExact(cfg: Caps, st: State, marks: Marks, e: Event)
    requires Inv(cfg, st) && Informed(st.running, st.sent, marks)
    ensures var st' := Step(cfg, st, e);
            Informed(st'.running, st'.sent, Mark(st, marks, e)) <==> Allowed(st, e)
  {
    hide Inv, Informed, Attachable;
    match e
    case DoArrive(_, _) =>
    case DoAdmit(t) => AdmitInforms(cfg, st, marks, t);
    case DoAttach(t, target) => AttachExact(cfg, st, marks, t, target);
    case DoRelease(t) => ReleaseInforms(st, marks, t);
    case DoCharge(_, _) =>
  }

  // ----- runs -----

  /** Every attachment of the run is allowed where it happens. */
  ghost predicate AllAllowed(cfg: Config, st: State, es: seq<Event>)
    decreases |es|
  {
    es == [] || (Allowed(st, es[0]) && AllAllowed(cfg, Step(cfg, st, es[0]), es[1..]))
  }

  /** The messages agree with the flags in every state of the run. */
  ghost predicate InformedThroughout(cfg: Config, st: State, marks: Marks, es: seq<Event>)
    decreases |es|
  {
    && Informed(st.running, st.sent, marks)
    && (es != [] ==> InformedThroughout(cfg, Step(cfg, st, es[0]), Mark(st, marks, es[0]), es[1..]))
  }

  lemma {:induction false} RunExact(cfg: Caps, st: State, marks: Marks, es: seq<Event>)
    requires Inv(cfg, st) && Informed(st.running, st.sent, marks)
    ensures InformedThroughout(cfg, st, marks, es) <==> AllAllowed(cfg, st, es)
    decreases |es|
  {
    hide Inv, Informed, Step, Allowed, Mark;
    if es != [] {
      var st', marks' := Step(cfg, st, es[0]), Mark(st, marks, es[0]);
      StepExact(cfg, st, marks, es[0]);
      StepKeeps(cfg, st, es[0]);
      if Allowed(st, es[0]) {
        RunExact(cfg, st', marks', es[1..]);
      } else {
        NotThroughout(cfg, st', marks', es[1..]);
      }
    }
  }

  lemma {:induction false} NotThroughout(cfg: Config, st: State, marks: Marks, es: seq<Event>)
    requires !Informed(st.running, st.sent, marks)
    ensures !InformedThroughout(cfg, st, marks, es)
  {
  }

  /** Over every run from the start: in every state, the last message about each attached request since it was
      attached agrees with its flag, if and only if no request starts paused under the pair of a running interactive
      one. */
  lemma {:induction false} EveryRunInforms(cfg: Caps, es: seq<Event>)
    ensures InformedThroughout(cfg, INITIAL, map[], es) <==> AllAllowed(cfg, INITIAL, es)
  {
    RunExact(cfg, INITIAL, map[], es);
  }

  // ----- request ids handed out once -----

  /** No pair is attached twice, as a backend's counter makes sure while it lives. */
  predicate NeverTwice(es: seq<Event>)
  {
    forall i, j :: 0 <= i < j < |es| && es[i].DoAttach? && es[j].DoAttach? ==> es[i].target != es[j].target
  }

  predicate Attaches(es: seq<Event>, t: Target)
  {
    exists i :: 0 <= i < |es| && es[i].DoAttach? && es[i].target == t
  }

  /** Every pair in the state is in `used`, and nothing was said about a running request before it was attached. */
  ghost predicate Known(st: State, marks: Marks, used: set<Target>)
  {
    && (forall i :: 0 <= i < |st.running| && st.running[i].target.Some? ==> st.running[i].target.value in used)
    && (forall k :: 0 <= k < |st.sent| ==> st.sent[k].target in used)
    && (forall i :: 0 <= i < |st.running| && st.running[i].target.Some? ==> Fresh(st.running[i], st.sent, marks))
  }

  /** No message about this request is older than its attachment. */
  ghost predicate Fresh(r: Running, sent: seq<Message>, marks: Marks)
    requires r.target.Some?
  {
    && r.ticket in marks && marks[r.ticket] <= |sent|
    && forall k :: 0 <= k < marks[r.ticket] ==> sent[k].target != r.target.value
  }

  function Used(used: set<Target>, e: Event): set<Target>
  {
    if e.DoAttach? then used + {e.target} else used
  }

  lemma {:induction false} NoticesTargets(rs: seq<Running>, paused: bool, used: set<Target>)
    requires forall i :: 0 <= i < |rs| && rs[i].target.Some? ==> rs[i].target.value in used
    ensures forall k :: 0 <= k < |Notices(rs, paused)| ==> Notices(rs, paused)[k].target in used
    decreases |rs|
  {
    if rs != [] {
      assert forall i :: 0 <= i < |rs[1..]| ==> rs[1..][i] == rs[i + 1];
      NoticesTargets(rs[1..], paused, used);
    }
  }

  /** New messages come after every mark. */
  lemma {:induction false} KnownGrows(st: State, rs: seq<Running>, more: seq<Message>, marks: Marks, used: set<Target>)
    requires Known(st, marks, used) && forall k :: 0 <= k < |more| ==> more[k].target in used
    requires forall i :: 0 <= i < |rs| && rs[i].target.Some? ==>
               exists j :: 0 <= j < |st.running| && st.running[j].ticket == rs[i].ticket &&
                   st.running[j].target == rs[i].target
    ensures Known(st.(running := rs, sent := st.sent + more), marks, used)
  {
    forall i | 0 <= i < |rs| && rs[i].target.Some?
      ensures rs[i].target.value in used && Fresh(rs[i], st.sent + more, marks)
    {
      var j :| 0 <= j < |st.running| && st.running[j].ticket == rs[i].ticket && st.running[j].target == rs[i].target;
      assert Fresh(st.running[j], st.sent, marks);
    }
  }

  lemma {:induction false} KnownAdmit(cfg: Caps, st: State, marks: Marks, used: set<Target>, ticket: nat)
    requires Known(st, marks, used)
    ensures Known(Admit(cfg, st, ticket), marks, used)
  {
    if IsTurn(cfg, st, ticket) {
      hide Notices, DropWaiter, CountClass, Before, SetAll, Known;
      var w := st.waiting[FindWaiter(st.waiting, ticket)];
      var rs := st.running + [Running(ticket, w.session, w.kind, None, false)];
      var st' := Admit(cfg, st, ticket);
      KnownTargets(st, marks, used);
      NoticesTargets(rs, true, used);
      var more := if w.kind.Interactive? then Notices(rs, true) else [];
      assert st.sent + [] == st.sent;
      forall i | 0 <= i < |st'.running| && st'.running[i].target.Some?
        ensures exists j :: 0 <= j < |st.running| && st.running[j].ticket == st'.running[i].ticket
                            && st.running[j].target == st'.running[i].target
      {
        assert st.running[i].ticket == st'.running[i].ticket && st.running[i].target == st'.running[i].target;
      }
      KnownGrows(st, st'.running, more, marks, used);
      KnownApart(st.(running := st'.running, sent := st'.sent), st', marks, used);
    }
  }

  lemma {:induction false} KnownTargets(st: State, marks: Marks, used: set<Target>)
    requires Known(st, marks, used)
    ensures forall i :: 0 <= i < |st.running| && st.running[i].target.Some? ==> st.running[i].target.value in used
  {
  }

  lemma {:induction false} KnownApart(st: State, st': State, marks: Marks, used: set<Target>)
    requires Known(st, marks, used) && st'.running == st.running && st'.sent == st.sent
    ensures Known(st', marks, used)
  {
  }

  lemma {:induction false} KnownRelease(st: State, marks: Marks, used: set<Target>, ticket: nat)
    requires Known(st, marks, used)
    ensures Known(Release(st, ticket), marks, used)
  {
    hide Notices, DropRunning, SetAll, Known;
    var rs := DropRunning(st.running, ticket);
    DropRunningFacts(st.running, ticket);
    KnownTargets(st, marks, used);
    NoticesTargets(rs, false, used);
    var st' := Release(st, ticket);
    var more := if SomeInteractive(rs) then [] else Notices(rs, false);
    assert st.sent + [] == st.sent;
    forall i | 0 <= i < |st'.running| && st'.running[i].target.Some?
      ensures exists j :: 0 <= j < |st.running| && st.running[j].ticket == st'.running[i].ticket
                          && st.running[j].target == st'.running[i].target
    {
      assert rs[i] in st.running;
      var j :| 0 <= j < |st.running| && st.running[j] == rs[i];
    }
    KnownGrows(st, st'.running, more, marks, used);
  }

  lemma {:induction false} KnownAttach(st: State, marks: Marks, used: set<Target>, ticket: nat, t: Target)
    requires Tickets(st) && Known(st, marks, used) && t !in used
    ensures Known(Attach(st, ticket, t), Mark(st, marks, DoAttach(ticket, t)), used + {t})
  {
    var i := FindRunning(st.running, ticket);
    if i >= 0 {
      var st', marks' := Attach(st, ticket, t), marks[ticket := |st.sent|];
      forall j | 0 <= j < |st'.running| && st'.running[j].target.Some?
        ensures st'.running[j].target.value in used + {t} && Fresh(st'.running[j], st'.sent, marks')
      {
        if j != i {
          assert st'.running[j] == st.running[j] && Fresh(st.running[j], st.sent, marks);
        }
      }
    }
  }

  lemma {:induction false} KnownStep(cfg: Caps, st: State, marks: Marks, used: set<Target>, e: Event)
    requires Tickets(st) && Known(st, marks, used) && (e.DoAttach? ==> e.target !in used)
    ensures Known(Step(cfg, st, e), Mark(st, marks, e), Used(used, e)) && Allowed(st, e)
  {
    hide Fresh;
    match e
    case DoArrive(_, _) =>
    case DoAdmit(t) => KnownAdmit(cfg, st, marks, used, t);
    case DoAttach(t, target) => KnownAttach(st, marks, used, t, target);
    case DoRelease(t) => KnownRelease(st, marks, used, t);
    case DoCharge(_, _) =>
  }

  lemma {:induction false} TailNeverTwice(es: seq<Event>)
    requires es != [] && NeverTwice(es)
    ensures NeverTwice(es[1..]) && (es[0].DoAttach? ==> !Attaches(es[1..], es[0].target))
    ensures forall t :: Attaches(es[1..], t) ==> Attaches(es, t)
  {
    assert forall i :: 0 <= i < |es[1..]| ==> es[1..][i] == es[i + 1];
    forall t | Attaches(es[1..], t)
      ensures Attaches(es, t)
    {
      var i :| 0 <= i < |es[1..]| && es[1..][i].DoAttach? && es[1..][i].target == t;
      assert es[i + 1].DoAttach? && es[i + 1].target == t;
    }
  }

  lemma {:induction false} FreshFrom(cfg: Caps, st: State, marks: Marks, used: set<Target>, es: seq<Event>)
    requires Inv(cfg, st) && Informed(st.running, st.sent, marks) && Known(st, marks, used)
    requires NeverTwice(es) && forall t :: t in used ==> !Attaches(es, t)
    ensures AllAllowed(cfg, st, es)
    ensures Whole(Run(cfg, st, es))
    decreases |es|
  {
    hide Inv, Informed, Step, Mark, Known, Attaches, NeverTwice, Whole, Allowed;
    if es == [] {
      WholeFromFresh(st, marks, used);
    } else {
      var e := es[0];
      SafeTickets(cfg, st);
      FirstUnused(es, used);
      KnownStep(cfg, st, marks, used, e);
      StepExact(cfg, st, marks, e);
      StepKeeps(cfg, st, e);
      TailNeverTwice(es);
      FreshFrom(cfg, Step(cfg, st, e), Mark(st, marks, e), Used(used, e), es[1..]);
    }
  }

  lemma {:induction false} FirstUnused(es: seq<Event>, used: set<Target>)
    requires es != [] && forall t :: t in used ==> !Attaches(es, t)
    ensures es[0].DoAttach? ==> es[0].target !in used
  {
    if es[0].DoAttach? {
      assert Attaches(es, es[0].target);
    }
  }

  lemma {:induction false} SafeTickets(cfg: Caps, st: State)
    requires Inv(cfg, st)
    ensures Tickets(st)
  {
  }

  /** The last of all messages about each attached request's pair is what its flag says. */
  ghost predicate Whole(st: State)
  {
    forall i :: 0 <= i < |st.running| && st.running[i].target.Some? ==>
      (st.running[i].paused <==> Told(st.sent, st.running[i].target.value))
  }

  lemma {:induction false} LastSince(sent: seq<Message>, m: nat, t: Target)
    requires m <= |sent| && forall k :: 0 <= k < m ==> sent[k].target != t
    ensures Last(sent, t) == Last(sent[m..], t)
    decreases |sent|
  {
    if m < |sent| {
      var n := |sent| - 1;
      assert sent[m..][|sent[m..]| - 1] == sent[n];
      assert sent[m..][..|sent[m..]| - 1] == sent[..n][m..];
      LastSince(sent[..n], m, t);
    } else if sent != [] {
      var n := |sent| - 1;
      assert sent[m..] == [] && sent[..n][n..] == [];
      LastSince(sent[..n], n, t);
    }
  }

  lemma {:induction false} WholeFromFresh(st: State, marks: Marks, used: set<Target>)
    requires Informed(st.running, st.sent, marks) && Known(st, marks, used)
    ensures Whole(st)
  {
    hide Last;
    forall i | 0 <= i < |st.running| && st.running[i].target.Some?
      ensures st.running[i].paused <==> Told(st.sent, st.running[i].target.value)
    {
      var r := st.running[i];
      assert Agrees(r, st.sent, marks) && Fresh(r, st.sent, marks);
      LastSince(st.sent, marks[r.ticket], r.target.value);
    }
  }

  /** After every run in which no pair is attached twice, the messages agree with the flags in every state, and the
      last of all messages about each attached request says what its flag says. */
  lemma {:induction false} FreshRunsInform(cfg: Caps, es: seq<Event>)
    requires NeverTwice(es)
    ensures InformedThroughout(cfg, INITIAL, map[], es) && Whole(Run(cfg, INITIAL, es))
  {
    FreshFrom(cfg, INITIAL, map[], {}, es);
    EveryRunInforms(cfg, es);
  }

  // ----- a pair that two running requests share -----

  lemma {:induction false} RunFrom(cfg: Caps, st: State, es: seq<Event>, k: nat)
    requires k < |es|
    ensures Run(cfg, st, es[k..]) == Run(cfg, Step(cfg, st, es[k]), es[k + 1..])
  {
    assert es[k..][1..] == es[k + 1..];
  }

  lemma {:induction false} AdmitAlone(cfg: Caps, st: State, w: Waiter)
    requires st.waiting == [w] && CountClass(st.running, w.kind) == 0
    ensures var rs := st.running + [Running(w.ticket, w.session, w.kind, None, false)];
            Admit(cfg, st, w.ticket) == if w.kind.Interactive?
              then st.(waiting := [], running := SetAll(rs, true), sent := st.sent + Notices(rs, true))
              else st.(waiting := [], running := rs)
  {
    assert [w][1..] == [];
    assert IsTurn(cfg, st, w.ticket);
    assert DropWaiter([w], w.ticket) == [] + DropWaiter([], w.ticket) == [];
  }

  const PAIR := Target("b", 1)

  /** An interactive request is attached, and a background one is admitted beside it and attached to the same pair, as
      can happen when a backend is started again and the first request has not noticed yet. */
  const SHARED: seq<Event> := [
    DoArrive("i", Interactive), DoAdmit(1), DoAttach(1, PAIR),
    DoArrive("c", Background), DoAdmit(2), DoAttach(2, PAIR)]

  const FIRST := Running(1, "i", Interactive, Some(PAIR), false)
  const SECOND := Running(2, "c", Background, Some(PAIR), true)

  lemma {:induction false} FirstAttached(cfg: Caps)
    ensures Step(cfg, Step(cfg, Step(cfg, INITIAL, SHARED[0]), SHARED[1]), SHARED[2]) ==
            State([FIRST], [], map[], 2, [])
  {
    var w := Waiter(1, "i", Interactive);
    var queued := State([], [w], map[], 2, []);
    assert Step(cfg, INITIAL, SHARED[0]) == queued;
    AdmitAlone(cfg, queued, w);
    hide Admit;
    var taken := FIRST.(target := None);
    assert [] + [taken] == [taken] && [taken][1..] == [];
    assert SetAll([taken], true) == [taken];
    assert Notices([taken], true) == [] + [];
    assert [taken][0 := FIRST] == [FIRST];
  }

  lemma {:induction false} SecondAttached(cfg: Caps)
    ensures Step(cfg, Step(cfg, Step(cfg, State([FIRST], [], map[], 2, []), SHARED[3]), SHARED[4]), SHARED[5]) ==
            State([FIRST, SECOND], [], map[], 3, [SetPaused(PAIR, true)])
  {
    var w := Waiter(2, "c", Background);
    var queued := State([FIRST], [w], map[], 3, []);
    assert Step(cfg, State([FIRST], [], map[], 2, []), SHARED[3]) == queued;
    assert CountClass([FIRST], Background) == 0 by { assert [FIRST][1..] == []; }
    AdmitAlone(cfg, queued, w);
    hide Admit, CountClass;
    var taken := SECOND.(target := None, paused := false);
    var rs := [FIRST] + [taken];
    assert rs == [FIRST, taken] && FindRunning(rs, 2) == 1 by { assert rs[1..] == [taken]; }
    assert OtherInteractive(rs, 2) by { assert rs[0].kind.Interactive? && rs[0].ticket != 2; }
    assert rs[1 := SECOND] == [FIRST, SECOND];
    assert [] + [SetPaused(PAIR, true)] == [SetPaused(PAIR, true)];
  }

  lemma {:induction false} ThreeSteps(cfg: Caps, st: State, es: seq<Event>, k: nat)
    requires k + 3 <= |es|
    ensures Run(cfg, st, es[k..]) ==
            Run(cfg, Step(cfg, Step(cfg, Step(cfg, st, es[k]), es[k + 1]), es[k + 2]), es[k + 3..])
  {
    hide Run, Step;
    RunFrom(cfg, st, es, k);
    RunFrom(cfg, Step(cfg, st, es[k]), es, k + 1);
    RunFrom(cfg, Step(cfg, Step(cfg, st, es[k]), es[k + 1]), es, k + 2);
  }

  /** Where the condition is needed: the pause meant for the second request is the last word about the pair of the
      first, which is not paused. */
  lemma {:induction false} SharedPair(cfg: Caps)
    ensures Run(cfg, INITIAL, SHARED) == State([FIRST, SECOND], [], map[], 3, [SetPaused(PAIR, true)])
    ensures !AllAllowed(cfg, INITIAL, SHARED) && !InformedThroughout(cfg, INITIAL, map[], SHARED)
  {
    FirstAttached(cfg);
    SecondAttached(cfg);
    hide Step;
    assert |SHARED| == 6 && SHARED[0..] == SHARED && SHARED[6..] == [];
    ThreeSteps(cfg, INITIAL, SHARED, 0);
    ThreeSteps(cfg, State([FIRST], [], map[], 2, []), SHARED, 3);
    SharedRefused(cfg);
    EveryRunInforms(cfg, SHARED);
  }

  lemma {:induction false} SharedRefused(cfg: Caps)
    ensures !AllAllowed(cfg, INITIAL, SHARED)
  {
    FirstAttached(cfg);
    var st := Step(cfg, Step(cfg, State([FIRST], [], map[], 2, []), SHARED[3]), SHARED[4]);
    BeforeSecond(cfg);
    hide Step, Allowed;
    assert SHARED[0..] == SHARED;
    AllowedFrom(cfg, INITIAL, SHARED, 0);
    AllowedFrom(cfg, Step(cfg, INITIAL, SHARED[0]), SHARED, 1);
    AllowedFrom(cfg, Step(cfg, Step(cfg, INITIAL, SHARED[0]), SHARED[1]), SHARED, 2);
    AllowedFrom(cfg, State([FIRST], [], map[], 2, []), SHARED, 3);
    AllowedFrom(cfg, Step(cfg, State([FIRST], [], map[], 2, []), SHARED[3]), SHARED, 4);
    AllowedFrom(cfg, st, SHARED, 5);
  }

  lemma {:induction false} AllowedFrom(cfg: Caps, st: State, es: seq<Event>, k: nat)
    requires k < |es|
    ensures AllAllowed(cfg, st, es[k..]) <==> Allowed(st, es[k]) && AllAllowed(cfg, Step(cfg, st, es[k]), es[k + 1..])
  {
    assert es[k..][1..] == es[k + 1..];
  }

  lemma {:induction false} BeforeSecond(cfg: Caps)
    ensures !Allowed(Step(cfg, Step(cfg, State([FIRST], [], map[], 2, []), SHARED[3]), SHARED[4]), SHARED[5])
  {
    var w := Waiter(2, "c", Background);
    var queued := State([FIRST], [w], map[], 3, []);
    assert Step(cfg, State([FIRST], [], map[], 2, []), SHARED[3]) == queued;
    assert CountClass([FIRST], Background) == 0 by { assert [FIRST][1..] == []; }
    AdmitAlone(cfg, queued, w);
    hide Admit, CountClass;
    var rs := [FIRST] + [SECOND.(target := None, paused := false)];
    assert FindRunning(rs, 2) == 1 by { assert rs[1..] == [SECOND.(target := None, paused := false)]; }
    assert OtherInteractive(rs, 2) by { assert rs[0].kind.Interactive? && rs[0].ticket != 2; }
    assert rs[0].target == Some(PAIR) && !rs[0].kind.Background?;
    assert !Attachable(rs, 2, PAIR);
  }
}
