/** The scheduler object: every call updates its fields in place and keeps both invariants. */
module Scheduler {
  import opened Bytes
  import opened Slots
  import opened SlotMessages
  import SlotSafety
  import opened KvBudget

  datatype KvError = ExceedsBudget | Exhausted

  function Previous(kv: Kv, session: string): nat
  {
    if session in kv then kv[session].bytes else 0
  }

  /** Tells a backend to drop the cache of a session. */
  datatype DropCache = DropCache(backend: string, session: string)

  /** What the backends of these sessions are told, in order. */
  function Drops(kv: Kv, victims: seq<string>): (r: seq<DropCache>)
    requires forall v :: v in victims ==> v in kv
    ensures |r| == |victims|
    ensures forall i :: 0 <= i < |r| ==> r[i].session == victims[i] && r[i].backend == kv[r[i].session].backend
  {
    seq(|victims|, i requires 0 <= i < |victims| => DropCache(kv[victims[i]].backend, victims[i]))
  }

  lemma {:induction false} DropsSnoc(kv: Kv, plan: seq<string>, k: nat)
    requires k < |plan| && forall v :: v in plan ==> v in kv
    ensures Drops(kv, plan[..k + 1]) == Drops(kv, plan[..k]) + [DropCache(kv[plan[k]].backend, plan[k])]
  {
  }

  lemma {:induction false} TakeOne(kv: Kv, plan: seq<string>, k: nat)
    requires k < |plan| && KvBudget.Distinct(plan) && Ids(plan) <= kv.Keys
    ensures plan[k] !in plan[..k] && plan[k] in kv
    ensures Ids(plan[..k + 1]) == Ids(plan[..k]) + {plan[k]} && Ids(plan[..k + 1]) <= kv.Keys
    ensures Total(kv, Ids(plan[..k + 1])) == Total(kv, Ids(plan[..k])) + kv[plan[k]].bytes
  {
    assert plan[k] in plan;
    assert forall v :: v in plan[..k] ==> v in plan;
    assert plan[..k + 1] == plan[..k] + [plan[k]];
    IdsSnoc(plan[..k], plan[k]);
    TotalSnoc(kv, plan[..k], plan[k]);
  }

  lemma {:induction false} NoticesAt(rs: seq<Running>, i: nat, paused: bool)
    requires i < |rs|
    ensures Notices(rs[i..], paused) ==
            (if Flips(rs[i], paused) && rs[i].target.Some? then [SetPaused(rs[i].target.value, paused)] else [])
            + Notices(rs[i + 1..], paused)
  {
    assert rs[i..][1..] == rs[i + 1..];
  }

  lemma {:induction false} NoNotices(rs: seq<Running>, paused: bool)
    requires rs == []
    ensures Notices(rs, paused) == []
  {
  }

  /** Removing the victims and setting the requester's entry keeps the counter exact. */
  lemma {:induction false} CommitTotal(kv: Kv, session: string, victims: set<string>, entry: KvEntry)
    requires victims <= kv.Keys && session !in victims
    ensures var kv' := (kv - victims)[session := entry];
            Total(kv', kv'.Keys) + Total(kv, victims) + Previous(kv, session) == Total(kv, kv.Keys) + entry.bytes
  {
    var kv' := (kv - victims)[session := entry];
    var others := kv.Keys - victims - {session};
    TotalSubset(kv, victims, kv.Keys);
    if session in kv {
      TotalRemove(kv, kv.Keys - victims, session);
    } else {
      assert kv.Keys - victims == others;
    }
    TotalRemove(kv', kv'.Keys, session);
    assert kv'.Keys - {session} == others;
    TotalSame(kv, kv', others);
  }

  lemma {:induction false} PlanIsRight(kv: Kv, session: string, used: nat, extra: nat, budget: nat, plan: seq<string>)
    requires Planned(kv, session, used, extra, budget, 2, plan)
    ensures Fits(kv, used, extra, budget, Ids(plan)) <==> Fits(kv, used, extra, budget, Idle(kv, session))
    ensures Fits(kv, used, extra, budget, Ids(plan)) ==> IsPlan(kv, session, used, extra, budget, plan)
  {
    hide Sorted, Total, KvBudget.Distinct;
    TotalSubset(kv, Ids(plan), Idle(kv, session));
    if !Fits(kv, used, extra, budget, Ids(plan)) {
      assert Ids(plan) == Idle(kv, session);
    }
  }

  lemma {:induction false} EmptyPlan(kv: Kv, session: string, used: nat, extra: nat, budget: nat)
    ensures Planned(kv, session, used, extra, budget, 0, []) && Ids([]) == {} && Total(kv, {}) == 0
  {
  }

  lemma {:induction false} SkipPass(kv: Kv, session: string, used: nat, extra: nat, budget: nat, p: nat,
                                    plan: seq<string>)
    requires Planned(kv, session, used, extra, budget, p, plan) && Fits(kv, used, extra, budget, Ids(plan))
    ensures Planned(kv, session, used, extra, budget, p + 1, plan)
  {
    hide Sorted, Total, KvBudget.Distinct;
  }

  class Scheduler {
    const caps: Caps
    const budget: nat
    var running: seq<Running>
    var waiting: seq<Waiter>
    var served: map<string, nat>
    var nextTicket: nat
    var sent: seq<Message>
    ghost var marks: Marks
    var kv: Kv
    var kvUsed: nat
    var dropped: seq<DropCache>

    function View(): State
      reads this
    {
      State(running, waiting, served, nextTicket, sent)
    }

    ghost predicate Valid()
      reads this
    {
      Inv(caps, View()) && KvInv(kv, kvUsed, budget)
    }

    constructor (maxInteractive: nat, maxBackground: nat, budget: nat)
      ensures Valid() && View() == INITIAL && marks == map[] && kv == map[] && kvUsed == 0 && this.budget == budget
      ensures caps.maxInteractive == (if maxInteractive == 0 then 1 else maxInteractive)
      ensures caps.maxBackground == (if maxBackground == 0 then 1 else maxBackground)
    {
      var interactive := if maxInteractive == 0 then 1 else maxInteractive;
      var background := if maxBackground == 0 then 1 else maxBackground;
      caps := Config(interactive, background);
      this.budget := budget;
      running, waiting, served, nextTicket, sent := [], [], map[], 1, [];
      marks := map[];
      kv, kvUsed, dropped := map[], 0, [];
    }

    /** The first half of `admit`: a ticket and a place in the queue. */
    method Enqueue(session: string, c: Class) returns (ticket: nat)
      requires Valid()
      modifies this`waiting, this`nextTicket
      ensures Valid() && ticket == old(nextTicket) && View() == Arrive(old(View()), session, c)
    {
      SlotSafety.StepKeeps(caps, View(), DoArrive(session, c));
      ticket := nextTicket;
      nextTicket := nextTicket + 1;
      waiting := waiting + [Waiter(ticket, session, c)];
    }

    /** Sets the flag of the entries it changes, and collects a message for each attached one. */
    method SetPausedFlags(paused: bool)
      modifies this`running, this`sent
      ensures running == SetAll(old(running), paused) && sent == old(sent) + Notices(old(running), paused)
    {
      hide Notices, SetAll;
      ghost var before := running;
      var notices: seq<Message> := [];
      assert before[0..] == before;
      for i := 0 to |running|
        invariant |running| == |before| && sent == old(sent)
        invariant forall k :: 0 <= k < i ==> running[k] == SetAll(before, paused)[k]
        invariant forall k :: i <= k < |before| ==> running[k] == before[k]
        invariant notices + Notices(before[i..], paused) == Notices(before, paused)
      {
        var r := running[i];
        NoticesAt(before, i, paused);
        if Flips(r, paused) {
          if r.target.Some? {
            notices := notices + [SetPaused(r.target.value, paused)];
          }
          running := running[i := r.(paused := paused)];
        }
      }
      NoNotices(before[|before|..], paused);
      sent := sent + notices;
    }

    /** The second half of `admit`, once per look: the slot is taken if it is this ticket's turn. */
    method TryAdmit(ticket: nat) returns (admitted: bool)
      requires Valid()
      modifies this`running, this`waiting, this`sent
      ensures Valid() && admitted == old(IsTurn(caps, View(), ticket)) && View() == Admit(caps, old(View()), ticket)
      ensures old(Informed(running, sent, marks)) ==> Informed(running, sent, marks)
    {
      if Informed(running, sent, marks) {
        AdmitInforms(caps, View(), marks, ticket);
      }
      hide Informed, Preemption;
      SlotSafety.StepKeeps(caps, View(), DoAdmit(ticket));
      admitted := IsTurn(caps, View(), ticket);
      if admitted {
        var w := waiting[FindWaiter(waiting, ticket)];
        waiting := DropWaiter(waiting, ticket);
        running := running + [Running(ticket, w.session, w.kind, None, false)];
        if w.kind.Interactive? {
          SetPausedFlags(true);
        }
      }
    }

    method AttachSlot(ticket: nat, target: Target)
      requires Valid()
      modifies this`running, this`sent, this`marks
      ensures Valid() && View() == Attach(old(View()), ticket, target)
      ensures marks == Mark(old(View()), old(marks), DoAttach(ticket, target))
      ensures old(Informed(running, sent, marks)) ==>
                (Informed(running, sent, marks) <==> old(Attachable(running, ticket, target)))
    {
      if Informed(running, sent, marks) {
        AttachExact(caps, View(), marks, ticket, target);
      }
      hide Informed, Attachable;
      SlotSafety.StepKeeps(caps, View(), DoAttach(ticket, target));
      var pauseIt := OtherInteractive(running, ticket);
      var i := FindRunning(running, ticket);
      marks := Mark(View(), marks, DoAttach(ticket, target));
      if i >= 0 {
        var pauseNow := running[i].kind.Background? && pauseIt;
        running := running[i := running[i].(target := Some(target), paused := pauseNow || running[i].paused)];
        if pauseNow {
          sent := sent + [SetPaused(target, true)];
        }
      }
    }

    method ReleaseSlot(ticket: nat)
      requires Valid()
      modifies this`running, this`sent
      ensures Valid() && View() == Release(old(View()), ticket)
      ensures old(Informed(running, sent, marks)) ==> Informed(running, sent, marks)
    {
      if Informed(running, sent, marks) {
        ReleaseInforms(View(), marks, ticket);
      }
      hide Informed, Preemption;
      SlotSafety.StepKeeps(caps, View(), DoRelease(ticket));
      running := DropRunning(running, ticket);
      if !SomeInteractive(running) {
        SetPausedFlags(false);
      }
    }

    method ChargeSlot(session: string, tokens: nat, now: nat)
      requires Valid()
      modifies this`served, this`kv
      ensures Valid() && View() == Charge(old(View()), session, tokens)
      ensures kv == if session in old(kv) then old(kv)[session := old(kv)[session].(lastUsed := now)] else old(kv)
    {
      SlotSafety.StepKeeps(caps, View(), DoCharge(session, tokens));
      served := served[session := (if session in served then served[session] else 0) + tokens];
      if session in kv {
        kv := kv[session := kv[session].(lastUsed := now)];
        assert kv.Keys == old(kv).Keys;
        TotalSame(old(kv), kv, kv.Keys);
      }
    }

    /** The victims that make room, and whether they are enough. Nothing is changed. */
    method Plan(session: string, extra: nat) returns (plan: seq<string>, enough: bool)
      requires KvInv(kv, kvUsed, budget)
      ensures enough <==> Fits(kv, kvUsed, extra, budget, Idle(kv, session))
      ensures enough ==> IsPlan(kv, session, kvUsed, extra, budget, plan)
    {
      hide Planned, Total, IsPlan, Idle;
      var freed := 0;
      plan := [];
      EmptyPlan(kv, session, kvUsed, extra, budget);
      var passes := [Background, Interactive];
      for p := 0 to 2
        invariant Planned(kv, session, kvUsed, extra, budget, p, plan)
        invariant Ids(plan) <= kv.Keys && freed == Total(kv, Ids(plan))
      {
        TotalSubset(kv, Ids(plan), kv.Keys);
        if SatSub(kvUsed, freed) + extra <= budget {
          SkipPass(kv, session, kvUsed, extra, budget, p, plan);
        } else {
          plan, freed := PlanPass(kv, session, kvUsed, extra, budget, p, passes[p], plan, freed);
        }
      }
      TotalSubset(kv, Ids(plan), kv.Keys);
      enough := SatSub(kvUsed, freed) + extra <= budget;
      PlanIsRight(kv, session, kvUsed, extra, budget, plan);
    }

    /** Removes the victims; the saturating subtraction never clips. */
    method Evict(plan: seq<string>)
      requires KvBudget.Distinct(plan) && Ids(plan) <= kv.Keys && Total(kv, Ids(plan)) <= kvUsed
      modifies this`kv, this`kvUsed, this`dropped
      ensures kv == old(kv) - Ids(plan) && kvUsed == old(kvUsed) - Total(old(kv), Ids(plan))
      ensures dropped == old(dropped) + Drops(old(kv), plan)
    {
      hide Total;
      ghost var before := kv;
      assert forall v :: v in plan ==> v in Ids(plan);
      TotalSubset(before, Ids(plan[..0]), Ids(plan));
      NothingTaken(before, plan);
      for k := 0 to |plan|
        invariant Ids(plan[..k]) <= before.Keys && kv == before - Ids(plan[..k])
        invariant Total(before, Ids(plan[..k])) <= Total(before, Ids(plan))
        invariant kvUsed == old(kvUsed) - Total(before, Ids(plan[..k]))
        invariant dropped == old(dropped) + Drops(before, plan[..k])
      {
        TakeOne(before, plan, k);
        DropsSnoc(before, plan, k);
        assert forall v :: v in plan[..k + 1] ==> v in plan;
        TotalSubset(before, Ids(plan[..k + 1]), Ids(plan));
        var id := plan[k];
        var size, backend := kv[id].bytes, kv[id].backend;
        kv := kv - {id};
        kvUsed := SatSub(kvUsed, size);
        dropped := dropped + [DropCache(backend, id)];
      }
      assert plan[..|plan|] == plan;
    }

    /** Fails exactly when evicting every idle other session would still not fit, and then changes nothing. */
    method ReserveKv(session: string, backend: string, c: Class, bytes: nat, now: nat)
      returns (r: Result<seq<string>, KvError>)
      requires Valid()
      modifies this`kv, this`kvUsed, this`dropped
      ensures Valid()
      ensures var extra := bytes - Previous(old(kv), session);
              r.Err? <==> extra > 0 && !Fits(old(kv), old(kvUsed), extra, budget, Idle(old(kv), session))
      ensures var extra := bytes - Previous(old(kv), session);
              r.Err? <==> extra > 0 && Total(old(kv), old(kv).Keys - Idle(old(kv), session)) + extra > budget
      ensures r.Err? ==> kv == old(kv) && kvUsed == old(kvUsed) && dropped == old(dropped)
      ensures r.Err? ==> (r.error == ExceedsBudget <==> bytes - Previous(old(kv), session) > budget)
      ensures r.Ok? ==>
                var extra := bytes - Previous(old(kv), session);
                && (if extra > 0 then IsPlan(old(kv), session, old(kvUsed), extra, budget, r.value) else r.value == [])
                && Ids(r.value) <= Idle(old(kv), session)
                && kv == (old(kv) - Ids(r.value))[session := KvEntry(bytes, c, now, backend, true)]
                && kvUsed == old(kvUsed) + bytes - Previous(old(kv), session) - Total(old(kv), Ids(r.value))
                && dropped == old(dropped) + Drops(old(kv), r.value)
    {
      hide Total, Inv;
      var previous := Previous(kv, session);
      var evicted: seq<string> := [];
      ghost var before := kv;
      assert Ids([]) == {};
      NothingTaken(kv, []);
      if bytes > previous {
        var extra := bytes - previous;
        TotalSubset(kv, Idle(kv, session), kv.Keys);
        FitsExact(kv, kvUsed, extra, budget, Idle(kv, session));
        if extra > budget {
          return Err(ExceedsBudget);
        }
        var plan, enough := Plan(session, extra);
        if !enough {
          return Err(Exhausted);
        }
        TotalSubset(kv, Ids(plan), kv.Keys);
        Evict(plan);
        evicted := plan;
        kvUsed := kvUsed + extra;
      } else {
        if session in kv { TotalRemove(kv, kv.Keys, session); }
        kvUsed := SatSub(kvUsed, previous - bytes);
      }
      CommitTotal(before, session, Ids(evicted), KvEntry(bytes, c, now, backend, true));
      kv := kv[session := KvEntry(bytes, c, now, backend, true)];
      assert before - {} == before;
      r := Ok(evicted);
    }

    method MarkIdle(session: string, now: nat)
      requires Valid()
      modifies this`kv
      ensures Valid()
      ensures kv == if session in old(kv)
                    then old(kv)[session := old(kv)[session].(active := false, lastUsed := now)]
                    else old(kv)
    {
      if session in kv {
        kv := kv[session := kv[session].(active := false, lastUsed := now)];
        assert kv.Keys == old(kv).Keys;
        TotalSame(old(kv), kv, kv.Keys);
      }
    }

    method ReleaseKv(session: string)
      requires Valid()
      modifies this`kv, this`kvUsed
      ensures Valid() && kv == old(kv) - {session} && kvUsed == old(kvUsed) - Previous(old(kv), session)
    {
      if session in kv {
        TotalRemove(kv, kv.Keys, session);
        kvUsed := SatSub(kvUsed, kv[session].bytes);
        kv := kv - {session};
        assert kv.Keys == old(kv).Keys - {session};
        TotalSame(old(kv), kv, kv.Keys);
      } else {
        assert kv - {session} == kv;
      }
    }
  }

  lemma {:induction false} NothingTaken(kv: Kv, plan: seq<string>)
    ensures Ids(plan[..0]) == {} && Total(kv, {}) == 0 && Drops(kv, []) == [] && kv - {} == kv
  {
  }
}
