/** Decode slots: admission order, class caps and preemption, as steps on a value. */
module Slots {
  import opened Bytes

  datatype Class = Interactive | Background

  datatype Target = Target(backend: string, req: nat)
  datatype Message = SetPaused(target: Target, paused: bool)

  datatype Running = Running(ticket: nat, session: string, kind: Class, target: Option<Target>, paused: bool)
  datatype Waiter = Waiter(ticket: nat, session: string, kind: Class)

  datatype Config = Config(maxInteractive: nat, maxBackground: nat) {
    function Cap(c: Class): nat
    {
      if c.Interactive? then maxInteractive else maxBackground
    }
  }

  /** At least one slot per class, as `Scheduler::new` makes sure. */
  type Caps = c: Config | c.maxInteractive >= 1 && c.maxBackground >= 1 witness Config(1, 1)

  datatype State = State(running: seq<Running>, waiting: seq<Waiter>, served: map<string, nat>, next: nat,
      sent: seq<Message>)

  const INITIAL := State([], [], map[], 1, [])

  // ----- the order of waiters -----

  function Served(st: State, session: string): nat
  {
    if session in st.served then st.served[session] else 0
  }

  function Rank(c: Class): nat
  {
    if c.Interactive? then 0 else 1
  }

  /** Class first, then least served, then ticket. */
  predicate Before(st: State, a: Waiter, b: Waiter)
  {
    || Rank(a.kind) < Rank(b.kind)
    || (a.kind == b.kind
        && (Served(st, a.session) < Served(st, b.session)
            || (Served(st, a.session) == Served(st, b.session) && a.ticket < b.ticket)))
  }

  function CountClass(rs: seq<Running>, c: Class): nat
  {
    if rs == [] then 0 else CountClass(rs[1..], c) + if rs[0].kind == c then 1 else 0
  }

  function FindWaiter(ws: seq<Waiter>, ticket: nat): (i: int)
    ensures -1 <= i < |ws|
    ensures i >= 0 ==> ws[i].ticket == ticket
    ensures i < 0 ==> forall k :: 0 <= k < |ws| ==> ws[k].ticket != ticket
  {
    if ws == [] then -1
    else if ws[0].ticket == ticket then 0
    else
      var i := FindWaiter(ws[1..], ticket);
      if i < 0 then -1 else i + 1
  }

  predicate IsTurn(cfg: Config, st: State, ticket: nat)
  {
    var i := FindWaiter(st.waiting, ticket);
    && i >= 0
    && CountClass(st.running, st.waiting[i].kind) < cfg.Cap(st.waiting[i].kind)
    && forall k :: 0 <= k < |st.waiting| ==> !Before(st, st.waiting[k], st.waiting[i])
  }

  // ----- steps -----

  function DropWaiter(ws: seq<Waiter>, ticket: nat): seq<Waiter>
  {
    if ws == [] then []
    else (if ws[0].ticket == ticket then [] else [ws[0]]) + DropWaiter(ws[1..], ticket)
  }

  function DropRunning(rs: seq<Running>, ticket: nat): seq<Running>
  {
    if rs == [] then []
    else (if rs[0].ticket == ticket then [] else [rs[0]]) + DropRunning(rs[1..], ticket)
  }

  /** Whether setting the flag to `paused` changes this entry. */
  predicate Flips(r: Running, paused: bool)
  {
    if paused then r.kind.Background? && !r.paused else r.paused
  }

  function SetAll(rs: seq<Running>, paused: bool): (out: seq<Running>)
    ensures |out| == |rs|
    ensures forall i :: 0 <= i < |rs| ==> out[i] == if Flips(rs[i], paused) then rs[i].(paused := paused) else rs[i]
  {
    if rs == [] then []
    else [if Flips(rs[0], paused) then rs[0].(paused := paused) else rs[0]] + SetAll(rs[1..], paused)
  }

  /** One message per attached request whose flag changes. */
  function Notices(rs: seq<Running>, paused: bool): seq<Message>
  {
    if rs == [] then []
    else (if Flips(rs[0], paused) && rs[0].target.Some? then [SetPaused(rs[0].target.value, paused)] else [])
         + Notices(rs[1..], paused)
  }

  predicate SomeInteractive(rs: seq<Running>)
  {
    exists i :: 0 <= i < |rs| && rs[i].kind.Interactive?
  }

  function Arrive(st: State, session: string, c: Class): State
  {
    st.(waiting := st.waiting + [Waiter(st.next, session, c)], next := st.next + 1)
  }

  /** One look of a waiting request at whether it is its turn. */
  function Admit(cfg: Config, st: State, ticket: nat): State
  {
    if !IsTurn(cfg, st, ticket) then st
    else
      var w := st.waiting[FindWaiter(st.waiting, ticket)];
      var rs := st.running + [Running(ticket, w.session, w.kind, None, false)];
      var moved := st.(waiting := DropWaiter(st.waiting, ticket), running := rs);
      if w.kind.Interactive? then moved.(running := SetAll(rs, true), sent := st.sent + Notices(rs, true))
      else moved
  }

  predicate OtherInteractive(rs: seq<Running>, ticket: nat)
  {
    exists i :: 0 <= i < |rs| && rs[i].kind.Interactive? && rs[i].ticket != ticket
  }

  function FindRunning(rs: seq<Running>, ticket: nat): (i: int)
    ensures -1 <= i < |rs|
    ensures i >= 0 ==> rs[i].ticket == ticket
    ensures i < 0 ==> forall k :: 0 <= k < |rs| ==> rs[k].ticket != ticket
  {
    if rs == [] then -1
    else if rs[0].ticket == ticket then 0
    else
      var i := FindRunning(rs[1..], ticket);
      if i < 0 then -1 else i + 1
  }

  function Attach(st: State, ticket: nat, t: Target): State
  {
    var i := FindRunning(st.running, ticket);
    if i < 0 then st
    else
      var r := st.running[i].(target := Some(t));
      if r.kind.Background? && OtherInteractive(st.running, ticket) then
        st.(running := st.running[i := r.(paused := true)], sent := st.sent + [SetPaused(t, true)])
      else st.(running := st.running[i := r])
  }

  function Release(st: State, ticket: nat): State
  {
    var rs := DropRunning(st.running, ticket);
    if SomeInteractive(rs) then st.(running := rs)
    else st.(running := SetAll(rs, false), sent := st.sent + Notices(rs, false))
  }

  function Charge(st: State, session: string, tokens: nat): State
  {
    st.(served := st.served[session := Served(st, session) + tokens])
  }

  datatype Event =
    | DoArrive(session: string, kind: Class)
    | DoAdmit(ticket: nat)
    | DoAttach(ticket: nat, target: Target)
    | DoRelease(ticket: nat)
    | DoCharge(session: string, tokens: nat)

  function Step(cfg: Config, st: State, e: Event): State
  {
    match e
    case DoArrive(s, c) => Arrive(st, s, c)
    case DoAdmit(t) => Admit(cfg, st, t)
    case DoAttach(t, target) => Attach(st, t, target)
    case DoRelease(t) => Release(st, t)
    case DoCharge(s, n) => Charge(st, s, n)
  }

  // ----- the invariant of every run -----

  ghost predicate Tickets(st: State)
  {
    && (forall i :: 0 <= i < |st.waiting| ==> st.waiting[i].ticket < st.next)
    && (forall i :: 0 <= i < |st.running| ==> st.running[i].ticket < st.next)
    && (forall i, j :: 0 <= i < j < |st.waiting| ==> st.waiting[i].ticket != st.waiting[j].ticket)
    && (forall i, j :: 0 <= i < j < |st.running| ==> st.running[i].ticket != st.running[j].ticket)
    && (forall i, j :: 0 <= i < |st.waiting| && 0 <= j < |st.running| ==> st.waiting[i].ticket != st.running[j].ticket)
  }

  ghost predicate WithinCaps(cfg: Config, st: State)
  {
    CountClass(st.running, Interactive) <= cfg.maxInteractive && CountClass(st.running, Background) <= cfg.maxBackground
  }

  /** Interactive requests are never paused; a paused one has a reason; an attached background one is paused
      while there is one. */
  ghost predicate Preemption(rs: seq<Running>)
  {
    && (forall i :: 0 <= i < |rs| && rs[i].kind.Interactive? ==> !rs[i].paused)
    && (forall i :: 0 <= i < |rs| && rs[i].paused ==> SomeInteractive(rs))
    && (forall i :: 0 <= i < |rs| && rs[i].kind.Background? && rs[i].target.Some? && SomeInteractive(rs) ==>
        rs[i].paused)
  }

  ghost predicate Inv(cfg: Config, st: State)
  {
    Tickets(st) && WithinCaps(cfg, st) && Preemption(st.running)
  }
}
