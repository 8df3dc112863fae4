/** The tool round trip in the session worker: no call is lost, answered twice or left behind. */
module ToolCalls {
  import opened Bytes

  datatype Call = Call(id: string, name: string, arguments: string)

  /** What the worker appends to the history after the client's own messages. */
  datatype Entry = Called(id: string) | Answered(id: string, content: string)

  datatype BackendEvent =
    | OneCall(call: Call)
    | ManyCalls(calls: seq<Call>)
    | Token
    | Finished
    | Failed

  datatype Item = Item(id: string, content: string)

  /** One request of the client, with what the backend then does, if a turn is run. */
  datatype Request =
    | Generate(turn: Turn)
    | Results(items: seq<Item>, turn: Turn)

  /** `begun` is whether the turn gets past the checks; `offered` is which calls the turn's tools allow. */
  datatype Turn = Turn(begun: bool, offered: Call -> bool, events: seq<BackendEvent>)

  /** The history since the last generate, and the ids that are still to be answered. */
  datatype State = State(log: seq<Entry>, pending: seq<string>)

  // ----- steps -----

  predicate AllOffered(t: Turn, calls: seq<Call>)
  {
    forall i :: 0 <= i < |calls| ==> t.offered(calls[i])
  }

  function PushCalls(st: State, calls: seq<Call>): State
    decreases |calls|
  {
    if calls == [] then st
    else PushCalls(State(st.log + [Called(calls[0].id)], st.pending + [calls[0].id]), calls[1..])
  }

  /** The event loop of a turn, from event `i` on. */
  function Events(st: State, t: Turn, i: nat): State
    requires i <= |t.events|
    decreases |t.events| - i
  {
    if i == |t.events| then st
    else match t.events[i]
      case OneCall(c) => if AllOffered(t, [c]) then Events(PushCalls(st, [c]), t, i + 1) else st
      case ManyCalls(cs) => if AllOffered(t, cs) then Events(PushCalls(st, cs), t, i + 1) else st
      case Token => Events(st, t, i + 1)
      case Finished => st
      case Failed => st
  }

  function RunTurn(st: State, t: Turn): State
  {
    if t.begun then Events(st, t, 0) else st
  }

  function Position(pending: seq<string>, id: string): (i: int)
    ensures -1 <= i < |pending|
    ensures i >= 0 ==> pending[i] == id
    ensures i < 0 ==> id !in pending
  {
    if pending == [] then -1
    else if pending[0] == id then 0
    else
      var i := Position(pending[1..], id);
      if i < 0 then -1 else i + 1
  }

  /** Takes answers until one names a call that is not outstanding; says whether all were taken. */
  function Take(st: State, items: seq<Item>): (State, bool)
    decreases |items|
  {
    if items == [] then (st, true)
    else
      var at := Position(st.pending, items[0].id);
      if at < 0 then (st, false)
      else
        var taken := State(st.log + [Answered(items[0].id, items[0].content)], st.pending[..at] + st.pending[at + 1..]);
        Take(taken, items[1..])
  }

  function AnswerTools(st: State, items: seq<Item>, t: Turn): State
  {
    if st.pending == [] then st
    else
      var taken := Take(st, items);
      if taken.1 && taken.0.pending == [] then RunTurn(taken.0, t) else taken.0
  }

  function Handle(st: State, r: Request): State
  {
    match r
    case Generate(t) => RunTurn(State([], []), t)
    case Results(items, t) => AnswerTools(st, items, t)
  }

  // ----- conservation -----

  function CalledIds(log: seq<Entry>): multiset<string>
  {
    if log == [] then multiset{}
    else
      var n := |log| - 1;
      CalledIds(log[..n]) + if log[n].Called? then multiset{log[n].id} else multiset{}
  }

  function AnsweredIds(log: seq<Entry>): multiset<string>
  {
    if log == [] then multiset{}
    else
      var n := |log| - 1;
      AnsweredIds(log[..n]) + if log[n].Answered? then multiset{log[n].id} else multiset{}
  }

  /** Called is answered plus pending, with duplicate ids counted. */
  ghost predicate Conserved(st: State)
  {
    CalledIds(st.log) == AnsweredIds(st.log) + multiset(st.pending)
  }

  lemma {:induction false} LogSnoc(log: seq<Entry>, e: Entry)
    ensures CalledIds(log + [e]) == CalledIds(log) + if e.Called? then multiset{e.id} else multiset{}
    ensures AnsweredIds(log + [e]) == AnsweredIds(log) + if e.Answered? then multiset{e.id} else multiset{}
  {
    assert (log + [e])[..|log|] == log;
  }

  lemma {:induction false} PushConserves(st: State, calls: seq<Call>)
    requires Conserved(st)
    ensures Conserved(PushCalls(st, calls))
    decreases |calls|
  {
    if calls != [] {
      hide CalledIds, AnsweredIds;
      var id := calls[0].id;
      LogSnoc(st.log, Called(id));
      PushConserves(State(st.log + [Called(id)], st.pending + [id]), calls[1..]);
    }
  }

  lemma {:induction false} EventsConserve(st: State, t: Turn, i: nat)
    requires Conserved(st) && i <= |t.events|
    ensures Conserved(Events(st, t, i))
    decreases |t.events| - i
  {
    hide Conserved, PushCalls;
    if i < |t.events| {
      match t.events[i]
      case OneCall(c) =>
        if AllOffered(t, [c]) {
          PushConserves(st, [c]);
          EventsConserve(PushCalls(st, [c]), t, i + 1);
        }
      case ManyCalls(cs) =>
        if AllOffered(t, cs) {
          PushConserves(st, cs);
          EventsConserve(PushCalls(st, cs), t, i + 1);
        }
      case Token => EventsConserve(st, t, i + 1);
      case Finished =>
      case Failed =>
    }
  }

  lemma {:induction false} RemoveOne(pending: seq<string>, at: nat)
    requires at < |pending|
    ensures multiset(pending) == multiset(pending[..at] + pending[at + 1..]) + multiset{pending[at]}
  {
    assert pending == pending[..at] + [pending[at]] + pending[at + 1..];
  }

  lemma {:induction false} AnswerConserves(st: State, at: nat, content: string)
    requires Conserved(st) && at < |st.pending|
    ensures Conserved(State(st.log + [Answered(st.pending[at], content)], st.pending[..at] + st.pending[at + 1..]))
  {
    hide CalledIds, AnsweredIds;
    LogSnoc(st.log, Answered(st.pending[at], content));
    RemoveOne(st.pending, at);
  }

  lemma {:induction false} TakeConserves(st: State, items: seq<Item>)
    requires Conserved(st)
    ensures Conserved(Take(st, items).0)
    decreases |items|
  {
    hide Conserved, Position;
    if items != [] {
      var at := Position(st.pending, items[0].id);
      if at >= 0 {
        AnswerConserves(st, at, items[0].content);
        var taken := State(st.log + [Answered(items[0].id, items[0].content)], st.pending[..at] + st.pending[at + 1..]);
        TakeConserves(taken, items[1..]);
      }
    }
  }

  lemma {:induction false} HandleConserves(st: State, r: Request)
    requires Conserved(st)
    ensures Conserved(Handle(st, r))
  {
    hide CalledIds, AnsweredIds, Events, Take;
    match r
    case Generate(t) =>
      NothingCalled();
      EventsConserve(State([], []), t, 0);
    case Results(items, t) =>
      TakeConserves(st, items);
      var taken := Take(st, items).0;
      EventsConserve(taken, t, 0);
  }

  lemma {:induction false} NothingCalled()
    ensures Conserved(State([], []))
  {
  }

  function RunAll(st: State, rs: seq<Request>): State
    decreases |rs|
  {
    if rs == [] then st else RunAll(Handle(st, rs[0]), rs[1..])
  }

  lemma {:induction false} RunsConserve(st: State, rs: seq<Request>)
    requires Conserved(st)
    ensures Conserved(RunAll(st, rs))
    decreases |rs|
  {
    hide Conserved, Handle;
    if rs != [] {
      HandleConserves(st, rs[0]);
      RunsConserve(Handle(st, rs[0]), rs[1..]);
    }
  }

  /** After every run of requests, the ids called since the last generate are those answered plus those pending. */
  lemma {:induction false} EveryRunConserves(rs: seq<Request>)
    ensures Conserved(RunAll(State([], []), rs))
  {
    NothingCalled();
    RunsConserve(State([], []), rs);
  }

  /** The state in which a request starts a turn, if it does. */
  function TurnStart(st: State, r: Request): Option<State>
  {
    match r
    case Generate(_) => Some(State([], []))
    case Results(items, _) =>
      if st.pending != [] && Take(st, items).1 && Take(st, items).0.pending == [] then Some(Take(st, items).0) else None
  }

  /** Every turn of every run starts with each earlier call answered, exactly as often as it was made. */
  lemma {:induction false} TurnsStartAnswered(before: seq<Request>, r: Request)
    ensures var st := RunAll(State([], []), before);
            var start := TurnStart(st, r);
            && (start.Some? ==> Handle(st, r) == RunTurn(start.value, r.turn))
            && (start.Some? ==> CalledIds(start.value.log) == AnsweredIds(start.value.log) && start.value.pending == [])
            && (start.None? ==> Handle(st, r) == if st.pending == [] then st else Take(st, r.items).0)
  {
    hide CalledIds, AnsweredIds, RunAll, Take, RunTurn;
    EveryRunConserves(before);
    NothingCalled();
    var st := RunAll(State([], []), before);
    if r.Results? {
      TakeConserves(st, r.items);
    }
  }

  // ----- what a turn and a batch of answers add -----

  function CallsIn(e: BackendEvent): seq<Call>
  {
    match e
    case OneCall(c) => [c]
    case ManyCalls(cs) => cs
    case _ => []
  }

  /** The turn goes on after this event. */
  predicate Accepted(t: Turn, e: BackendEvent)
  {
    !e.Finished? && !e.Failed? && forall i :: 0 <= i < |CallsIn(e)| ==> t.offered(CallsIn(e)[i])
  }

  /** The ids of the calls of these events, in order. */
  function CallIds(es: seq<BackendEvent>): seq<string>
  {
    if es == [] then []
    else seq(|CallsIn(es[0])|, i requires 0 <= i < |CallsIn(es[0])| => CallsIn(es[0])[i].id) + CallIds(es[1..])
  }

  function Entries(ids: seq<string>): (r: seq<Entry>)
    ensures |r| == |ids| && forall i :: 0 <= i < |ids| ==> r[i] == Called(ids[i])
  {
    seq(|ids|, i requires 0 <= i < |ids| => Called(ids[i]))
  }

  lemma {:induction false} PushAdds(st: State, calls: seq<Call>)
    ensures var ids := seq(|calls|, i requires 0 <= i < |calls| => calls[i].id);
            PushCalls(st, calls) == State(st.log + Entries(ids), st.pending + ids)
    decreases |calls|
  {
    var ids := seq(|calls|, i requires 0 <= i < |calls| => calls[i].id);
    if calls == [] {
      assert st.log + Entries(ids) == st.log && st.pending + ids == st.pending;
    } else {
      var rest := seq(|calls[1..]|, i requires 0 <= i < |calls[1..]| => calls[1..][i].id);
      var id := calls[0].id;
      PushAdds(State(st.log + [Called(id)], st.pending + [id]), calls[1..]);
      assert ids == [id] + rest && Entries(ids) == [Called(id)] + Entries(rest);
      assert st.log + [Called(id)] + Entries(rest) == st.log + ([Called(id)] + Entries(rest));
      assert st.pending + [id] + rest == st.pending + ([id] + rest);
    }
  }

  /** The first event from `i` on that ends the turn, or the end. */
  lemma {:induction false} EventsAdd(st: State, t: Turn, i: nat) returns (n: nat)
    requires i <= |t.events|
    ensures i <= n <= |t.events| && (n < |t.events| ==> !Accepted(t, t.events[n]))
    ensures forall k :: i <= k < n ==> Accepted(t, t.events[k])
    ensures var ids := CallIds(t.events[i..n]);
            Events(st, t, i) == State(st.log + Entries(ids), st.pending + ids)
    decreases |t.events| - i
  {
    hide PushCalls, Entries;
    n := i;
    if i < |t.events| && Accepted(t, t.events[i]) {
      var cs := CallsIn(t.events[i]);
      var first := seq(|cs|, k requires 0 <= k < |cs| => cs[k].id);
      PushAdds(st, cs);
      var next := PushCalls(st, cs);
      n := EventsAdd(next, t, i + 1);
      var rest := CallIds(t.events[i + 1..n]);
      var es := t.events[i..n];
      assert es[0] == t.events[i] && es[1..] == t.events[i + 1..n];
      assert CallIds(es) == first + rest;
      EntriesJoin(st, first, rest);
      assert t.events[i].Token? ==> next == st by { if t.events[i].Token? { NothingAdded(st); assert cs == []; } }
    } else {
      assert t.events[i..i] == [];
      NothingAdded(st);
    }
  }

  lemma {:induction false} EntriesJoin(st: State, a: seq<string>, b: seq<string>)
    ensures st.log + Entries(a) + Entries(b) == st.log + Entries(a + b) && st.pending + a + b == st.pending + (a + b)
  {
    assert Entries(a + b) == Entries(a) + Entries(b);
  }

  lemma {:induction false} NothingAdded(st: State)
    ensures st.log + Entries([]) == st.log && st.pending + [] == st.pending && PushCalls(st, []) == st
  {
  }

  /** A turn that begins adds exactly the calls before its first refused or final event, each to the log and to what is
      pending, in order; one that does not begin adds none. */
  lemma {:induction false} TurnAddsItsCalls(st: State, t: Turn) returns (n: nat)
    ensures n <= |t.events| && (t.begun && n < |t.events| ==> !Accepted(t, t.events[n]))
    ensures forall k :: 0 <= k < n ==> Accepted(t, t.events[k])
    ensures !t.begun ==> n == 0
    ensures var ids := CallIds(t.events[..n]);
            RunTurn(st, t) == State(st.log + Entries(ids), st.pending + ids)
  {
    hide Events, Entries, PushCalls;
    n := 0;
    if t.begun {
      n := EventsAdd(st, t, 0);
      assert t.events[0..n] == t.events[..n];
    } else {
      assert t.events[..0] == [];
      NothingAdded(st);
    }
  }

  /** Answers are logged with their contents, in order, up to the first that names no outstanding call. */
  lemma {:induction false} AnswersAreLogged(st: State, items: seq<Item>) returns (n: nat)
    ensures n <= |items| && (Take(st, items).1 <==> n == |items|)
    ensures var log := Take(st, items).0.log;
            && |log| == |st.log| + n && log[..|st.log|] == st.log
            && forall i :: 0 <= i < n ==> log[|st.log| + i] == Answered(items[i].id, items[i].content)
    ensures n < |items| ==> items[n].id !in Take(st, items).0.pending
    decreases |items|
  {
    hide Position;
    n := 0;
    if items != [] {
      var at := Position(st.pending, items[0].id);
      if at >= 0 {
        var entry := Answered(items[0].id, items[0].content);
        var taken := State(st.log + [entry], st.pending[..at] + st.pending[at + 1..]);
        var m := AnswersAreLogged(taken, items[1..]);
        n := m + 1;
        var log := Take(st, items).0.log;
        assert log[..|st.log| + 1] == st.log + [entry];
        assert log[|st.log|] == log[..|st.log| + 1][|st.log|];
        assert log[..|st.log|] == log[..|st.log| + 1][..|st.log|];
        forall i | 0 <= i < n
          ensures log[|st.log| + i] == Answered(items[i].id, items[i].content)
        {
          if i > 0 { assert items[i] == items[1..][i - 1]; }
        }
      }
    }
  }

  // ----- the worker -----

  class Worker {
    var history: seq<Entry>
    var pending: seq<string>

    function View(): State
      reads this
    {
      State(history, pending)
    }

    method TurnLoop(t: Turn)
      modifies this
      ensures View() == RunTurn(old(View()), t)
    {
      if !t.begun {
        return;
      }
      ghost var spec := Events(View(), t, 0);
      for i := 0 to |t.events|
        invariant Events(View(), t, i) == spec
      {
        match t.events[i] {
          case OneCall(c) =>
            if !AllOffered(t, [c]) {
              return;
            }
            Push([c]);
          case ManyCalls(cs) =>
            if !AllOffered(t, cs) {
              return;
            }
            Push(cs);
          case Token =>
          case Finished => return;
          case Failed => return;
        }
      }
    }

    method Push(calls: seq<Call>)
      modifies this
      ensures View() == PushCalls(old(View()), calls)
    {
      assert calls[0..] == calls;
      for k := 0 to |calls|
        invariant PushCalls(View(), calls[k..]) == PushCalls(old(View()), calls)
      {
        assert calls[k..][0] == calls[k] && calls[k..][1..] == calls[k + 1..];
        history := history + [Called(calls[k].id)];
        pending := pending + [calls[k].id];
      }
      assert calls[|calls|..] == [];
    }

    method StartOver(t: Turn)
      modifies this
      ensures View() == Handle(old(View()), Generate(t))
    {
      history := [];
      pending := [];
      TurnLoop(t);
    }

    method Answer(items: seq<Item>, t: Turn)
      modifies this
      ensures View() == Handle(old(View()), Results(items, t))
    {
      if pending == [] {
        return;
      }
      assert items[0..] == items;
      for k := 0 to |items|
        invariant Take(View(), items[k..]) == Take(old(View()), items)
      {
        assert items[k..][0] == items[k] && items[k..][1..] == items[k + 1..];
        var at := Position(pending, items[k].id);
        if at < 0 {
          return;
        }
        pending := pending[..at] + pending[at + 1..];
        history := history + [Answered(items[k].id, items[k].content)];
      }
      assert items[|items|..] == [];
      if pending == [] {
        TurnLoop(t);
      }
    }
  }
}
