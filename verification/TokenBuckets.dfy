/** Token buckets over the reals: what an identity and its sessions can be granted. */
module TokenBuckets {
  import opened Bytes

  datatype BucketState = BucketState(tokens: real, capacity: real, rate: real, last: real) {
    predicate Valid()
    {
      0.0 <= tokens <= capacity && 0.0 < rate && 0.0 < capacity
    }
  }

  function Least(a: real, b: real): real
  {
    if a <= b then a else b
  }

  /** A full bucket: the per-minute allowance, refilled over sixty seconds. */
  function NewBucket(perMinute: nat, now: real): (b: BucketState)
    ensures b.Valid() && b.tokens == b.capacity && b.last == now
  {
    var capacity := (if perMinute >= 1 then perMinute else 1) as real;
    BucketState(capacity, capacity, capacity / 60.0, now)
  }

  /** What flows in between two instants. */
  function Gain(rate: real, from: real, to: real): real
  {
    rate * (to - from)
  }

  lemma {:induction false} GainNonNegative(rate: real, from: real, to: real)
    requires from <= to && rate > 0.0
    ensures Gain(rate, from, to) >= 0.0 && Gain(rate, from, from) == 0.0
  {
  }

  lemma {:induction false} GainSplits(rate: real, a: real, b: real, c: real)
    ensures Gain(rate, a, b) + Gain(rate, b, c) == Gain(rate, a, c)
  {
  }

  function Refill(b: BucketState, now: real): BucketState
  {
    b.(tokens := Least(b.tokens + Gain(b.rate, b.last, now), b.capacity), last := now)
  }

  function Take(b: BucketState, now: real, n: nat): (r: (BucketState, bool))
  {
    var full := Refill(b, now);
    if full.tokens >= n as real then (full.(tokens := full.tokens - n as real), true) else (full, false)
  }

  class Bucket {
    var state: BucketState

    constructor (perMinute: nat, now: real)
      ensures state == NewBucket(perMinute, now)
    {
      state := NewBucket(perMinute, now);
    }

    method TakeTokens(now: real, n: nat) returns (granted: bool)
      requires state.Valid() && now >= state.last
      modifies this
      ensures (state, granted) == Take(old(state), now, n) && state.Valid()
      ensures state.last == now && state.capacity == old(state.capacity) && state.rate == old(state.rate)
      ensures granted ==> state.tokens + n as real <= old(state.tokens) + Gain(old(state.rate), old(state.last), now)
    {
      hide Gain;
      var tokens := state.tokens + Gain(state.rate, state.last, now);
      GainNonNegative(state.rate, state.last, now);
      if tokens > state.capacity { tokens := state.capacity; }
      granted := tokens >= n as real;
      state := state.(tokens := if granted then tokens - n as real else tokens, last := now);
    }
  }

  // ----- one bucket over a run -----

  datatype Request = Request(at: real, n: nat)

  ghost predicate InOrder(from: real, rs: seq<Request>)
    decreases |rs|
  {
    rs == [] || (rs[0].at >= from && InOrder(rs[0].at, rs[1..]))
  }

  function After(b: BucketState, rs: seq<Request>): BucketState
    decreases |rs|
  {
    if rs == [] then b else After(Take(b, rs[0].at, rs[0].n).0, rs[1..])
  }

  function Granted(b: BucketState, rs: seq<Request>): nat
    decreases |rs|
  {
    if rs == [] then 0
    else
      var r := Take(b, rs[0].at, rs[0].n);
      (if r.1 then rs[0].n else 0) + Granted(r.0, rs[1..])
  }

  lemma {:induction false} TakeConserves(b: BucketState, now: real, n: nat)
    requires b.Valid() && now >= b.last
    ensures var r := Take(b, now, n);
            && r.0.Valid() && r.0.last == now && r.0.capacity == b.capacity && r.0.rate == b.rate
            && r.0.tokens + (if r.1 then n as real else 0.0) <= b.tokens + Gain(b.rate, b.last, now)
  {
    hide Gain;
    GainNonNegative(b.rate, b.last, now);
  }

  lemma {:induction false} RunConserves(b: BucketState, rs: seq<Request>)
    requires b.Valid() && InOrder(b.last, rs)
    ensures var e := After(b, rs);
            && e.Valid() && e.last >= b.last && e.capacity == b.capacity && e.rate == b.rate
            && Granted(b, rs) as real + e.tokens <= b.tokens + Gain(b.rate, b.last, e.last)
    decreases |rs|
  {
    hide Gain, Take;
    if rs == [] {
      GainNonNegative(b.rate, b.last, b.last);
    } else {
      var r := Take(b, rs[0].at, rs[0].n);
      TakeConserves(b, rs[0].at, rs[0].n);
      RunConserves(r.0, rs[1..]);
      GainSplits(b.rate, b.last, rs[0].at, After(b, rs).last);
    }
  }

  /** Over any stretch of any run, what is granted is at most the capacity plus what was refilled. */
  lemma {:induction false} BucketBound(b: BucketState, rs: seq<Request>, until: real)
    requires b.Valid() && InOrder(b.last, rs) && until >= After(b, rs).last
    ensures Granted(b, rs) as real <= b.capacity + Gain(b.rate, b.last, until)
  {
    hide Gain, Take, After, Granted;
    RunConserves(b, rs);
    var e := After(b, rs);
    GainNonNegative(b.rate, e.last, until);
    GainSplits(b.rate, b.last, e.last, until);
  }

  /** A stretch that starts in the middle of a run starts from a valid bucket, so the bound holds between any two
      instants. */
  lemma {:induction false} BoundBetween(b: BucketState, before: seq<Request>, rs: seq<Request>, until: real)
    requires b.Valid() && InOrder(b.last, before + rs) && until >= After(b, before + rs).last
    ensures Granted(b, before + rs) == Granted(b, before) + Granted(After(b, before), rs)
    ensures Granted(After(b, before), rs) as real <= b.capacity + Gain(b.rate, After(b, before).last, until)
  {
    hide Gain, Take, After, Granted, InOrder;
    Middle(b, before, rs);
    RunConserves(b, before);
    BucketBound(After(b, before), rs, until);
  }

  lemma {:induction false} Middle(b: BucketState, before: seq<Request>, rs: seq<Request>)
    requires b.Valid() && InOrder(b.last, before + rs)
    ensures InOrder(b.last, before) && InOrder(After(b, before).last, rs)
    ensures After(b, before + rs) == After(After(b, before), rs)
    ensures Granted(b, before + rs) == Granted(b, before) + Granted(After(b, before), rs)
    decreases |before|
  {
    hide Take, Gain;
    if before == [] {
      assert before + rs == rs;
    } else {
      var all := before + rs;
      assert all[0] == before[0] && all[1..] == before[1..] + rs;
      TakeConserves(b, all[0].at, all[0].n);
      Middle(Take(b, all[0].at, all[0].n).0, before[1..], rs);
    }
  }

  // ----- exactly what is granted -----

  /** A request is granted if and only if it is within the capacity and within the balance plus what flowed in since;
      what is left is the smaller of those two, less what was granted. */
  lemma {:induction false} TakeExact(b: BucketState, now: real, n: nat)
    requires b.Valid() && now >= b.last
    ensures var r, inflow := Take(b, now, n), b.rate * (now - b.last);
            && (r.1 <==> n as real <= b.capacity && n as real <= b.tokens + inflow)
            && var left := r.0.tokens + if r.1 then n as real else 0.0;
               left <= b.capacity && left <= b.tokens + inflow && (left == b.capacity || left == b.tokens + inflow)
  {
    GainIs(b.rate, b.last, now);
    hide Gain;
  }

  /** After any run, a request is granted if and only if it is within the capacity and, from the start and from every
      earlier request on, what was granted and it are within what the bucket held and what flowed in. */
  lemma {:induction false} GrantedExact(b: BucketState, rs: seq<Request>, now: real, n: nat)
    requires b.Valid() && InOrder(b.last, rs) && now >= After(b, rs).last
    ensures Take(After(b, rs), now, n).1 <==>
            && n as real <= b.capacity
            && n as real + Granted(b, rs) as real <= b.tokens + Gain(b.rate, b.last, now)
            && forall j :: 0 <= j < |rs| ==> WithinSince(b, rs, j, now, n)
    decreases |rs|
  {
    if rs == [] {
      TakeExact(b, now, n);
    } else {
      var first := rs[0];
      var r := Take(b, first.at, first.n);
      TakeConserves(b, first.at, first.n);
      TakeExact(b, first.at, first.n);
      hide Take, Gain, WithinSince;
      var c := r.0;
      var rest := rs[1..];
      GrantedExact(c, rest, now, n);
      GainSplits(b.rate, b.last, first.at, now);
      FirstSince(b, rs, now, n);
      forall j | 0 <= j < |rest|
        ensures WithinSince(c, rest, j, now, n) == WithinSince(b, rs, j + 1, now, n)
      {
        LaterSince(b, rs, j, now, n);
      }
      GainIs(b.rate, b.last, first.at);
      assert (forall j :: 0 <= j < |rs| ==> WithinSince(b, rs, j, now, n)) <==>
             WithinSince(b, rs, 0, now, n) && forall j :: 0 <= j < |rest| ==> WithinSince(c, rest, j, now, n) by {
        assert forall j :: 1 <= j < |rs| ==> WithinSince(b, rs, j, now, n) == WithinSince(c, rest, j - 1, now, n);
      }
    }
  }

  /** From request `j` on, what was granted and `n` more are within the capacity and what flowed in. */
  ghost predicate WithinSince(b: BucketState, rs: seq<Request>, j: nat, now: real, n: nat)
    requires j < |rs|
  {
    n as real + Granted(After(b, rs[..j]), rs[j..]) as real <= b.capacity + Gain(b.rate, rs[j].at, now)
  }

  lemma {:induction false} GainIs(rate: real, from: real, to: real)
    ensures Gain(rate, from, to) == rate * (to - from)
  {
  }

  lemma {:induction false} FirstSince(b: BucketState, rs: seq<Request>, now: real, n: nat)
    requires rs != []
    ensures WithinSince(b, rs, 0, now, n) <==>
            n as real + Granted(b, rs) as real <= b.capacity + Gain(b.rate, rs[0].at, now)
  {
    hide Gain, Granted;
    assert rs[..0] == [] && rs[0..] == rs;
  }

  lemma {:induction false} LaterSince(b: BucketState, rs: seq<Request>, j: nat, now: real, n: nat)
    requires rs != [] && j < |rs[1..]|
    requires var c := Take(b, rs[0].at, rs[0].n).0; c.capacity == b.capacity && c.rate == b.rate
    ensures WithinSince(Take(b, rs[0].at, rs[0].n).0, rs[1..], j, now, n) == WithinSince(b, rs, j + 1, now, n)
  {
    hide Gain, Granted, Take;
    assert rs[..j + 1][0] == rs[0] && rs[..j + 1][1..] == rs[1..][..j] && rs[j + 1..] == rs[1..][j..];
  }

  /** Sixty seconds fill a bucket from any balance: it then grants up to its whole allowance, which is at least one. */
  lemma {:induction false} MinuteFills(perMinute: nat, start: real, b: BucketState, now: real, n: nat)
    requires b.Valid() && now >= b.last + 60.0
    requires b.capacity == NewBucket(perMinute, start).capacity && b.rate == NewBucket(perMinute, start).rate
    ensures Take(b, now, n).1 <==> n <= perMinute || n <= 1
  {
    var most: nat := if perMinute >= 1 then perMinute else 1;
    assert b.capacity == most as real && b.rate == b.capacity / 60.0;
    hide Take, Gain;
    TakeExact(b, now, n);
    MoreTime(b.rate, b.last, now, b.capacity);
    assert Take(b, now, n).1 <==> n as real <= b.capacity;
    assert n as real <= most as real <==> n <= most;
  }

  lemma {:induction false} MoreTime(rate: real, last: real, now: real, capacity: real)
    requires rate > 0.0 && now >= last + 60.0 && rate == capacity / 60.0
    ensures rate * (now - last) >= capacity
  {
    var extra := now - last - 60.0;
    assert rate * extra >= 0.0;
    assert rate * (now - last) == rate * 60.0 + rate * extra;
  }

  // ----- a narrowed session under its identity -----

  /** Sessions with an allowance of their own, and the bucket that all of them share. */
  datatype Budgets = Budgets(sessions: map<string, BucketState>, identity: BucketState) {
    ghost predicate Valid()
    {
      identity.Valid() && forall s :: s in sessions ==> sessions[s].Valid()
    }
  }

  /** The four places that charge the identity. Only a generate turn asks the session's own allowance first. */
  datatype Kind = Generate | Embed | Media | Overrun

  datatype Charge = Charge(kind: Kind, session: string, at: real, n: nat)

  /** A turn takes from the session's own allowance first, and from the identity only if that passes; both must.
      Embeddings, media and what a turn used beyond its reservation take from the identity alone. */
  function Reserve(b: Budgets, c: Charge): (Budgets, bool)
  {
    var narrowed := c.kind.Generate? && c.session in b.sessions;
    var own := if narrowed then Take(b.sessions[c.session], c.at, c.n) else (b.identity, true);
    var kept := if narrowed then b.(sessions := b.sessions[c.session := own.0]) else b;
    if !own.1 then (kept, false)
    else
      var shared := Take(b.identity, c.at, c.n);
      (kept.(identity := shared.0), shared.1)
  }

  /** A charge is granted if and only if every bucket that it asks grants it. The session's own allowance is asked for a
      turn only and is then used up even if the identity refuses; the identity is not asked when the allowance refuses,
      and no other session is touched. */
  lemma {:induction false} ReserveExact(b: Budgets, c: Charge)
    ensures var r, asked := Reserve(b, c), c.kind == Generate && c.session in b.sessions;
            && (r.1 <==> (asked ==> Take(b.sessions[c.session], c.at, c.n).1) && Take(b.identity, c.at, c.n).1)
            && r.0.sessions.Keys == b.sessions.Keys
            && (forall s :: s in b.sessions ==>
                  r.0.sessions[s] == if asked &&
                      s == c.session then Take(b.sessions[s], c.at, c.n).0 else b.sessions[s])
            && r.0.identity == if asked && !Take(b.sessions[c.session], c.at, c.n).1 then b.identity
                 else Take(b.identity, c.at, c.n).0
  {
    hide Take;
  }

  function AfterCharges(b: Budgets, cs: seq<Charge>): Budgets
    decreases |cs|
  {
    if cs == [] then b else AfterCharges(Reserve(b, cs[0]).0, cs[1..])
  }

  /** Whether a granted charge counts against the bucket of `who`: the identity's counts them all, a session's own
      counts its generate turns. */
  predicate CountsFor(c: Charge, who: Option<string>)
  {
    who.None? || (c.kind.Generate? && c.session == who.value)
  }

  /** Tokens granted that count against the bucket of `who`. */
  function Admitted(b: Budgets, cs: seq<Charge>, who: Option<string>): nat
    decreases |cs|
  {
    if cs == [] then 0
    else
      var r := Reserve(b, cs[0]);
      (if r.1 && CountsFor(cs[0], who) then cs[0].n else 0) + Admitted(r.0, cs[1..], who)
  }

  ghost predicate ChargesInOrder(from: real, cs: seq<Charge>)
    decreases |cs|
  {
    cs == [] || (cs[0].at >= from && ChargesInOrder(cs[0].at, cs[1..]))
  }

  /** Every bucket was last touched at or before `now`. */
  ghost predicate Touched(b: Budgets, now: real)
  {
    b.identity.last <= now && forall s :: s in b.sessions ==> b.sessions[s].last <= now
  }

  function Find(b: Budgets, who: Option<string>): Option<BucketState>
  {
    if who.None? then Some(b.identity)
    else if who.value in b.sessions then Some(b.sessions[who.value]) else None
  }

  lemma {:induction false} ReserveConserves(b: Budgets, c: Charge, who: Option<string>)
    requires b.Valid() && Touched(b, c.at) && Find(b, who).Some?
    ensures var r := Reserve(b, c);
            && r.0.Valid() && Touched(r.0, c.at) && Find(r.0, who).Some?
            && var x, y := Find(b, who).value, Find(r.0, who).value;
               && y.capacity == x.capacity && y.rate == x.rate && y.last >= x.last
               && y.tokens + (if r.1 && CountsFor(c, who) then c.n as real else 0.0)
                  <= x.tokens + Gain(x.rate, x.last, y.last)
  {
    hide Take, Gain;
    if c.session in b.sessions {
      TakeConserves(b.sessions[c.session], c.at, c.n);
    }
    TakeConserves(b.identity, c.at, c.n);
    var x := Find(b, who).value;
    GainNonNegative(x.rate, x.last, x.last);
  }

  lemma {:induction false} ChargesConserve(b: Budgets, cs: seq<Charge>, now: real, who: Option<string>)
    requires b.Valid() && Touched(b, now) && ChargesInOrder(now, cs) && Find(b, who).Some?
    ensures var e := AfterCharges(b, cs);
            && e.Valid() && Find(e, who).Some?
            && var x, y := Find(b, who).value, Find(e, who).value;
               && y.last >= x.last && y.capacity == x.capacity && y.rate == x.rate && 0.0 <= y.tokens <= y.capacity
               && Admitted(b, cs, who) as real + y.tokens <= x.tokens + Gain(x.rate, x.last, y.last)
    decreases |cs|
  {
    hide Gain, Reserve;
    var x := Find(b, who).value;
    if cs == [] {
      GainNonNegative(x.rate, x.last, x.last);
    } else {
      ReserveConserves(b, cs[0], who);
      var next := Reserve(b, cs[0]).0;
      ChargesConserve(next, cs[1..], cs[0].at, who);
      var m, y := Find(next, who).value, Find(AfterCharges(b, cs), who).value;
      GainSplits(x.rate, x.last, m.last, y.last);
    }
  }

  /** What the bucket of `who` allows between its last use and `until`. */
  function Bound(b: Budgets, who: Option<string>, until: real): real
    requires Find(b, who).Some?
  {
    var x := Find(b, who).value;
    x.capacity + Gain(x.rate, x.last, until)
  }

  /** A run of charges by any sessions, at times that do not go back, that ends by `until`. */
  ghost predicate Legal(b: Budgets, cs: seq<Charge>, now: real, who: Option<string>, until: real)
  {
    && b.Valid() && Touched(b, now) && ChargesInOrder(now, cs) && Find(b, who).Some?
    && var e := AfterCharges(b, cs);
       Find(e, who).Some? && until >= Find(e, who).value.last
  }

  /** Every grant of all four kinds, by all sessions together, obeys the identity's bound, and the turns of a narrowed
      session obey its own. */
  lemma {:induction false} BothBoundsHold(b: Budgets, cs: seq<Charge>, now: real, who: Option<string>, until: real)
    requires Legal(b, cs, now, who, until)
    ensures Admitted(b, cs, who) as real <= Bound(b, who, until)
  {
    hide Gain, AfterCharges, Admitted;
    ChargesConserve(b, cs, now, who);
    var x, y := Find(b, who).value, Find(AfterCharges(b, cs), who).value;
    GainNonNegative(x.rate, y.last, until);
    GainSplits(x.rate, x.last, y.last, until);
  }

  // ----- what the session's own bound does not cover -----

  /** Everything granted to a session, whatever it was for. */
  function GrantedTo(b: Budgets, cs: seq<Charge>, session: string): nat
    decreases |cs|
  {
    if cs == [] then 0
    else
      var r := Reserve(b, cs[0]);
      (if r.1 && cs[0].session == session then cs[0].n else 0) + GrantedTo(r.0, cs[1..], session)
  }

  predicate Uses(cs: seq<Charge>, session: string, kinds: set<Kind>)
  {
    forall i :: 0 <= i < |cs| && cs[i].session == session ==> cs[i].kind in kinds
  }

  lemma {:induction false} OnlyTurns(b: Budgets, cs: seq<Charge>, session: string)
    requires Uses(cs, session, {Generate})
    ensures GrantedTo(b, cs, session) == Admitted(b, cs, Some(session))
    decreases |cs|
  {
    hide Reserve;
    if cs != [] {
      assert cs[0].session == session ==> cs[0].kind == Generate;
      OnlyTurns(Reserve(b, cs[0]).0, cs[1..], session);
    }
  }

  /** In this run a session that charges only for these kinds stays within its own bound. */
  ghost predicate StaysWithin(b: Budgets, cs: seq<Charge>, now: real, session: string, until: real, kinds: set<Kind>)
  {
    Legal(b, cs, now, Some(session), until) && Uses(cs, session, kinds) ==>
      GrantedTo(b, cs, session) as real <= Bound(b, Some(session), until)
  }

  /** A session narrowed to one token a minute, under an identity with a thousand. */
  const NARROWED := Budgets(map["child" := NewBucket(1, 0.0)], NewBucket(1000, 0.0))

  /** Any charge but a turn, such as an embedding of five hundred tokens, is granted past the session's own bound. */
  lemma {:induction false} EmbedPassesOwnBound(kind: Kind)
    requires kind != Generate
    ensures var cs := [Charge(kind, "child", 0.0, 500)];
            && Legal(NARROWED, cs, 0.0, Some("child"), 0.0) && Reserve(NARROWED, cs[0]).1
            && GrantedTo(NARROWED, cs, "child") == 500 && Bound(NARROWED, Some("child"), 0.0) == 1.0
  {
    hide Gain, Take, NewBucket;
    var c := Charge(kind, "child", 0.0, 500);
    FullBucketGrants(1000, 0.0, 500);
    FullBucketGrants(1, 0.0, 0);
    var r := Reserve(NARROWED, c);
    assert r.1 && r.0.sessions == NARROWED.sessions;
    assert [c][1..] == [];
    assert AfterCharges(NARROWED, [c]) == r.0;
    assert GrantedTo(NARROWED, [c], "child") == 500 + GrantedTo(r.0, [], "child");
    GainNonNegative(NARROWED.sessions["child"].rate, 0.0, 0.0);
    assert NARROWED.Valid() && Touched(NARROWED, 0.0) && ChargesInOrder(0.0, [c]);
    assert Find(NARROWED, Some("child")) == Find(r.0, Some("child")) == Some(NewBucket(1, 0.0));
    assert Legal(NARROWED, [c], 0.0, Some("child"), 0.0);
  }

  lemma {:induction false} FullBucketGrants(perMinute: nat, now: real, n: nat)
    requires 1 <= perMinute && n <= perMinute
    ensures NewBucket(perMinute, now).capacity == perMinute as real && Take(NewBucket(perMinute, now), now, n).1
  {
    hide Gain;
    GainNonNegative(NewBucket(perMinute, now).rate, now, now);
  }

  /** A session's own bound covers all that it is granted, on every run, if and only if it only ever charges for
      turns. */
  lemma {:induction false} OwnBoundCoversTurns(kinds: set<Kind>)
    ensures (forall b, cs, now, session, until :: StaysWithin(b, cs, now, session, until, kinds)) <==>
            kinds <= {Generate}
  {
    hide StaysWithin;
    if kinds <= {Generate} {
      forall b, cs, now, session, until
        ensures StaysWithin(b, cs, now, session, until, kinds)
      {
        TurnsStayWithin(b, cs, now, session, until, kinds);
      }
    } else {
      var kind :| kind in kinds && kind != Generate;
      ChargeEscapes(kind, kinds);
    }
  }

  lemma {:induction false} TurnsStayWithin(b: Budgets, cs: seq<Charge>, now: real, session: string, until: real,
                                           kinds: set<Kind>)
    requires kinds <= {Generate}
    ensures StaysWithin(b, cs, now, session, until, kinds)
  {
    hide Legal, Bound, GrantedTo, Admitted;
    if Legal(b, cs, now, Some(session), until) && Uses(cs, session, kinds) {
      HasBucket(b, cs, now, session, until);
      BothBoundsHold(b, cs, now, Some(session), until);
      OnlyTurns(b, cs, session);
    }
  }

  lemma {:induction false} HasBucket(b: Budgets, cs: seq<Charge>, now: real, session: string, until: real)
    requires Legal(b, cs, now, Some(session), until)
    ensures Find(b, Some(session)).Some?
  {
  }

  lemma {:induction false} ChargeEscapes(kind: Kind, kinds: set<Kind>)
    requires kind in kinds && kind != Generate
    ensures !StaysWithin(NARROWED, [Charge(kind, "child", 0.0, 500)], 0.0, "child", 0.0, kinds)
  {
    hide Legal, Bound, GrantedTo, Reserve, NewBucket;
    EmbedPassesOwnBound(kind);
    HasBucket(NARROWED, [Charge(kind, "child", 0.0, 500)], 0.0, "child", 0.0);
  }

  // ----- what was used beyond the reservation -----

  /** What an overrun asked for and was refused: used all the same, since nobody looks at the answer. */
  function Unpaid(b: Budgets, cs: seq<Charge>): nat
    decreases |cs|
  {
    if cs == [] then 0
    else
      var r := Reserve(b, cs[0]);
      (if !r.1 && cs[0].kind.Overrun? then cs[0].n else 0) + Unpaid(r.0, cs[1..])
  }

  /** Tokens used: what was granted, and every overrun. */
  function Used(b: Budgets, cs: seq<Charge>): nat
    decreases |cs|
  {
    if cs == [] then 0
    else
      var r := Reserve(b, cs[0]);
      (if r.1 || cs[0].kind.Overrun? then cs[0].n else 0) + Used(r.0, cs[1..])
  }

  lemma {:induction false} UsedIsPaidOrNot(b: Budgets, cs: seq<Charge>)
    ensures Used(b, cs) == Admitted(b, cs, None) + Unpaid(b, cs)
    decreases |cs|
  {
    hide Reserve;
    if cs != [] {
      UsedIsPaidOrNot(Reserve(b, cs[0]).0, cs[1..]);
    }
  }

  /** What an identity uses passes its bound by no more than the overruns that its bucket could not pay for. */
  lemma {:induction false} UseIsBounded(b: Budgets, cs: seq<Charge>, now: real, until: real)
    requires Legal(b, cs, now, None, until)
    ensures Used(b, cs) as real <= Bound(b, None, until) + Unpaid(b, cs) as real
  {
    hide Legal, Bound, Used, Admitted, Unpaid;
    BothBoundsHold(b, cs, now, None, until);
    UsedIsPaidOrNot(b, cs);
  }
}
