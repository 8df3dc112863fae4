/** The rolling spend window: a pruned ledger that always agrees with the whole history, and the ceiling it enforces. */
module SpendLedger {
  import opened Bytes

  const SPEND_WINDOW: real := 86400.0

  datatype Charge = Charge(at: real, micros: nat)

  function Sum(cs: seq<Charge>): nat
  {
    if cs == [] then 0 else cs[0].micros + Sum(cs[1..])
  }

  predicate Fresh(c: Charge, now: real)
  {
    now < c.at + SPEND_WINDOW
  }

  /** What `retain` keeps. */
  function Recent(cs: seq<Charge>, now: real): seq<Charge>
  {
    if cs == [] then [] else (if Fresh(cs[0], now) then [cs[0]] else []) + Recent(cs[1..], now)
  }

  lemma {:induction false} RecentConcat(a: seq<Charge>, b: seq<Charge>, now: real)
    ensures Recent(a + b, now) == Recent(a, now) + Recent(b, now)
  {
    if a == [] {
      assert a + b == b;
    } else {
      var head := if Fresh(a[0], now) then [a[0]] else [];
      calc {
        Recent(a + b, now);
        { assert (a + b)[0] == a[0] && (a + b)[1..] == a[1..] + b; }
        head + Recent(a[1..] + b, now);
        { RecentConcat(a[1..], b, now); }
        head + (Recent(a[1..], now) + Recent(b, now));
        (head + Recent(a[1..], now)) + Recent(b, now);
      }
    }
  }

  lemma {:induction false} RecentSnoc(cs: seq<Charge>, c: Charge, now: real)
    ensures Recent(cs + [c], now) == if Fresh(c, now) then Recent(cs, now) + [c] else Recent(cs, now)
  {
    RecentConcat(cs, [c], now);
    assert [c][1..] == [];
    assert Recent([c], now) == if Fresh(c, now) then [c] else [];
    assert Recent(cs, now) + [] == Recent(cs, now);
  }

  lemma {:induction false} RecentSumSnoc(cs: seq<Charge>, c: Charge, now: real)
    ensures Sum(Recent(cs + [c], now)) == Sum(Recent(cs, now)) + if Fresh(c, now) then c.micros else 0
  {
    hide Recent, Sum;
    RecentSnoc(cs, c, now);
    SumSnoc(Recent(cs, now), c);
  }

  lemma {:induction false} SumSnoc(cs: seq<Charge>, c: Charge)
    ensures Sum(cs + [c]) == Sum(cs) + c.micros
  {
    SumConcat(cs, [c]);
    assert [c][1..] == [];
    assert Sum([c]) == c.micros + Sum([]);
  }

  lemma {:induction false} SumConcat(a: seq<Charge>, b: seq<Charge>)
    ensures Sum(a + b) == Sum(a) + Sum(b)
  {
    if a == [] {
      assert a + b == b;
    } else {
      assert (a + b)[1..] == a[1..] + b;
      SumConcat(a[1..], b);
    }
  }

  /** Pruning early loses nothing that a later look would keep. */
  lemma {:induction false} PruneTwice(cs: seq<Charge>, then_: real, now: real)
    requires then_ <= now
    ensures Recent(Recent(cs, then_), now) == Recent(cs, now)
  {
    if cs != [] {
      PruneTwice(cs[1..], then_, now);
      if Fresh(cs[0], then_) {
        assert Recent(cs, then_)[1..] == Recent(cs[1..], then_);
      } else {
        assert Recent(cs, then_) == Recent(cs[1..], then_);
        assert [] + Recent(cs[1..], now) == Recent(cs[1..], now);
      }
    }
  }

  lemma {:induction false} AgingLowers(cs: seq<Charge>, then_: real, now: real)
    requires then_ <= now
    ensures Sum(Recent(cs, now)) <= Sum(Recent(cs, then_))
  {
    if cs != [] {
      AgingLowers(cs[1..], then_, now);
      SumConcat(if Fresh(cs[0], then_) then [cs[0]] else [], Recent(cs[1..], then_));
      SumConcat(if Fresh(cs[0], now) then [cs[0]] else [], Recent(cs[1..], now));
      assert Sum([cs[0]]) == cs[0].micros + Sum([]);
    }
  }

  /** Free requests leave no entry. */
  function Paying(cs: seq<Charge>): seq<Charge>
  {
    if cs == [] then []
    else
      var n := |cs| - 1;
      Paying(cs[..n]) + if cs[n].micros > 0 then [cs[n]] else []
  }

  lemma {:induction false} PayingStep(cs: seq<Charge>)
    requires cs != []
    ensures var n := |cs| - 1;
            Paying(cs) == if cs[n].micros > 0 then Paying(cs[..n]) + [cs[n]] else Paying(cs[..n])
  {
    assert Paying(cs[..|cs| - 1]) + [] == Paying(cs[..|cs| - 1]);
  }

  lemma {:induction false} PayingSum(cs: seq<Charge>, now: real)
    ensures Sum(Recent(Paying(cs), now)) == Sum(Recent(cs, now))
  {
    if cs != [] {
      var n := |cs| - 1;
      PayingStep(cs);
      hide Sum, Recent, Paying;
      PayingSum(cs[..n], now);
      assert cs == cs[..n] + [cs[n]];
      RecentSumSnoc(cs[..n], cs[n], now);
      RecentSumSnoc(Paying(cs[..n]), cs[n], now);
    }
  }

  lemma {:induction false} OneMore(cs: seq<Charge>, c: Charge)
    ensures Paying(cs + [c]) == if c.micros > 0 then Paying(cs) + [c] else Paying(cs)
    ensures InWindow(cs + [c], c.at) == InWindow(cs, c.at) + c.micros
  {
    assert (cs + [c])[..|cs|] == cs;
    assert Paying(cs) + [] == Paying(cs);
    RecentSumSnoc(cs, c, c.at);
  }

  /** What an identity really spent in the window that ends now. */
  function InWindow(history: seq<Charge>, now: real): nat
  {
    Sum(Recent(history, now))
  }

  /** The charges less than twenty-four hours old, added up. */
  function LastDay(history: seq<Charge>, now: real): nat
  {
    if history == [] then 0
    else
      var n := |history| - 1;
      LastDay(history[..n], now) + if now - history[n].at < 24.0 * 60.0 * 60.0 then history[n].micros else 0
  }

  lemma {:induction false} WindowIsLastDay(history: seq<Charge>, now: real)
    ensures InWindow(history, now) == LastDay(history, now)
  {
    if history != [] {
      var n := |history| - 1;
      WindowIsLastDay(history[..n], now);
      hide Recent, Sum;
      RecentSumSnoc(history[..n], history[n], now);
      assert history[..n] + [history[n]] == history;
    }
  }

  class Ledger {
    var entries: seq<Charge>
    ghost var history: seq<Charge>
    ghost var clock: real

    /** Nothing still in the window has been pruned. */
    ghost predicate Valid()
      reads this
    {
      forall now :: now >= clock ==> Recent(entries, now) == Recent(Paying(history), now)
    }

    constructor (ghost now: real)
      ensures Valid() && history == [] && clock == now
    {
      entries, history, clock := [], [], now;
    }

    /** Keeps the entries that are still fresh. */
    method Prune(now: real)
      requires Valid() && now >= clock
      modifies this`entries, this`clock
      ensures Valid() && clock == now && entries == Recent(Paying(history), now)
    {
      ghost var before := entries;
      var kept: seq<Charge> := [];
      assert before[0..] == before;
      for i := 0 to |entries|
        invariant entries == before
        invariant kept + Recent(before[i..], now) == Recent(before, now)
      {
        assert before[i..][0] == before[i] && before[i..][1..] == before[i + 1..];
        if now < entries[i].at + SPEND_WINDOW {
          kept := kept + [entries[i]];
        }
      }
      assert before[|before|..] == [];
      assert kept + [] == kept;
      entries := kept;
      clock := now;
      forall later | later >= now
        ensures Recent(entries, later) == Recent(Paying(history), later)
      {
        PruneTwice(before, now, later);
        assert Recent(before, later) == Recent(Paying(history), later);
        PruneTwice(Paying(history), now, later);
      }
    }

    method Total() returns (sum: nat)
      ensures sum == Sum(entries)
    {
      sum := 0;
      assert entries[0..] == entries;
      for i := 0 to |entries|
        invariant sum + Sum(entries[i..]) == Sum(entries)
      {
        assert entries[i..][1..] == entries[i + 1..];
        sum := sum + entries[i].micros;
      }
      assert entries[|entries|..] == [];
    }

    /** Records a charge and reports the day's total, the new charge included. */
    method ChargeSpend(now: real, micros: nat) returns (total: nat)
      requires Valid() && now >= clock
      modifies this
      ensures Valid() && clock == now && history == old(history) + [Charge(now, micros)]
      ensures total == InWindow(history, now) == InWindow(old(history), now) + micros
    {
      hide Recent, Paying, Sum;
      Prune(now);
      var c := Charge(now, micros);
      OneMore(history, c);
      if micros > 0 {
        forall later | later >= now
          ensures Recent(entries + [c], later) == Recent(Paying(history) + [c], later)
        {
          RecentSnoc(entries, c, later);
          RecentSnoc(Paying(history), c, later);
        }
        SumSnoc(entries, c);
        entries := entries + [c];
      }
      PayingSum(history, now);
      history := history + [c];
      total := Total();
    }

    /** The reported total is the sum of every charge younger than the window. */
    method SpentBy(now: real) returns (total: nat)
      requires Valid() && now >= clock
      modifies this`entries, this`clock
      ensures Valid() && clock == now && total == InWindow(history, now)
    {
      Prune(now);
      PayingSum(history, now);
      total := Total();
    }
  }

  // ----- prices and the ceiling -----

  datatype Price = Price(model: string, input: real, output: real)

  function Ceil(x: real): (n: nat)
    requires x >= 0.0
    ensures n as real >= x && n as real < x + 1.0
  {
    var f := x.Floor;
    if f as real == x then f else f + 1
  }

  /** Rounded up, so that no stretch of small requests is free. */
  function Micros(rate: real, tokens: nat): (n: nat)
    ensures rate <= 0.0 ==> n == 0
    ensures rate > 0.0 ==> rate * tokens as real <= n as real < rate * tokens as real + 1.0
    ensures rate > 0.0 && tokens >= 1 ==> n >= 1
  {
    if rate <= 0.0 then 0
    else
      CostGrows(rate, tokens);
      Ceil(rate * tokens as real)
  }

  lemma {:induction false} CostGrows(rate: real, tokens: nat)
    requires rate > 0.0
    ensures rate * tokens as real >= 0.0 && (tokens >= 1 ==> rate * tokens as real > 0.0)
  {
  }

  function FindPrice(prices: seq<Price>, model: string): Option<Price>
  {
    if prices == [] then None else if prices[0].model == model then Some(prices[0]) else FindPrice(prices[1..], model)
  }

  /** An exact entry beats the catch-all; a model with neither is free. */
  function PriceOf(prices: seq<Price>, model: string, prompt: nat, completion: nat): nat
  {
    var exact := FindPrice(prices, model);
    var price := if exact.Some? then exact else FindPrice(prices, "*");
    if price.None? then 0 else Micros(price.value.input, prompt) + Micros(price.value.output, completion)
  }

  /** The first entry for a model. */
  predicate Lists(prices: seq<Price>, model: string, k: int)
  {
    0 <= k < |prices| && prices[k].model == model && forall i :: 0 <= i < k ==> prices[i].model != model
  }

  /** The entry that prices a model: its own, or else the catch-all. */
  predicate Applies(prices: seq<Price>, model: string, k: int)
  {
    Lists(prices, model, k)
    || (Lists(prices, "*", k) && forall i :: 0 <= i < |prices| ==> prices[i].model != model)
  }

  lemma {:induction false} FindPriceExact(prices: seq<Price>, model: string)
    ensures match FindPrice(prices, model)
            case Some(p) => exists k :: Lists(prices, model, k) && prices[k] == p
            case None => forall i :: 0 <= i < |prices| ==> prices[i].model != model
  {
    if prices != [] {
      if prices[0].model == model {
        assert Lists(prices, model, 0);
      } else {
        var rest := prices[1..];
        assert forall i :: 1 <= i < |prices| ==> prices[i] == rest[i - 1];
        FindPriceExact(rest, model);
        if FindPrice(rest, model).Some? {
          var k :| Lists(rest, model, k) && rest[k] == FindPrice(rest, model).value;
          assert Lists(prices, model, k + 1) && prices[k + 1] == rest[k];
        }
      }
    }
  }

  /** The price is the input rate on the prompt plus the output rate on the completion, each rounded up, of the entry
      that applies; an exact entry beats the catch-all, and with neither the model is free. */
  lemma {:induction false} PriceExact(prices: seq<Price>, model: string, prompt: nat, completion: nat)
    ensures forall k :: Applies(prices, model, k) ==>
              PriceOf(prices, model, prompt, completion) ==
              Micros(prices[k].input, prompt) + Micros(prices[k].output, completion)
    ensures (forall k :: !Applies(prices, model, k)) ==> PriceOf(prices, model, prompt, completion) == 0
  {
    hide Micros;
    FindPriceExact(prices, model);
    FindPriceExact(prices, "*");
    var exact, other := FindPrice(prices, model), FindPrice(prices, "*");
    hide FindPrice;
    if exact.Some? {
      var k :| Lists(prices, model, k) && prices[k] == exact.value;
      assert Applies(prices, model, k);
    } else if other.Some? {
      var k :| Lists(prices, "*", k) && prices[k] == other.value;
      assert Applies(prices, model, k);
    }
  }

  /** Asking the price of one token of each kind tells whether the model costs anything at all. */
  lemma {:induction false} FreeModelIsFree(prices: seq<Price>, model: string, prompt: nat, completion: nat)
    requires PriceOf(prices, model, 1, 1) == 0
    ensures PriceOf(prices, model, prompt, completion) == 0
  {
  }

  predicate Permits(ceiling: nat, prices: seq<Price>, model: string, spent: nat)
  {
    ceiling == 0 || PriceOf(prices, model, 1, 1) == 0 || spent < ceiling
  }

  /** A request is permitted if and only if there is no ceiling, or no request to the model costs anything, or less than
      the ceiling was spent. */
  lemma {:induction false} PermitsExact(ceiling: nat, prices: seq<Price>, model: string, spent: nat)
    ensures Permits(ceiling, prices, model, spent) <==>
            || ceiling == 0
            || (forall prompt: nat, completion: nat :: PriceOf(prices, model, prompt, completion) == 0)
            || spent < ceiling
  {
    hide PriceOf;
    if PriceOf(prices, model, 1, 1) == 0 {
      forall prompt: nat, completion: nat
        ensures PriceOf(prices, model, prompt, completion) == 0
      {
        FreeModelIsFree(prices, model, prompt, completion);
      }
    }
  }

  method SpendPermits(ledger: Ledger, now: real, ceiling: nat, prices: seq<Price>, model: string) returns (ok: bool)
    requires ledger.Valid() && now >= ledger.clock
    modifies ledger`entries, ledger`clock
    ensures ledger.Valid() && ledger.clock >= old(ledger.clock) && ledger.clock <= now
    ensures ok == Permits(ceiling, prices, model, InWindow(ledger.history, now))
  {
    if ceiling == 0 {
      return true;
    }
    if PriceOf(prices, model, 1, 1) == 0 {
      return true;
    }
    var spent := ledger.SpentBy(now);
    ok := spent < ceiling;
  }

  /** One request at a time: permitted at `then_`, charged at `now`. For a model that costs something, the total after
      the charge stays below the ceiling plus the price of that one request; a free one adds nothing. */
  lemma {:induction false} OvershootIsOneRequest(history: seq<Charge>, then_: real, now: real, ceiling: nat,
                                                 prices: seq<Price>, model: string, prompt: nat, completion: nat)
    requires then_ <= now && ceiling > 0
    requires Permits(ceiling, prices, model, InWindow(history, then_))
    ensures var price := PriceOf(prices, model, prompt, completion);
            var total := InWindow(history + [Charge(now, price)], now);
            && total == InWindow(history, now) + price
            && (PriceOf(prices, model, 1, 1) != 0 ==> total < ceiling + price)
            && (PriceOf(prices, model, 1, 1) == 0 ==> price == 0 && total <= InWindow(history, then_))
  {
    hide PriceOf;
    AgingLowers(history, then_, now);
    var price := PriceOf(prices, model, prompt, completion);
    OneMore(history, Charge(now, price));
    if PriceOf(prices, model, 1, 1) == 0 {
      FreeModelIsFree(prices, model, prompt, completion);
    }
  }

  /** A free model is not held back by a spent ceiling: its total can stand above the ceiling plus its own price. */
  lemma {:induction false} FreeModelPastCeiling()
    ensures var history := [Charge(0.0, 150)];
            && Permits(100, [], "local", InWindow(history, 1.0))
            && InWindow(history + [Charge(1.0, PriceOf([], "local", 5, 5))], 1.0) >= 100 + PriceOf([], "local", 5, 5)
  {
    var history := [Charge(0.0, 150)];
    OneMore(history, Charge(1.0, 0));
    OneMore([], Charge(0.0, 150));
    assert Recent(history, 1.0) == history by {
      assert history[1..] == [];
    }
    assert Sum(history) == 150 + Sum(history[1..]);
  }

  // ----- runs of requests, one at a time -----

  /** A request: permitted or not when it is asked, and charged when it is done. */
  datatype Spend = Spend(asked: real, done: real, model: string, prompt: nat, completion: nat)

  ghost predicate OneAtATime(from: real, rs: seq<Spend>)
    decreases |rs|
  {
    rs == [] || (from <= rs[0].asked <= rs[0].done && OneAtATime(rs[0].done, rs[1..]))
  }

  function Cost(prices: seq<Price>, r: Spend): nat
  {
    PriceOf(prices, r.model, r.prompt, r.completion)
  }

  function SpendOne(history: seq<Charge>, ceiling: nat, prices: seq<Price>, r: Spend): seq<Charge>
  {
    if Permits(ceiling, prices, r.model, InWindow(history, r.asked)) then history + [Charge(r.done, Cost(prices, r))]
    else history
  }

  function SpendAll(history: seq<Charge>, ceiling: nat, prices: seq<Price>, rs: seq<Spend>): seq<Charge>
    decreases |rs|
  {
    if rs == [] then history else SpendAll(SpendOne(history, ceiling, prices, rs[0]), ceiling, prices, rs[1..])
  }

  function End(from: real, rs: seq<Spend>): real
    decreases |rs|
  {
    if rs == [] then from else End(rs[0].done, rs[1..])
  }

  /** The largest price of a single request of the run. */
  function Largest(prices: seq<Price>, rs: seq<Spend>): (n: nat)
    ensures forall i :: 0 <= i < |rs| ==> Cost(prices, rs[i]) <= n
    ensures n == 0 || exists i :: 0 <= i < |rs| && Cost(prices, rs[i]) == n
  {
    if rs == [] then 0
    else
      var rest := Largest(prices, rs[1..]);
      assert forall i :: 1 <= i < |rs| ==> rs[i] == rs[1..][i - 1];
      if Cost(prices, rs[0]) >= rest then Cost(prices, rs[0])
      else
        assert exists i :: 0 <= i < |rs| && Cost(prices, rs[i]) == rest by {
          var k :| 0 <= k < |rs[1..]| && Cost(prices, rs[1..][k]) == rest;
          assert Cost(prices, rs[k + 1]) == rest;
        }
        rest
  }

  lemma {:induction false} SpendStep(history: seq<Charge>, from: real, ceiling: nat, prices: seq<Price>, r: Spend,
                                     most: nat)
    requires ceiling > 0 && from <= r.asked <= r.done && Cost(prices, r) <= most
    requires InWindow(history, from) < ceiling + most
    ensures InWindow(SpendOne(history, ceiling, prices, r), r.done) < ceiling + most
  {
    hide PriceOf, InWindow;
    Aging(history, from, r.asked);
    Aging(history, r.asked, r.done);
    if Permits(ceiling, prices, r.model, InWindow(history, r.asked)) {
      OvershootIsOneRequest(history, r.asked, r.done, ceiling, prices, r.model, r.prompt, r.completion);
    }
  }

  lemma {:induction false} Aging(history: seq<Charge>, then_: real, now: real)
    requires then_ <= now
    ensures InWindow(history, now) <= InWindow(history, then_)
  {
    AgingLowers(history, then_, now);
  }

  lemma {:induction false} SpendBound(history: seq<Charge>, from: real, ceiling: nat, prices: seq<Price>,
                                      rs: seq<Spend>,
                                      most: nat, now: real)
    requires ceiling > 0 && OneAtATime(from, rs) && now >= End(from, rs)
    requires InWindow(history, from) < ceiling + most
    requires forall i :: 0 <= i < |rs| ==> Cost(prices, rs[i]) <= most
    ensures InWindow(SpendAll(history, ceiling, prices, rs), now) < ceiling + most
    decreases |rs|
  {
    hide InWindow, SpendOne, Cost;
    if rs == [] {
      Aging(history, from, now);
    } else {
      SpendStep(history, from, ceiling, prices, rs[0], most);
      SpendBound(SpendOne(history, ceiling, prices, rs[0]), rs[0].done, ceiling, prices, rs[1..], most, now);
    }
  }

  /** After any run of free and priced requests, one at a time under one ceiling, the window's total is below the
      ceiling plus the largest single price. */
  lemma {:induction false} CeilingHolds(ceiling: nat, prices: seq<Price>, from: real, rs: seq<Spend>, now: real)
    requires ceiling > 0 && OneAtATime(from, rs) && now >= End(from, rs)
    ensures InWindow(SpendAll([], ceiling, prices, rs), now) < ceiling + Largest(prices, rs)
  {
    assert InWindow([], from) == 0;
    SpendBound([], from, ceiling, prices, rs, Largest(prices, rs), now);
  }
}
