/** The KV cache budget: what is in use, who may be evicted, and which plans are right. */
module KvBudget {
  import opened Slots

  datatype KvEntry = KvEntry(bytes: nat, kind: Class, lastUsed: nat, backend: string, active: bool)

  type Kv = map<string, KvEntry>

  ghost function Total(kv: Kv, ids: set<string>): nat
    requires ids <= kv.Keys
    decreases |ids|
  {
    if ids == {} then 0
    else
      var x :| x in ids;
      kv[x].bytes + Total(kv, ids - {x})
  }

  lemma {:induction false} TotalRemove(kv: Kv, ids: set<string>, x: string)
    requires ids <= kv.Keys && x in ids
    ensures Total(kv, ids) == kv[x].bytes + Total(kv, ids - {x})
    decreases |ids|
  {
    var y :| y in ids && Total(kv, ids) == kv[y].bytes + Total(kv, ids - {y});
    if x != y {
      TotalRemove(kv, ids - {y}, x);
      TotalRemove(kv, ids - {x}, y);
      assert ids - {y} - {x} == ids - {x} - {y};
    }
  }

  lemma {:induction false} TotalSubset(kv: Kv, a: set<string>, b: set<string>)
    requires a <= b <= kv.Keys
    ensures Total(kv, b) == Total(kv, a) + Total(kv, b - a)
    decreases |a|
  {
    if a == {} {
      assert b - a == b;
    } else {
      var x :| x in a;
      TotalRemove(kv, a, x);
      TotalRemove(kv, b, x);
      TotalSubset(kv, a - {x}, b - {x});
      assert b - {x} - (a - {x}) == b - a;
    }
  }

  lemma {:induction false} TotalSame(kv: Kv, kv': Kv, ids: set<string>)
    requires ids <= kv.Keys && ids <= kv'.Keys && forall x :: x in ids ==> kv[x].bytes == kv'[x].bytes
    ensures Total(kv, ids) == Total(kv', ids)
    decreases |ids|
  {
    if ids != {} {
      var x :| x in ids;
      TotalRemove(kv, ids, x);
      TotalRemove(kv', ids, x);
      TotalSame(kv, kv', ids - {x});
    }
  }

  /** The counter is the sum of the entries, and within the budget. */
  ghost predicate KvInv(kv: Kv, used: nat, budget: nat)
  {
    used == Total(kv, kv.Keys) && used <= budget
  }

  // ----- eviction plans -----

  /** Other sessions without a request in flight. */
  function Idle(kv: Kv, session: string): set<string>
  {
    set id | id in kv && id != session && !kv[id].active
  }

  /** Background caches go first. */
  function EvictRank(c: Class): nat
  {
    if c.Background? then 0 else 1
  }

  predicate NoLater(kv: Kv, a: string, b: string)
    requires a in kv && b in kv
  {
    || EvictRank(kv[a].kind) < EvictRank(kv[b].kind)
    || (kv[a].kind == kv[b].kind && kv[a].lastUsed <= kv[b].lastUsed)
  }

  function Ids(ids: seq<string>): set<string>
  {
    set id | id in ids
  }

  predicate Distinct(ids: seq<string>)
  {
    forall i, j :: 0 <= i < j < |ids| ==> ids[i] != ids[j]
  }

  ghost predicate Sorted(kv: Kv, ids: seq<string>)
    requires Ids(ids) <= kv.Keys
  {
    forall i, j :: 0 <= i < j < |ids| ==> NoLater(kv, ids[i], ids[j])
  }

  ghost predicate Fits(kv: Kv, used: nat, extra: nat, budget: nat, ids: set<string>)
    requires ids <= kv.Keys
  {
    used + extra <= budget + Total(kv, ids)
  }

  /** Enough is freed, nothing is freed needlessly, and nobody is passed over for a later victim. */
  ghost predicate IsPlan(kv: Kv, session: string, used: nat, extra: nat, budget: nat, victims: seq<string>)
  {
    && Distinct(victims)
    && Ids(victims) <= Idle(kv, session)
    && Sorted(kv, victims)
    && (forall v, c :: v in victims && c in Idle(kv, session) && c !in victims ==> NoLater(kv, v, c))
    && Fits(kv, used, extra, budget, Ids(victims))
    && (victims != [] ==> !Fits(kv, used, extra, budget, Ids(victims[..|victims| - 1])))
  }

  /** Evicting these makes room if and only if the entries that stay and the new bytes are within the budget. */
  lemma {:induction false} FitsExact(kv: Kv, used: nat, extra: nat, budget: nat, ids: set<string>)
    requires ids <= kv.Keys && used == Total(kv, kv.Keys)
    ensures Fits(kv, used, extra, budget, ids) <==> Total(kv, kv.Keys - ids) + extra <= budget
  {
    hide Total;
    TotalSubset(kv, ids, kv.Keys);
  }

  /** A plan makes room, and without its last victim it would not. */
  lemma {:induction false} PlanMakesRoom(kv: Kv, session: string, used: nat, extra: nat, budget: nat,
                                         victims: seq<string>)
    requires IsPlan(kv, session, used, extra, budget, victims) && used == Total(kv, kv.Keys)
    ensures Total(kv, kv.Keys - Ids(victims)) + extra <= budget
    ensures victims != [] ==> Total(kv, kv.Keys - Ids(victims[..|victims| - 1])) + extra > budget
  {
    hide Total, Sorted, Distinct;
    FitsExact(kv, used, extra, budget, Ids(victims));
    if victims != [] {
      var fewer := victims[..|victims| - 1];
      assert Ids(fewer) <= Ids(victims);
      FitsExact(kv, used, extra, budget, Ids(fewer));
    }
  }

  /** A plan said on classes: every background victim before every interactive one, within a class by last use, and an
      interactive cache goes only when no idle background one of another session is left. */
  lemma {:induction false} BackgroundFirst(kv: Kv, session: string, used: nat, extra: nat, budget: nat,
                                           victims: seq<string>, i: nat, j: nat)
    requires IsPlan(kv, session, used, extra, budget, victims) && i <= j < |victims|
    ensures victims[i] in kv && victims[j] in kv && victims[j] != session && !kv[victims[j]].active
    ensures kv[victims[j]].kind.Background? ==> kv[victims[i]].kind.Background?
    ensures kv[victims[i]].kind == kv[victims[j]].kind ==> kv[victims[i]].lastUsed <= kv[victims[j]].lastUsed
    ensures kv[victims[j]].kind.Interactive? ==>
              forall c :: c in kv && c != session && !kv[c].active && kv[c].kind.Background? ==> c in victims
  {
    hide Total, Distinct;
    assert victims[i] in Ids(victims) && victims[j] in Ids(victims);
    assert i < j ==> NoLater(kv, victims[i], victims[j]);
    forall c | c in kv && c != session && !kv[c].active && kv[c].kind.Background? && kv[victims[j]].kind.Interactive?
      ensures c in victims
    {
      assert c in Idle(kv, session);
      assert victims[j] in victims;
    }
  }

  lemma {:induction false} IdsSnoc(ids: seq<string>, x: string)
    ensures Ids(ids + [x]) == Ids(ids) + {x}
  {
    assert forall y :: y in ids + [x] <==> y in ids || y == x;
  }

  lemma {:induction false} TotalSnoc(kv: Kv, ids: seq<string>, x: string)
    requires Ids(ids) <= kv.Keys && x in kv && x !in ids
    ensures Ids(ids + [x]) <= kv.Keys
    ensures Total(kv, Ids(ids + [x])) == Total(kv, Ids(ids)) + kv[x].bytes
  {
    IdsSnoc(ids, x);
    TotalRemove(kv, Ids(ids) + {x}, x);
    assert Ids(ids) + {x} - {x} == Ids(ids);
  }

  // ----- candidates of one pass, least recently used first -----

  ghost predicate Candidates(kv: Kv, session: string, pass: Class, ids: seq<string>)
  {
    && Distinct(ids)
    && (forall id :: id in ids <==> id in Idle(kv, session) && kv[id].kind == pass)
    && Ids(ids) <= kv.Keys && Sorted(kv, ids)
  }

  /** Insertion by last use: the order among equal times is left open. */
  function Insert(kv: Kv, ids: seq<string>, x: string): (r: seq<string>)
    requires x in kv && forall id :: id in ids ==> id in kv
    ensures forall id :: id in r <==> id in ids || id == x
  {
    if ids == [] then [x]
    else if kv[x].lastUsed <= kv[ids[0]].lastUsed then [x] + ids
    else [ids[0]] + Insert(kv, ids[1..], x)
  }

  ghost predicate ByUse(kv: Kv, ids: seq<string>)
    requires forall id :: id in ids ==> id in kv
  {
    forall i, j :: 0 <= i < j < |ids| ==> kv[ids[i]].lastUsed <= kv[ids[j]].lastUsed
  }

  lemma {:induction false} ConsByUse(kv: Kv, x: string, ids: seq<string>)
    requires x in kv && (forall id :: id in ids ==> id in kv) && ByUse(kv, ids) && Distinct(ids)
    requires x !in ids && forall id :: id in ids ==> kv[x].lastUsed <= kv[id].lastUsed
    ensures ByUse(kv, [x] + ids) && Distinct([x] + ids)
  {
    var all := [x] + ids;
    assert forall j :: 1 <= j < |all| ==> all[j] == ids[j - 1] && all[j] in ids;
  }

  lemma {:induction false} InsertSorted(kv: Kv, ids: seq<string>, x: string)
    requires x in kv && (forall id :: id in ids ==> id in kv) && ByUse(kv, ids) && Distinct(ids) && x !in ids
    ensures ByUse(kv, Insert(kv, ids, x)) && Distinct(Insert(kv, ids, x))
  {
    if ids == [] {
    } else if kv[x].lastUsed <= kv[ids[0]].lastUsed {
      ConsByUse(kv, x, ids);
    } else {
      InsertSorted(kv, ids[1..], x);
      ConsByUse(kv, ids[0], Insert(kv, ids[1..], x));
    }
  }

  method SortCandidates(kv: Kv, session: string, pass: Class) returns (ids: seq<string>)
    ensures Candidates(kv, session, pass, ids)
  {
    hide Insert;
    var todo := set id | id in kv && id != session && kv[id].kind == pass && !kv[id].active;
    ghost var all := todo;
    ids := [];
    while todo != {}
      invariant todo <= all
      invariant forall id :: id in ids <==> id in all - todo
      invariant forall id :: id in ids ==> id in kv
      invariant ByUse(kv, ids) && Distinct(ids)
      decreases todo
    {
      var x :| x in todo;
      InsertSorted(kv, ids, x);
      ids := Insert(kv, ids, x);
      todo := todo - {x};
    }
    forall i | 0 <= i < |ids|
      ensures ids[i] in kv && kv[ids[i]].kind == pass
    {
      assert ids[i] in ids;
    }
    assert Sorted(kv, ids);
  }

  // ----- planning -----

  /** Idle victims of the first `p` passes, in order, nobody passed over, and none of them needless. */
  ghost predicate PlanShape(kv: Kv, session: string, used: nat, extra: nat, budget: nat, p: nat, plan: seq<string>)
  {
    && Distinct(plan)
    && Ids(plan) <= Idle(kv, session)
    && Sorted(kv, plan)
    && (forall v :: v in plan ==> EvictRank(kv[v].kind) < p)
    && (forall v, c :: v in plan && c in Idle(kv, session) && c !in plan ==> NoLater(kv, v, c))
    && (plan != [] ==> !Fits(kv, used, extra, budget, Ids(plan[..|plan| - 1])))
  }

  /** Either the plan frees enough, or it holds every candidate of the first `p` passes. */
  ghost predicate Planned(kv: Kv, session: string, used: nat, extra: nat, budget: nat, p: nat, plan: seq<string>)
  {
    && PlanShape(kv, session, used, extra, budget, p, plan)
    && (!Fits(kv, used, extra, budget, Ids(plan)) ==>
          forall c :: c in Idle(kv, session) && EvictRank(kv[c].kind) < p ==> c in plan)
  }

  /** A plan that took every candidate of the earlier passes, and the candidates of this one. */
  ghost predicate PassReady(kv: Kv, session: string, p: nat, pass: Class, start: seq<string>, ids: seq<string>)
  {
    && EvictRank(pass) == p && Candidates(kv, session, pass, ids)
    && Ids(start) <= Idle(kv, session) && Distinct(start) && Sorted(kv, start)
    && (forall v :: v in start ==> EvictRank(kv[v].kind) < p)
    && (forall c :: c in Idle(kv, session) && EvictRank(kv[c].kind) < p ==> c in start)
  }

  /** Every earlier victim ranks below this pass and every candidate is of it. */
  lemma {:induction false} PassRanks(kv: Kv, session: string, p: nat, pass: Class, start: seq<string>, ids: seq<string>)
    requires PassReady(kv, session, p, pass, start, ids)
    ensures forall k :: 0 <= k < |start| ==> start[k] in Idle(kv, session) && EvictRank(kv[start[k]].kind) < p
    ensures forall k :: 0 <= k < |ids| ==> ids[k] in Idle(kv, session) && kv[ids[k]].kind == pass
  {
    hide Sorted, Distinct;
    forall k | 0 <= k < |start|
      ensures start[k] in Idle(kv, session) && EvictRank(kv[start[k]].kind) < p
    {
      assert start[k] in start && start[k] in Ids(start);
    }
    forall k | 0 <= k < |ids|
      ensures ids[k] in Idle(kv, session) && kv[ids[k]].kind == pass
    {
      assert ids[k] in ids;
    }
  }

  lemma {:induction false} NextDistinct(kv: Kv, session: string, p: nat, pass: Class, start: seq<string>,
                                        ids: seq<string>, j: nat)
    requires PassReady(kv, session, p, pass, start, ids) && j < |ids|
    ensures Distinct(start + ids[..j + 1]) && ids[j] in kv && ids[j] !in start + ids[..j]
  {
    PassRanks(kv, session, p, pass, start, ids);
    assert EvictRank(pass) == p && Distinct(start) && Distinct(ids);
    hide PassReady, Candidates, Sorted, Idle;
    assert forall k :: 0 <= k < j + 1 ==> (start + ids[..j + 1])[|start| + k] == ids[k];
  }

  lemma {:induction false} NextIdle(kv: Kv, session: string, p: nat, pass: Class, start: seq<string>,
                                    ids: seq<string>, j: nat)
    requires PassReady(kv, session, p, pass, start, ids) && j < |ids|
    ensures var plan := start + ids[..j + 1];
            Ids(plan) <= Idle(kv, session) && forall v :: v in plan ==> EvictRank(kv[v].kind) < p + 1
  {
    PassRanks(kv, session, p, pass, start, ids);
    assert EvictRank(pass) == p;
    hide PassReady, Candidates, Sorted, Idle;
    var plan := start + ids[..j + 1];
    forall v | v in plan
      ensures v in Idle(kv, session) && EvictRank(kv[v].kind) < p + 1
    {
      var k :| 0 <= k < |plan| && plan[k] == v;
      assert v == if k < |start| then start[k] else ids[k - |start|];
    }
  }

  lemma {:induction false} NextSorted(kv: Kv, session: string, p: nat, pass: Class, start: seq<string>,
                                      ids: seq<string>, j: nat)
    requires PassReady(kv, session, p, pass, start, ids) && j < |ids|
    requires Ids(start + ids[..j + 1]) <= kv.Keys
    ensures Sorted(kv, start + ids[..j + 1])
  {
    PassRanks(kv, session, p, pass, start, ids);
    assert EvictRank(pass) == p && Ids(start) <= kv.Keys && Sorted(kv, start) && Ids(ids) <= kv.Keys && Sorted(kv, ids);
    hide PassReady, Candidates, Idle;
    var plan, n := start + ids[..j + 1], |start|;
    forall a, b | 0 <= a < b < |plan|
      ensures NoLater(kv, plan[a], plan[b])
    {
      if b < n {
        assert NoLater(kv, start[a], start[b]);
      } else if a >= n {
        assert NoLater(kv, ids[a - n], ids[b - n]);
      }
    }
  }

  lemma {:induction false} NobodyPassedOver(kv: Kv, session: string, p: nat, pass: Class, start: seq<string>,
                                            ids: seq<string>, j: nat, v: string, c: string)
    requires PassReady(kv, session, p, pass, start, ids) && j < |ids|
    requires v in start + ids[..j + 1] && c in Idle(kv, session) && c !in start + ids[..j + 1]
    ensures v in kv && NoLater(kv, v, c)
  {
    PassRanks(kv, session, p, pass, start, ids);
    var plan, n := start + ids[..j + 1], |start|;
    assert forall k :: 0 <= k < n ==> plan[k] == start[k] && start[k] in plan;
    assert forall b :: 0 <= b <= j ==> plan[n + b] == ids[b] && ids[b] in plan;
    assert EvictRank(kv[c].kind) >= p;
    hide Candidates, Distinct, Sorted, Ids;
    var a :| 0 <= a < |plan| && plan[a] == v;
    if a < n {
      assert v == start[a];
    } else {
      assert v == ids[a - n];
      if kv[c].kind == pass {
        StillToCome(kv, session, pass, ids, j, a - n, c);
      }
    }
  }

  lemma {:induction false} StillToCome(kv: Kv, session: string, pass: Class, ids: seq<string>, j: nat, a: nat,
                                       c: string)
    requires Candidates(kv, session, pass, ids) && a <= j < |ids|
    requires c in Idle(kv, session) && kv[c].kind == pass && forall b :: 0 <= b <= j ==> ids[b] != c
    ensures ids[a] in kv && NoLater(kv, ids[a], c)
  {
    hide Distinct;
    assert ids[a] in ids && c in ids;
    var b :| 0 <= b < |ids| && ids[b] == c;
    assert NoLater(kv, ids[a], ids[b]);
  }

  /** Taking the next candidate keeps the plan ordered and passes nobody over. */
  lemma {:induction false} PlanNext(kv: Kv, session: string, p: nat, pass: Class,
                                    start: seq<string>, ids: seq<string>, j: nat)
    requires PassReady(kv, session, p, pass, start, ids) && j < |ids|
    ensures var plan := start + ids[..j + 1];
            && Distinct(plan) && Ids(plan) <= Idle(kv, session) && Sorted(kv, plan)
            && (forall v :: v in plan ==> EvictRank(kv[v].kind) < p + 1)
            && (forall v, c :: v in plan && c in Idle(kv, session) && c !in plan ==> NoLater(kv, v, c))
    ensures ids[j] in kv && ids[j] !in start + ids[..j]
  {
    NextDistinct(kv, session, p, pass, start, ids, j);
    NextIdle(kv, session, p, pass, start, ids, j);
    var plan := start + ids[..j + 1];
    assert Ids(plan) <= kv.Keys;
    NextSorted(kv, session, p, pass, start, ids, j);
    hide PassReady, Distinct, Sorted, NoLater, EvictRank;
    forall v, c | v in plan && c in Idle(kv, session) && c !in plan
      ensures v in kv && NoLater(kv, v, c)
    {
      NobodyPassedOver(kv, session, p, pass, start, ids, j, v, c);
    }
  }

  ghost predicate Halfway(kv: Kv, session: string, used: nat, extra: nat, budget: nat, p: nat, pass: Class,
                         start: seq<string>, ids: seq<string>, j: nat)
  {
    && EvictRank(pass) == p && Candidates(kv, session, pass, ids) && j <= |ids|
    && Planned(kv, session, used, extra, budget, p, start) && !Fits(kv, used, extra, budget, Ids(start))
    && PlanShape(kv, session, used, extra, budget, p + 1, start + ids[..j])
  }

  lemma {:induction false} HalfwayStart(kv: Kv, session: string, used: nat, extra: nat, budget: nat, p: nat,
                                        pass: Class,
                                        start: seq<string>, ids: seq<string>)
    requires EvictRank(pass) == p && Candidates(kv, session, pass, ids)
    requires Planned(kv, session, used, extra, budget, p, start) && !Fits(kv, used, extra, budget, Ids(start))
    ensures Halfway(kv, session, used, extra, budget, p, pass, start, ids, 0)
  {
    hide Candidates, Sorted, Total, Distinct;
    assert start + ids[..0] == start;
  }

  lemma {:induction false} HalfwayStep(kv: Kv, session: string, used: nat, extra: nat, budget: nat, p: nat, pass: Class,
                                       start: seq<string>, ids: seq<string>, j: nat)
    requires Halfway(kv, session, used, extra, budget, p, pass, start, ids, j) && j < |ids|
    requires !Fits(kv, used, extra, budget, Ids(start + ids[..j]))
    ensures Halfway(kv, session, used, extra, budget, p, pass, start, ids, j + 1)
    ensures ids[j] in kv && Ids(start + ids[..j + 1]) <= kv.Keys
    ensures Total(kv, Ids(start + ids[..j + 1])) == Total(kv, Ids(start + ids[..j])) + kv[ids[j]].bytes
  {
    hide Sorted, Total;
    PlanNext(kv, session, p, pass, start, ids, j);
    var plan := start + ids[..j];
    TotalSnoc(kv, plan, ids[j]);
    assert start + ids[..j + 1] == plan + [ids[j]];
    assert (plan + [ids[j]])[..|plan|] == plan;
  }

  lemma {:induction false} HalfwayDone(kv: Kv, session: string, used: nat, extra: nat, budget: nat, p: nat, pass: Class,
                                       start: seq<string>, ids: seq<string>, j: nat)
    requires Halfway(kv, session, used, extra, budget, p, pass, start, ids, j)
    requires Fits(kv, used, extra, budget, Ids(start + ids[..j])) || j == |ids|
    ensures Planned(kv, session, used, extra, budget, p + 1, start + ids[..j])
  {
    hide Sorted, Total, PlanShape, Distinct;
    if j == |ids| {
      assert ids[..j] == ids;
      forall c | c in Idle(kv, session) && EvictRank(kv[c].kind) < p + 1
        ensures c in start + ids
      {
        if EvictRank(kv[c].kind) == p { assert c in ids; } else { assert c in start; }
      }
    }
  }

  /** One pass over one class: extends the plan by candidates, in order, until it fits. */
  method PlanPass(kv: Kv, session: string, used: nat, extra: nat, budget: nat, p: nat, pass: Class, start: seq<string>,
                  already: nat)
    returns (plan: seq<string>, freed: nat)
    requires EvictRank(pass) == p && Planned(kv, session, used, extra, budget, p, start)
    requires Ids(start) <= kv.Keys && !Fits(kv, used, extra, budget, Ids(start)) && already == Total(kv, Ids(start))
    requires used >= Total(kv, kv.Keys)
    ensures Planned(kv, session, used, extra, budget, p + 1, plan)
    ensures Ids(plan) <= kv.Keys && freed == Total(kv, Ids(plan))
  {
    hide Candidates, PlanShape, Planned, Total, Halfway;
    var ids := SortCandidates(kv, session, pass);
    plan, freed := start, already;
    var j := 0;
    assert start + ids[..0] == start;
    HalfwayStart(kv, session, used, extra, budget, p, pass, start, ids);
    while j < |ids|
      invariant j <= |ids| && plan == start + ids[..j]
      invariant Ids(plan) <= kv.Keys && freed == Total(kv, Ids(plan))
      invariant Halfway(kv, session, used, extra, budget, p, pass, start, ids, j)
    {
      TotalSubset(kv, Ids(plan), kv.Keys);
      if SatSub(used, freed) + extra <= budget {
        HalfwayDone(kv, session, used, extra, budget, p, pass, start, ids, j);
        return;
      }
      HalfwayStep(kv, session, used, extra, budget, p, pass, start, ids, j);
      freed := freed + kv[ids[j]].bytes;
      plan := plan + [ids[j]];
      assert plan == start + ids[..j + 1];
      j := j + 1;
    }
    HalfwayDone(kv, session, used, extra, budget, p, pass, start, ids, j);
  }

  function SatSub(a: nat, b: nat): nat
  {
    if a < b then 0 else a - b
  }
}
