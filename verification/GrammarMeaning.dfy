/** What the shapes of generated rules derive, as sets of JSON trees. */
module GrammarMeaning {
  import opened Json

  type Language = iset<Json>

  ghost predicate Spells(L: Language, s: Tokens)
  {
    exists t :: t in L && Print(t) == s
  }

  ghost predicate SoundAt(env: Env, e: Expr, L: Language, d: nat)
  {
    forall s :: Derives(env, e, s, d) ==> Spells(L, s)
  }

  ghost predicate Complete(env: Env, e: Expr, L: Language)
  {
    forall t :: t in L ==> In(env, e, Print(t))
  }

  /** `e` derives exactly the printings of the trees in `L`. */
  ghost predicate Means(env: Env, e: Expr, L: Language)
  {
    (forall d :: SoundAt(env, e, L, d)) && Complete(env, e, L)
  }

  lemma {:induction false} MeansIsExact(env: Env, e: Expr, L: Language)
    requires Means(env, e, L)
    ensures forall s :: In(env, e, s) <==> Spells(L, s)
  {
    forall s
      ensures In(env, e, s) <==> Spells(L, s)
    {
      if d :| Derives(env, e, s, d) {
        assert SoundAt(env, e, L, d);
      }
    }
  }

  lemma {:induction false} MeansGrows(env: Env, env': Env, e: Expr, L: Language)
    requires Means(env, e, L) && Extends(env, env') && ClosedEnv(env) && Closed(env, e)
    ensures Means(env', e, L)
  {
    forall d: nat, s | Derives(env', e, s, d)
      ensures Spells(L, s)
    {
      ExtensionKeepsMeaning(env, env', e, s, d);
      assert SoundAt(env, e, L, d);
    }
    forall t | t in L
      ensures In(env', e, Print(t))
    {
      var d :| Derives(env, e, Print(t), d);
      ExtensionKeepsMeaning(env, env', e, Print(t), d);
    }
  }

  lemma {:induction false} RefMeans(env: Env, n: Name, L: Language)
    requires n in env && Means(env, env[n], L)
    ensures Means(env, Ref(n), L)
  {
    forall d: nat, s | Derives(env, Ref(n), s, d)
      ensures Spells(L, s)
    {
      assert SoundAt(env, env[n], L, d - 1);
    }
    forall t | t in L
      ensures In(env, Ref(n), Print(t))
    {
      InRef(env, n, Print(t));
    }
  }

  // ----- sequences of parts -----

  lemma {:induction false} SplitAll(env: Env, a: seq<Expr>, b: seq<Expr>, s: Tokens, d: nat) returns (i: nat)
    requires DerivesAll(env, a + b, s, d)
    ensures i <= |s| && DerivesAll(env, a, s[..i], d) && DerivesAll(env, b, s[i..], d)
    decreases |a|
  {
    if a == [] {
      assert a + b == b;
      i := 0;
      assert s[0..] == s;
    } else {
      hide Derives, DerivesAll;
      var parts := a + b;
      assert parts[0] == a[0] && parts[1..] == a[1..] + b;
      var j := FirstPart(env, parts, s, d);
      var k := SplitAll(env, a[1..], b, s[j..], d);
      i := j + k;
      Slices(s, j, k);
      WithFirstPart(env, a, s[..i], j, d);
    }
  }

  lemma {:induction false} Slices(s: Tokens, j: nat, k: nat)
    requires j + k <= |s|
    ensures s[..j + k][..j] == s[..j] && s[..j + k][j..] == s[j..][..k] && s[j..][k..] == s[j + k..]
  {
  }

  lemma {:induction false} FirstPart(env: Env, ps: seq<Expr>, s: Tokens, d: nat) returns (j: nat)
    requires ps != [] && DerivesAll(env, ps, s, d)
    ensures j <= |s| && Derives(env, ps[0], s[..j], d) && DerivesAll(env, ps[1..], s[j..], d)
  {
    hide Derives;
    j :| 0 <= j <= |s| && Derives(env, ps[0], s[..j], d) && DerivesAll(env, ps[1..], s[j..], d);
  }

  lemma {:induction false} WithFirstPart(env: Env, ps: seq<Expr>, s: Tokens, j: nat, d: nat)
    requires ps != [] && j <= |s| && Derives(env, ps[0], s[..j], d) && DerivesAll(env, ps[1..], s[j..], d)
    ensures DerivesAll(env, ps, s, d)
  {
    hide Derives;
  }

  lemma {:induction false} InSeqParts(env: Env, a: seq<Expr>, x: Tokens) returns (i: nat)
    requires In(env, Seq(a), x) && a != []
    ensures i <= |x| && In(env, a[0], x[..i]) && In(env, Seq(a[1..]), x[i..])
  {
    var d :| Derives(env, Seq(a), x, d);
    i := FirstPart(env, a, x, d);
    assert Derives(env, Seq(a[1..]), x[i..], d);
  }

  lemma {:induction false} InSeqConcat(env: Env, a: seq<Expr>, b: seq<Expr>, x: Tokens, y: Tokens)
    requires In(env, Seq(a), x) && In(env, Seq(b), y)
    ensures In(env, Seq(a + b), x + y)
    decreases |a|
  {
    if a == [] {
      var d :| Derives(env, Seq(a), x, d);
      assert DerivesAll(env, a, x, d);
      assert a + b == b && x + y == y;
    } else {
      hide In;
      var i := InSeqParts(env, a, x);
      InSeqConcat(env, a[1..], b, x[i..], y);
      InSeqCons(env, a[0], a[1..] + b, x[..i], x[i..] + y);
      assert [a[0]] + (a[1..] + b) == a + b;
      assert x[..i] + (x[i..] + y) == x + y;
    }
  }

  lemma {:induction false} InSeqOne(env: Env, e: Expr, s: Tokens)
    requires In(env, e, s)
    ensures In(env, Seq([e]), s)
  {
    InSeqNil(env);
    InSeqCons(env, e, [], s, []);
    assert [e] + [] == [e] && s + [] == s;
  }

  lemma {:induction false} OneOf(env: Env, e: Expr, s: Tokens, d: nat)
    requires DerivesAll(env, [e], s, d)
    ensures Derives(env, e, s, d)
  {
    var i :| 0 <= i <= |s| && Derives(env, [e][0], s[..i], d) && DerivesAll(env, [e][1..], s[i..], d);
    assert s[..i] == s;
  }

  // ----- bracketed, comma-separated lists -----

  /** `open ( item ( , item )* )? close`, where an item is a sequence of parts. */
  function Listing(open: Token, item: seq<Expr>, close: Token): Expr
  {
    Seq([Text([open]), Opt(Seq(item + [Star(Seq([Text([Comma])] + item))])), Text([close])])
  }

  lemma {:induction false} StarPieces(env: Env, item: seq<Expr>, s: Tokens, d: nat) returns (pieces: seq<Tokens>)
    requires Derives(env, Star(Seq([Text([Comma])] + item)), s, d)
    ensures s == CommaTail(pieces) && forall k :: 0 <= k < |pieces| ==> DerivesAll(env, item, pieces[k], d)
    decreases |s|
  {
    if s == [] {
      pieces := [];
    } else {
      hide Derives, DerivesAll, CommaTail;
      var body := [Text([Comma])] + item;
      var i := FirstTurn(env, Seq(body), s, d);
      SeqParts(env, body, s[..i], d);
      var j := SplitAll(env, [Text([Comma])], item, s[..i], d);
      TextIs(env, [Comma], s[..i][..j], d);
      var rest := StarPieces(env, item, s[i..], d);
      var p := s[..i][j..];
      pieces := [p] + rest;
      CommaTailCons(p, rest);
      Rejoined(s[..i], j);
      Rejoined(s, i);
    }
  }

  lemma {:induction false} FirstTurn(env: Env, body: Expr, s: Tokens, d: nat) returns (i: nat)
    requires s != [] && Derives(env, Star(body), s, d)
    ensures 0 < i <= |s| && Derives(env, body, s[..i], d) && Derives(env, Star(body), s[i..], d)
  {
    i :| 0 < i <= |s| && Derives(env, body, s[..i], d) && Derives(env, Star(body), s[i..], d);
  }

  lemma {:induction false} Rejoined(s: Tokens, i: nat)
    requires i <= |s|
    ensures s == s[..i] + s[i..]
  {
  }

  lemma {:induction false} CommaTailCons(p: Tokens, rest: seq<Tokens>)
    ensures CommaTail([p] + rest) == [Comma] + p + CommaTail(rest)
  {
    var pieces := [p] + rest;
    assert pieces[0] == p && pieces[1..] == rest;
  }

  lemma {:induction false} ThreeParts(env: Env, open: Token, e: Expr, close: Token, s: Tokens, d: nat)
    returns (mid: Tokens)
    requires Derives(env, Seq([Text([open]), e, Text([close])]), s, d)
    ensures s == [open] + mid + [close] && Derives(env, e, mid, d)
  {
    hide Derives, DerivesAll;
    assert [Text([open]), e, Text([close])] == [Text([open])] + ([e] + [Text([close])]);
    SeqParts(env, [Text([open]), e, Text([close])], s, d);
    var i := SplitAll(env, [Text([open])], [e] + [Text([close])], s, d);
    TextIs(env, [open], s[..i], d);
    var j := SplitAll(env, [e], [Text([close])], s[i..], d);
    OneOf(env, e, s[i..][..j], d);
    TextIs(env, [close], s[i..][j..], d);
    mid := s[i..][..j];
    assert s == s[..i] + s[i..] == [open] + s[i..];
    assert s[i..] == s[i..][..j] + s[i..][j..] == mid + [close];
    Assoc([open], mid, [close]);
  }

  lemma {:induction false} Assoc(a: Tokens, b: Tokens, c: Tokens)
    ensures a + (b + c) == a + b + c
  {
  }

  lemma {:induction false} SeqParts(env: Env, ps: seq<Expr>, s: Tokens, d: nat)
    requires Derives(env, Seq(ps), s, d)
    ensures DerivesAll(env, ps, s, d)
  {
    hide DerivesAll;
  }

  lemma {:induction false} TextIs(env: Env, ts: Tokens, s: Tokens, d: nat)
    requires DerivesAll(env, [Text(ts)], s, d)
    ensures s == ts
  {
    OneOf(env, Text(ts), s, d);
  }

  lemma {:induction false} InThree(env: Env, open: Token, e: Expr, close: Token, mid: Tokens)
    requires In(env, e, mid)
    ensures In(env, Seq([Text([open]), e, Text([close])]), [open] + mid + [close])
  {
    InText(env, [open]);
    InText(env, [close]);
    InSeqOne(env, Text([close]), [close]);
    InSeqCons(env, e, [Text([close])], mid, [close]);
    InSeqCons(env, Text([open]), [e] + [Text([close])], [open], mid + [close]);
    assert [Text([open])] + ([e] + [Text([close])]) == [Text([open]), e, Text([close])];
    assert [open] + (mid + [close]) == [open] + mid + [close];
  }

  lemma {:induction false} OptParts(env: Env, ps: seq<Expr>, s: Tokens, d: nat)
    requires Derives(env, Opt(Seq(ps)), s, d) && s != []
    ensures DerivesAll(env, ps, s, d)
  {
  }

  lemma {:induction false} ListingPieces(env: Env, open: Token, item: seq<Expr>, close: Token, s: Tokens, d: nat)
    returns (pieces: seq<Tokens>)
    requires Derives(env, Listing(open, item, close), s, d)
    ensures s == [open] + Commas(pieces) + [close]
    ensures forall k :: 0 <= k < |pieces| ==> DerivesAll(env, item, pieces[k], d)
  {
    hide Derives, DerivesAll;
    var star := Star(Seq([Text([Comma])] + item));
    var mid := ThreeParts(env, open, Opt(Seq(item + [star])), close, s, d);
    if mid == [] {
      pieces := [];
    } else {
      OptParts(env, item + [star], mid, d);
      var i := SplitAll(env, item, [star], mid, d);
      OneOf(env, star, mid[i..], d);
      var rest := StarPieces(env, item, mid[i..], d);
      pieces := [mid[..i]] + rest;
      assert pieces[0] == mid[..i] && pieces[1..] == rest;
      assert mid == mid[..i] + mid[i..];
    }
  }

  lemma {:induction false} InStarPieces(env: Env, item: seq<Expr>, pieces: seq<Tokens>)
    requires forall k :: 0 <= k < |pieces| ==> In(env, Seq(item), pieces[k])
    ensures In(env, Star(Seq([Text([Comma])] + item)), CommaTail(pieces))
    decreases |pieces|
  {
    var star := Star(Seq([Text([Comma])] + item));
    if pieces == [] {
      assert Derives(env, star, [], 0);
    } else {
      InStarPieces(env, item, pieces[1..]);
      InText(env, [Comma]);
      InSeqCons(env, Text([Comma]), item, [Comma], pieces[0]);
      InStarCons(env, star.body, [Comma] + pieces[0], CommaTail(pieces[1..]));
    }
  }

  lemma {:induction false} InListing(env: Env, open: Token, item: seq<Expr>, close: Token, pieces: seq<Tokens>)
    requires forall k :: 0 <= k < |pieces| ==> In(env, Seq(item), pieces[k])
    ensures In(env, Listing(open, item, close), [open] + Commas(pieces) + [close])
  {
    var star := Star(Seq([Text([Comma])] + item));
    if pieces != [] {
      InStarPieces(env, item, pieces[1..]);
      InSeqOne(env, star, CommaTail(pieces[1..]));
      InSeqConcat(env, item, [star], pieces[0], CommaTail(pieces[1..]));
    }
    InOpt(env, Seq(item + [star]), Commas(pieces));
    InThree(env, open, Opt(Seq(item + [star])), close, Commas(pieces));
  }

  // ----- arrays -----

  ghost function ArrayOf(L: Language): Language
  {
    iset t: Json | t.Arr? && forall i :: 0 <= i < |t.items| ==> t.items[i] in L
  }

  lemma {:induction false} Gather(L: Language, pieces: seq<Tokens>) returns (ts: seq<Json>)
    requires forall k :: 0 <= k < |pieces| ==> Spells(L, pieces[k])
    ensures PrintItems(ts) == pieces && forall i :: 0 <= i < |ts| ==> ts[i] in L
    decreases |pieces|
  {
    hide Print;
    if pieces == [] {
      ts := [];
    } else {
      var t :| t in L && Print(t) == pieces[0];
      var rest := Gather(L, pieces[1..]);
      ts := [t] + rest;
      assert ts[0] == t && ts[1..] == rest;
      assert pieces == [pieces[0]] + pieces[1..];
    }
  }

  lemma {:induction false} ArraySound(env: Env, item: Expr, L: Language, d: nat)
    requires SoundAt(env, item, L, d)
    ensures SoundAt(env, Listing(LBracket, [item], RBracket), ArrayOf(L), d)
  {
    forall s | Derives(env, Listing(LBracket, [item], RBracket), s, d)
      ensures Spells(ArrayOf(L), s)
    {
      var pieces := ListingPieces(env, LBracket, [item], RBracket, s, d);
      forall k | 0 <= k < |pieces|
        ensures Spells(L, pieces[k])
      {
        OneOf(env, item, pieces[k], d);
      }
      var ts := Gather(L, pieces);
      assert Arr(ts) in ArrayOf(L) && Print(Arr(ts)) == s;
    }
  }

  lemma {:induction false} InArray(env: Env, item: Expr, ts: seq<Json>)
    requires forall i :: 0 <= i < |ts| ==> In(env, item, Print(ts[i]))
    ensures In(env, Listing(LBracket, [item], RBracket), Print(Arr(ts)))
  {
    var pieces := PrintItems(ts);
    forall k | 0 <= k < |pieces|
      ensures In(env, Seq([item]), pieces[k])
    {
      InSeqOne(env, item, pieces[k]);
    }
    InListing(env, LBracket, [item], RBracket, pieces);
  }

  /** An array rule derives exactly the arrays whose items its item expression derives. */
  lemma {:induction false} ArrayMeans(env: Env, item: Expr, L: Language)
    requires Means(env, item, L)
    ensures Means(env, Listing(LBracket, [item], RBracket), ArrayOf(L))
  {
    forall d
      ensures SoundAt(env, Listing(LBracket, [item], RBracket), ArrayOf(L), d)
    {
      assert SoundAt(env, item, L, d);
      ArraySound(env, item, L, d);
    }
    forall t | t in ArrayOf(L)
      ensures In(env, Listing(LBracket, [item], RBracket), Print(t))
    {
      InArray(env, item, t.items);
    }
  }
}
