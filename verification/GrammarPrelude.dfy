/** The terminals that every generated grammar shares. */
module GrammarPrelude {
  import opened Lexemes
  import opened Json
  import opened GrammarMeaning

  const PAIR: seq<Expr> := [Ref(StringRule), Text([Colon]), Ref(JsonRule)]

  const VALUES: seq<Expr> := [
    Ref(StringRule), Ref(NumberRule), Ref(ObjectRule), Ref(ArrayRule), Ref(BooleanRule), Text([NullTok])]

  const PRELUDE: Env := map[
    StringRule := AnyString,
    IntegerRule := Numeral(INTEGER),
    NumberRule := Numeral(NUMBER),
    BooleanRule := Alt([Text([TrueTok]), Text([FalseTok])]),
    ObjectRule := Listing(LBrace, PAIR, RBrace),
    ArrayRule := Listing(LBracket, [Ref(JsonRule)], RBracket),
    JsonRule := Alt(VALUES)]

  ghost const ANY_JSON: Language := iset t: Json | WellFormed(t)
  ghost const ANY_OBJECT: Language := iset t: Json | t.Obj? && WellFormed(t)
  ghost const STRINGS: Language := iset t: Json | t.Str?
  ghost const INTEGERS: Language := iset t: Json | t.Num? && IntegerText(t.text)
  ghost const NUMBERS: Language := iset t: Json | t.Num? && NumberText(t.text)
  ghost const BOOLEANS: Language := iset t: Json | t.Bool?

  lemma {:induction false} PreludeClosed()
    ensures ClosedEnv(PRELUDE)
  {
    forall n | n in PRELUDE
      ensures Closed(PRELUDE, PRELUDE[n])
    {
      if n == ObjectRule {
        ListingClosed(PRELUDE, LBrace, PAIR, RBrace);
      } else if n == ArrayRule {
        ListingClosed(PRELUDE, LBracket, [Ref(JsonRule)], RBracket);
      }
    }
  }

  lemma {:induction false} ListingClosed(env: Env, open: Token, item: seq<Expr>, close: Token)
    requires forall i :: 0 <= i < |item| ==> Closed(env, item[i])
    ensures Closed(env, Listing(open, item, close))
  {
    var comma := [Text([Comma])] + item;
    assert forall i :: 0 <= i < |comma| ==> Closed(env, comma[i]);
    var inner := item + [Star(Seq(comma))];
    assert forall i :: 0 <= i < |inner| ==> Closed(env, inner[i]);
  }

  // ----- the scalar rules -----

  lemma {:induction false} StringMeans(env: Env)
    requires Extends(PRELUDE, env)
    ensures Means(env, Ref(StringRule), STRINGS)
  {
    hide Spellable;
    assert StringRule in PRELUDE;
    forall d: nat, s: Tokens | Derives(env, AnyString, s, d)
      ensures Spells(STRINGS, s)
    {
      assert Str(s[0].s) in STRINGS && Print(Str(s[0].s)) == s;
    }
    forall t | t in STRINGS
      ensures In(env, AnyString, Print(t))
    {
      EverythingSpellable(t.s);
      assert Derives(env, AnyString, Print(t), 0);
    }
    RefMeans(env, StringRule, STRINGS);
  }

  lemma {:induction false} IntegerMeans(env: Env)
    requires Extends(PRELUDE, env)
    ensures Means(env, Ref(IntegerRule), INTEGERS)
  {
    hide IntegerText, Accepts;
    assert IntegerRule in PRELUDE;
    var e := Numeral(INTEGER);
    forall d: nat, s: Tokens | Derives(env, e, s, d)
      ensures Spells(INTEGERS, s)
    {
      IntegerExact(s[0].text);
      assert Num(s[0].text) in INTEGERS && Print(Num(s[0].text)) == s;
    }
    forall t | t in INTEGERS
      ensures In(env, e, Print(t))
    {
      IntegerExact(t.text);
      assert Derives(env, e, Print(t), 0);
    }
    RefMeans(env, IntegerRule, INTEGERS);
  }

  lemma {:induction false} NumberMeans(env: Env)
    requires Extends(PRELUDE, env)
    ensures Means(env, Ref(NumberRule), NUMBERS)
  {
    hide NumberText, Accepts;
    assert NumberRule in PRELUDE;
    var e := Numeral(NUMBER);
    forall d: nat, s: Tokens | Derives(env, e, s, d)
      ensures Spells(NUMBERS, s)
    {
      NumberExact(s[0].text);
      assert Num(s[0].text) in NUMBERS && Print(Num(s[0].text)) == s;
    }
    forall t | t in NUMBERS
      ensures In(env, e, Print(t))
    {
      NumberExact(t.text);
      assert Derives(env, e, Print(t), 0);
    }
    RefMeans(env, NumberRule, NUMBERS);
  }

  lemma {:induction false} BooleanMeans(env: Env)
    requires Extends(PRELUDE, env)
    ensures Means(env, Ref(BooleanRule), BOOLEANS)
  {
    assert BooleanRule in PRELUDE;
    var e := Alt([Text([TrueTok]), Text([FalseTok])]);
    forall d, s | Derives(env, e, s, d)
      ensures Spells(BOOLEANS, s)
    {
      var i :| 0 <= i < |e.choices| && Derives(env, e.choices[i], s, d);
      var t := Bool(i == 0);
      assert t in BOOLEANS && Print(t) == s;
    }
    forall t | t in BOOLEANS
      ensures In(env, e, Print(t))
    {
      InText(env, Print(t));
      InAlt(env, e.choices, if t.b then 0 else 1, Print(t));
    }
    RefMeans(env, BooleanRule, BOOLEANS);
  }

  // ----- json, object and array: nothing that is not JSON -----

  lemma {:induction false} PairPiece(env: Env, s: Tokens, d: nat) returns (f: Field)
    requires Extends(PRELUDE, env) && DerivesAll(env, PAIR, s, d) && SoundAt(env, Ref(JsonRule), ANY_JSON, d)
    ensures WellFormed(f.value) && s == [StrTok(f.key), Colon] + Print(f.value)
  {
    hide Derives, DerivesAll, Print;
    var a, b, c := [Ref(StringRule)], [Text([Colon])], [Ref(JsonRule)];
    assert PAIR == a + (b + c);
    var i := SplitAll(env, a, b + c, s, d);
    OneOf(env, a[0], s[..i], d);
    StringRef(env, s[..i], d);
    var j := SplitAll(env, b, c, s[i..], d);
    OneOf(env, b[0], s[i..][..j], d);
    TextExact(env, [Colon], s[i..][..j], d);
    OneOf(env, c[0], s[i..][j..], d);
    var v :| v in ANY_JSON && Print(v) == s[i..][j..];
    f := Field(s[0].s, v);
    assert s == s[..i] + (s[i..][..j] + s[i..][j..]);
  }

  lemma {:induction false} TextExact(env: Env, ts: Tokens, s: Tokens, d: nat)
    requires Derives(env, Text(ts), s, d)
    ensures s == ts
  {
  }

  lemma {:induction false} StringRef(env: Env, s: Tokens, d: nat)
    requires Extends(PRELUDE, env) && Derives(env, Ref(StringRule), s, d)
    ensures |s| == 1 && s[0].StrTok?
  {
    assert StringRule in PRELUDE;
    assert Derives(env, AnyString, s, d - 1);
  }

  lemma {:induction false} GatherFields(env: Env, pieces: seq<Tokens>, d: nat) returns (fs: seq<Field>)
    requires Extends(PRELUDE, env) && SoundAt(env, Ref(JsonRule), ANY_JSON, d)
    requires forall k :: 0 <= k < |pieces| ==> DerivesAll(env, PAIR, pieces[k], d)
    ensures PrintFields(fs) == pieces && forall i :: 0 <= i < |fs| ==> WellFormed(fs[i].value)
    decreases |pieces|
  {
    hide DerivesAll, Derives, SoundAt, WellFormed, Print, Extends;
    if pieces == [] {
      fs := [];
    } else {
      var f := PairPiece(env, pieces[0], d);
      var rest := GatherFields(env, pieces[1..], d);
      fs := [f] + rest;
      assert fs[0] == f && fs[1..] == rest;
      assert pieces == [pieces[0]] + pieces[1..];
    }
  }

  lemma {:induction false} ObjectSound(env: Env, s: Tokens, d: nat)
    requires Extends(PRELUDE, env) && SoundAt(env, Ref(JsonRule), ANY_JSON, d)
    requires Derives(env, Listing(LBrace, PAIR, RBrace), s, d)
    ensures Spells(ANY_OBJECT, s)
  {
    hide Derives, DerivesAll, SoundAt, Listing;
    var pieces := ListingPieces(env, LBrace, PAIR, RBrace, s, d);
    var fs := GatherFields(env, pieces, d);
    var t := Obj(fs);
    assert t in ANY_OBJECT && Print(t) == s;
  }

  lemma {:induction false} JsonSound(env: Env, d: nat)
    requires Extends(PRELUDE, env)
    ensures SoundAt(env, Ref(JsonRule), ANY_JSON, d)
    ensures SoundAt(env, Ref(ObjectRule), ANY_OBJECT, d)
  {
    hide Listing, NumberText;
    assert JsonRule in PRELUDE && ObjectRule in PRELUDE && ArrayRule in PRELUDE;
    if d > 0 { JsonSound(env, d - 1); }
    if d > 1 { JsonSound(env, d - 2); }
    forall s | Derives(env, Ref(ObjectRule), s, d)
      ensures Spells(ANY_OBJECT, s)
    {
      assert Derives(env, Listing(LBrace, PAIR, RBrace), s, d - 1);
      ObjectSound(env, s, d - 1);
    }
    forall s | Derives(env, Ref(JsonRule), s, d)
      ensures Spells(ANY_JSON, s)
    {
      ValueSound(env, s, d - 1);
    }
  }

  lemma {:induction false} Widen(L: Language, s: Tokens)
    requires Spells(L, s) && forall t :: t in L ==> WellFormed(t)
    ensures Spells(ANY_JSON, s)
  {
    var t :| t in L && Print(t) == s;
    assert t in ANY_JSON;
  }

  lemma {:induction false} ValueSound(env: Env, s: Tokens, d: nat)
    requires Extends(PRELUDE, env) && Derives(env, Ref(JsonRule), s, d + 1)
    requires SoundAt(env, Ref(JsonRule), ANY_JSON, d) && SoundAt(env, Ref(ObjectRule), ANY_OBJECT, d)
    requires d > 0 ==> SoundAt(env, Ref(JsonRule), ANY_JSON, d - 1)
    ensures Spells(ANY_JSON, s)
  {
    hide Listing, NumberText, Print, Spells;
    assert JsonRule in PRELUDE && ArrayRule in PRELUDE;
    assert Derives(env, Alt(VALUES), s, d);
    var i :| 0 <= i < |VALUES| && Derives(env, VALUES[i], s, d);
    if i == 0 {
      StringMeans(env);
      assert SoundAt(env, Ref(StringRule), STRINGS, d);
      Widen(STRINGS, s);
    } else if i == 1 {
      NumberMeans(env);
      assert SoundAt(env, Ref(NumberRule), NUMBERS, d);
      Widen(NUMBERS, s);
    } else if i == 2 {
      Widen(ANY_OBJECT, s);
    } else if i == 3 {
      assert Derives(env, Listing(LBracket, [Ref(JsonRule)], RBracket), s, d - 1);
      ArraySound(env, Ref(JsonRule), ANY_JSON, d - 1);
      Widen(ArrayOf(ANY_JSON), s);
    } else if i == 4 {
      BooleanMeans(env);
      assert SoundAt(env, Ref(BooleanRule), BOOLEANS, d);
      Widen(BOOLEANS, s);
    } else {
      NullSpelled();
    }
  }

  lemma {:induction false} NullSpelled()
    ensures Spells(ANY_JSON, [NullTok])
  {
    assert Null in ANY_JSON && Print(Null) == [NullTok];
  }

  // ----- json and object: all of JSON -----

  lemma {:induction false} InJson(env: Env, t: Json)
    requires Extends(PRELUDE, env) && WellFormed(t)
    ensures In(env, Ref(JsonRule), Print(t))
    decreases t, 1
  {
    hide In, Derives, Listing, NumberText;
    var k :=
      match t
      case Str(_) => 0
      case Num(_) => 1
      case Obj(_) => 2
      case Arr(_) => 3
      case Bool(_) => 4
      case Null => 5;
    match t {
      case Str(_) =>
        StringMeans(env);
      case Num(_) =>
        NumberMeans(env);
      case Obj(fields) =>
        InObjectRule(env, fields);
      case Arr(items) =>
        forall i | 0 <= i < |items|
          ensures In(env, Ref(JsonRule), Print(items[i]))
        {
          InJson(env, items[i]);
        }
        InArray(env, Ref(JsonRule), items);
        assert ArrayRule in PRELUDE;
        InRef(env, ArrayRule, Print(t));
      case Bool(_) =>
        BooleanMeans(env);
      case Null =>
        InText(env, [NullTok]);
    }
    assert In(env, VALUES[k], Print(t));
    InAlt(env, VALUES, k, Print(t));
    assert JsonRule in PRELUDE;
    InRef(env, JsonRule, Print(t));
  }

  lemma {:induction false} InObjectRule(env: Env, fields: seq<Field>)
    requires Extends(PRELUDE, env) && forall i :: 0 <= i < |fields| ==> WellFormed(fields[i].value)
    ensures In(env, Ref(ObjectRule), Print(Obj(fields)))
    decreases fields, 0
  {
    hide In, Derives, Listing, WellFormed, Means;
    var pieces := PrintFields(fields);
    forall k | 0 <= k < |pieces|
      ensures In(env, Seq(PAIR), pieces[k])
    {
      InJson(env, fields[k].value);
      InPairOf(env, fields[k]);
    }
    InListing(env, LBrace, PAIR, RBrace, pieces);
    assert ObjectRule in PRELUDE;
    InRef(env, ObjectRule, Print(Obj(fields)));
  }

  lemma {:induction false} InStringRule(env: Env, key: string)
    requires Extends(PRELUDE, env)
    ensures In(env, Ref(StringRule), [StrTok(key)])
  {
    hide In, Derives;
    StringMeans(env);
    assert Str(key) in STRINGS && Print(Str(key)) == [StrTok(key)];
  }

  lemma {:induction false} InPairOf(env: Env, f: Field)
    requires Extends(PRELUDE, env) && In(env, Ref(JsonRule), Print(f.value))
    ensures In(env, Seq(PAIR), [StrTok(f.key), Colon] + Print(f.value))
  {
    hide In, Derives, Print;
    var a, b, c := Ref(StringRule), Text([Colon]), Ref(JsonRule);
    InStringRule(env, f.key);
    InText(env, [Colon]);
    InSeqOne(env, c, Print(f.value));
    InSeqCons(env, b, [c], [Colon], Print(f.value));
    InSeqCons(env, a, [b] + [c], [StrTok(f.key)], [Colon] + Print(f.value));
    assert [a] + ([b] + [c]) == PAIR;
    assert [StrTok(f.key)] + ([Colon] + Print(f.value)) == [StrTok(f.key), Colon] + Print(f.value);
  }

  /** `json` derives exactly the well-formed trees, and `object` exactly the objects among them. */
  lemma {:induction false} JsonMeans(env: Env)
    requires Extends(PRELUDE, env)
    ensures Means(env, Ref(JsonRule), ANY_JSON) && Means(env, Ref(ObjectRule), ANY_OBJECT)
  {
    hide SoundAt, In;
    forall d: nat
      ensures SoundAt(env, Ref(JsonRule), ANY_JSON, d) && SoundAt(env, Ref(ObjectRule), ANY_OBJECT, d)
    {
      JsonSound(env, d);
    }
    forall t | t in ANY_JSON
      ensures In(env, Ref(JsonRule), Print(t))
    {
      InJson(env, t);
    }
    forall t | t in ANY_OBJECT
      ensures In(env, Ref(ObjectRule), Print(t))
    {
      InObjectRule(env, t.fields);
    }
  }
}
