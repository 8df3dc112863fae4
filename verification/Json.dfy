/** JSON trees, the tokens they are written as, and a grammar over those tokens. */
module Json {
  import opened Lexemes

  datatype Json =
    | Null
    | Bool(b: bool)
    | Num(text: string)
    | Str(s: string)
    | Arr(items: seq<Json>)
    | Obj(fields: seq<Field>)

  datatype Field = Field(key: string, value: Json)

  ghost predicate WellFormed(t: Json)
  {
    match t
    case Num(text) => NumberText(text)
    case Arr(items) => forall i :: 0 <= i < |items| ==> WellFormed(items[i])
    case Obj(fields) => forall i :: 0 <= i < |fields| ==> WellFormed(fields[i].value)
    case _ => true
  }

  // ----- tokens -----

  datatype Token =
    | LBrace | RBrace | LBracket | RBracket | Comma | Colon
    | StrTok(s: string)
    | NumTok(text: string)
    | TrueTok | FalseTok | NullTok

  type Tokens = seq<Token>

  function CommaTail(pieces: seq<Tokens>): Tokens
  {
    if pieces == [] then [] else [Comma] + pieces[0] + CommaTail(pieces[1..])
  }

  function Commas(pieces: seq<Tokens>): Tokens
  {
    if pieces == [] then [] else pieces[0] + CommaTail(pieces[1..])
  }

  /** The tokens of a tree; white space between tokens carries no meaning. */
  function Print(t: Json): Tokens
    decreases t, 1
  {
    match t
    case Null => [NullTok]
    case Bool(b) => [if b then TrueTok else FalseTok]
    case Num(text) => [NumTok(text)]
    case Str(s) => [StrTok(s)]
    case Arr(items) => [LBracket] + Commas(PrintItems(items)) + [RBracket]
    case Obj(fields) => [LBrace] + Commas(PrintFields(fields)) + [RBrace]
  }

  function PrintItems(items: seq<Json>): (r: seq<Tokens>)
    ensures |r| == |items|
    ensures forall i :: 0 <= i < |r| ==> r[i] == Print(items[i])
    decreases items, 0
  {
    if items == [] then [] else [Print(items[0])] + PrintItems(items[1..])
  }

  function PrintFields(fields: seq<Field>): (r: seq<Tokens>)
    ensures |r| == |fields|
    ensures forall i :: 0 <= i < |r| ==> r[i] == [StrTok(fields[i].key), Colon] + Print(fields[i].value)
    decreases fields, 0
  {
    if fields == [] then [] else [[StrTok(fields[0].key), Colon] + Print(fields[0].value)] + PrintFields(fields[1..])
  }

  // ----- grammars -----

  datatype Kind = ArrayKind | ObjectKind

  datatype Name =
    | Args(tool: nat)
    | Call(tool: nat)
    | Fresh(tool: nat, kind: Kind, n: nat)
    | StringRule | IntegerRule | NumberRule | BooleanRule | ObjectRule | ArrayRule | JsonRule

  datatype Expr =
    | Text(ts: Tokens)
    | AnyString
    | Numeral(rule: Lex)
    | Ref(name: Name)
    | Seq(parts: seq<Expr>)
    | Alt(choices: seq<Expr>)
    | Opt(body: Expr)
    | Star(body: Expr)

  type Env = map<Name, Expr>

  /** `e` derives the tokens with at most `d` rule references nested. */
  ghost predicate Derives(env: Env, e: Expr, s: Tokens, d: nat)
    decreases d, e, |s|, 1
  {
    match e
    case Text(ts) => s == ts
    case AnyString => |s| == 1 && s[0].StrTok? && Spellable(s[0].s)
    case Numeral(rule) => |s| == 1 && s[0].NumTok? && Accepts(rule, s[0].text)
    case Ref(n) => d > 0 && n in env && Derives(env, env[n], s, d - 1)
    case Seq(parts) => DerivesAll(env, parts, s, d)
    case Alt(choices) => exists i :: 0 <= i < |choices| && Derives(env, choices[i], s, d)
    case Opt(body) => s == [] || Derives(env, body, s, d)
    case Star(body) =>
      s == [] || exists i :: 0 < i <= |s| && Derives(env, body, s[..i], d) && Derives(env, e, s[i..], d)
  }

  ghost predicate DerivesAll(env: Env, parts: seq<Expr>, s: Tokens, d: nat)
    decreases d, parts, |s|, 0
  {
    if parts == [] then s == []
    else exists i :: 0 <= i <= |s| && Derives(env, parts[0], s[..i], d) && DerivesAll(env, parts[1..], s[i..], d)
  }

  ghost predicate In(env: Env, e: Expr, s: Tokens)
  {
    exists d :: Derives(env, e, s, d)
  }

  lemma {:induction false} DerivesMono(env: Env, e: Expr, s: Tokens, d: nat, d': nat)
    requires d <= d' && Derives(env, e, s, d)
    ensures Derives(env, e, s, d')
    decreases d, e, |s|, 1
  {
    match e
    case Ref(n) => DerivesMono(env, env[n], s, d - 1, d' - 1);
    case Seq(parts) => DerivesAllMono(env, parts, s, d, d');
    case Alt(choices) =>
      var i :| 0 <= i < |choices| && Derives(env, choices[i], s, d);
      DerivesMono(env, choices[i], s, d, d');
    case Opt(body) =>
      if s != [] { DerivesMono(env, body, s, d, d'); }
    case Star(body) =>
      if s != [] {
        var i :| 0 < i <= |s| && Derives(env, body, s[..i], d) && Derives(env, e, s[i..], d);
        DerivesMono(env, body, s[..i], d, d');
        DerivesMono(env, e, s[i..], d, d');
      }
    case _ =>
  }

  lemma {:induction false} DerivesAllMono(env: Env, parts: seq<Expr>, s: Tokens, d: nat, d': nat)
    requires d <= d' && DerivesAll(env, parts, s, d)
    ensures DerivesAll(env, parts, s, d')
    decreases d, parts, |s|, 0
  {
    if parts != [] {
      var i :| 0 <= i <= |s| && Derives(env, parts[0], s[..i], d) && DerivesAll(env, parts[1..], s[i..], d);
      DerivesMono(env, parts[0], s[..i], d, d');
      DerivesAllMono(env, parts[1..], s[i..], d, d');
    }
  }

  // ----- names an expression uses, and growing the rule set -----

  ghost predicate Closed(env: Env, e: Expr)
  {
    match e
    case Ref(n) => n in env
    case Seq(parts) => forall i :: 0 <= i < |parts| ==> Closed(env, parts[i])
    case Alt(choices) => forall i :: 0 <= i < |choices| ==> Closed(env, choices[i])
    case Opt(body) => Closed(env, body)
    case Star(body) => Closed(env, body)
    case _ => true
  }

  ghost predicate ClosedEnv(env: Env)
  {
    forall n :: n in env ==> Closed(env, env[n])
  }

  ghost predicate Extends(env: Env, env': Env)
  {
    forall n :: n in env ==> n in env' && env'[n] == env[n]
  }

  /** Rules added under new names do not change what a closed expression derives. */
  lemma {:induction false} ExtensionKeepsMeaning(env: Env, env': Env, e: Expr, s: Tokens, d: nat)
    requires Extends(env, env') && ClosedEnv(env) && Closed(env, e)
    ensures Derives(env, e, s, d) <==> Derives(env', e, s, d)
    decreases d, e, |s|, 1
  {
    match e
    case Ref(n) =>
      if d > 0 { ExtensionKeepsMeaning(env, env', env[n], s, d - 1); }
    case Seq(parts) => ExtensionKeepsAll(env, env', parts, s, d);
    case Alt(choices) =>
      forall i | 0 <= i < |choices|
        ensures Derives(env, choices[i], s, d) <==> Derives(env', choices[i], s, d)
      {
        ExtensionKeepsMeaning(env, env', choices[i], s, d);
      }
    case Opt(body) => ExtensionKeepsMeaning(env, env', body, s, d);
    case Star(body) =>
      forall i | 0 < i <= |s|
        ensures Derives(env, body, s[..i], d) <==> Derives(env', body, s[..i], d)
        ensures Derives(env, e, s[i..], d) <==> Derives(env', e, s[i..], d)
      {
        ExtensionKeepsMeaning(env, env', body, s[..i], d);
        ExtensionKeepsMeaning(env, env', e, s[i..], d);
      }
    case _ =>
  }

  lemma {:induction false} ExtensionKeepsAll(env: Env, env': Env, parts: seq<Expr>, s: Tokens, d: nat)
    requires Extends(env, env') && ClosedEnv(env) && forall i :: 0 <= i < |parts| ==> Closed(env, parts[i])
    ensures DerivesAll(env, parts, s, d) <==> DerivesAll(env', parts, s, d)
    decreases d, parts, |s|, 0
  {
    if parts != [] {
      forall i | 0 <= i <= |s|
        ensures Derives(env, parts[0], s[..i], d) <==> Derives(env', parts[0], s[..i], d)
        ensures DerivesAll(env, parts[1..], s[i..], d) <==> DerivesAll(env', parts[1..], s[i..], d)
      {
        ExtensionKeepsMeaning(env, env', parts[0], s[..i], d);
        ExtensionKeepsAll(env, env', parts[1..], s[i..], d);
      }
    }
  }

  lemma {:induction false} ClosedGrows(env: Env, env': Env, e: Expr)
    requires Extends(env, env') && Closed(env, e)
    ensures Closed(env', e)
  {
    match e
    case Seq(parts) =>
      forall i | 0 <= i < |parts| ensures Closed(env', parts[i]) { ClosedGrows(env, env', parts[i]); }
    case Alt(choices) =>
      forall i | 0 <= i < |choices| ensures Closed(env', choices[i]) { ClosedGrows(env, env', choices[i]); }
    case Opt(body) => ClosedGrows(env, env', body);
    case Star(body) => ClosedGrows(env, env', body);
    case _ =>
  }

  // ----- building derivations -----

  lemma {:induction false} InSeqNil(env: Env)
    ensures In(env, Seq([]), [])
  {
    assert Derives(env, Seq([]), [], 0);
  }

  lemma {:induction false} InSeqCons(env: Env, p: Expr, ps: seq<Expr>, a: Tokens, b: Tokens)
    requires In(env, p, a) && In(env, Seq(ps), b)
    ensures In(env, Seq([p] + ps), a + b)
  {
    var d1 :| Derives(env, p, a, d1);
    var d2 :| Derives(env, Seq(ps), b, d2);
    var d := if d1 > d2 then d1 else d2;
    DerivesMono(env, p, a, d1, d);
    DerivesMono(env, Seq(ps), b, d2, d);
    var parts, s := [p] + ps, a + b;
    assert parts[0] == p && parts[1..] == ps && s[..|a|] == a && s[|a|..] == b;
    assert DerivesAll(env, parts, s, d);
    assert Derives(env, Seq(parts), s, d);
  }

  lemma {:induction false} InAlt(env: Env, choices: seq<Expr>, i: nat, s: Tokens)
    requires i < |choices| && In(env, choices[i], s)
    ensures In(env, Alt(choices), s)
  {
    var d :| Derives(env, choices[i], s, d);
    assert Derives(env, Alt(choices), s, d);
  }

  lemma {:induction false} InOpt(env: Env, e: Expr, s: Tokens)
    requires s == [] || In(env, e, s)
    ensures In(env, Opt(e), s)
  {
    if s == [] {
      assert Derives(env, Opt(e), s, 0);
    } else {
      var d :| Derives(env, e, s, d);
      assert Derives(env, Opt(e), s, d);
    }
  }

  lemma {:induction false} InText(env: Env, ts: Tokens)
    ensures In(env, Text(ts), ts)
  {
    assert Derives(env, Text(ts), ts, 0);
  }

  lemma {:induction false} InRef(env: Env, n: Name, s: Tokens)
    requires n in env && In(env, env[n], s)
    ensures In(env, Ref(n), s)
  {
    var d: nat :| Derives(env, env[n], s, d);
    assert Derives(env, Ref(n), s, d + 1);
  }

  lemma {:induction false} InStarCons(env: Env, e: Expr, a: Tokens, b: Tokens)
    requires a != [] && In(env, e, a) && In(env, Star(e), b)
    ensures In(env, Star(e), a + b)
  {
    var d1 :| Derives(env, e, a, d1);
    var d2 :| Derives(env, Star(e), b, d2);
    var d := if d1 > d2 then d1 else d2;
    DerivesMono(env, e, a, d1, d);
    DerivesMono(env, Star(e), b, d2, d);
    var s := a + b;
    assert s[..|a|] == a && s[|a|..] == b;
    assert Derives(env, Star(e), s, d);
  }
}
