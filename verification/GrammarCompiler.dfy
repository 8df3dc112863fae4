/** The compiler from tool schemas to grammar rules, and what the compiled grammar accepts. */
module GrammarCompiler {
  import opened Bytes
  import opened Lexemes
  import opened Json
  import opened JsonPrinting
  import opened GrammarMeaning
  import opened GrammarObjects
  import opened GrammarPrelude
  import opened Schema

  datatype Rule = Rule(name: Name, body: Expr)

  // ----- the rule list -----

  ghost function EnvOf(rules: seq<Rule>): Env
  {
    if rules == [] then PRELUDE
    else
      var r := rules[|rules| - 1];
      EnvOf(rules[..|rules| - 1])[r.name := r.body]
  }

  /** Every rule has a name of its own and refers only to shared terminals and earlier rules. */
  ghost predicate GoodRules(rules: seq<Rule>)
  {
    rules == [] ||
    var n := |rules| - 1;
    GoodRules(rules[..n]) && rules[n].name !in EnvOf(rules[..n]) && Closed(EnvOf(rules[..n]), rules[n].body)
  }

  lemma {:induction false} GoodIsClosed(rules: seq<Rule>)
    requires GoodRules(rules)
    ensures ClosedEnv(EnvOf(rules)) && Extends(PRELUDE, EnvOf(rules))
  {
    hide Closed;
    if rules == [] {
      PreludeClosed();
    } else {
      var n := |rules| - 1;
      var env, env' := EnvOf(rules[..n]), EnvOf(rules);
      GoodIsClosed(rules[..n]);
      forall m | m in env'
        ensures Closed(env', env'[m])
      {
        ClosedGrows(env, env', env'[m]);
      }
    }
  }

  lemma {:induction false} PrefixExtends(a: seq<Rule>, b: seq<Rule>)
    requires a <= b && GoodRules(b)
    ensures GoodRules(a) && Extends(EnvOf(a), EnvOf(b))
    decreases |b|
  {
    if |a| < |b| {
      PrefixExtends(a, b[..|b| - 1]);
    } else {
      assert a == b;
    }
  }

  lemma {:induction false} Push(rules: seq<Rule>, r: Rule)
    requires GoodRules(rules) && r.name !in EnvOf(rules) && Closed(EnvOf(rules), r.body)
    ensures GoodRules(rules + [r])
    ensures EnvOf(rules + [r]) == EnvOf(rules)[r.name := r.body]
    ensures Extends(EnvOf(rules), EnvOf(rules + [r]))
  {
    var all := rules + [r];
    assert all[..|all| - 1] == rules;
  }

  /** The new rule means what its body means, and so does a reference to it. */
  lemma {:induction false} PushMeans(rules: seq<Rule>, r: Rule, L: Language)
    requires GoodRules(rules) && r.name !in EnvOf(rules) && Closed(EnvOf(rules), r.body)
    requires Means(EnvOf(rules), r.body, L)
    ensures GoodRules(rules + [r])
    ensures Closed(EnvOf(rules + [r]), Ref(r.name)) && Means(EnvOf(rules + [r]), Ref(r.name), L)
  {
    hide Means;
    GoodIsClosed(rules);
    Push(rules, r);
    MeansGrows(EnvOf(rules), EnvOf(rules + [r]), r.body, L);
    RefMeans(EnvOf(rules + [r]), r.name, L);
  }

  /** Names numbered for tool `index` up to `counter` may be taken, and those of earlier tools. */
  ghost predicate Below(rules: seq<Rule>, index: nat, counter: nat)
  {
    forall n :: n in EnvOf(rules) ==>
      match n
      case Fresh(t, _, c) => t < index || (t == index && c <= counter)
      case Args(t) => t < index
      case Call(t) => t < index
      case _ => true
  }

  // ----- object_body -----

  lemma {:induction false} ReqTailSnoc(ps: seq<Part>, p: Part)
    ensures ReqTail(ps + [p]) == ReqTail(ps) + CommaPair(p)
  {
    if ps == [] {
      assert ps + [p] == [p] && [p][1..] == [];
    } else {
      assert (ps + [p])[1..] == ps[1..] + [p];
      ReqTailSnoc(ps[1..], p);
    }
  }

  lemma {:induction false} OptTailSnoc(ps: seq<Part>, p: Part)
    ensures OptTail(ps + [p]) == OptTail(ps) + [Opt(Seq(CommaPair(p)))]
  {
    if ps == [] {
      assert ps + [p] == [p] && [p][1..] == [];
    } else {
      assert (ps + [p])[1..] == ps[1..] + [p];
      OptTailSnoc(ps[1..], p);
    }
  }

  /** The choice that starts with this optional property: it, then any of the later ones. */
  method Alternative(optional: seq<Part>, index: nat) returns (choice: Expr)
    requires index < |optional|
    ensures choice == Seq(Pair(optional[index]) + OptTail(optional[index + 1..]))
  {
    hide Pair, CommaPair, OptTail;
    var alternative := Pair(optional[index]);
    NoOptTail(alternative);
    assert optional[index + 1..index + 1] == [];
    for later := index + 1 to |optional|
      invariant alternative == Pair(optional[index]) + OptTail(optional[index + 1..later])
    {
      alternative := alternative + [Opt(Seq(CommaPair(optional[later])))];
      OptTailSnoc(optional[index + 1..later], optional[later]);
      assert optional[index + 1..later + 1] == optional[index + 1..later] + [optional[later]];
    }
    assert optional[index + 1..|optional|] == optional[index + 1..];
    choice := Seq(alternative);
  }

  method ObjectBody(required: seq<Part>, optional: seq<Part>) returns (body: Expr)
    ensures body == BodySpec(required, optional)
  {
    hide Pair, CommaPair, ReqTail, OptTail;
    if |required| == 0 && |optional| == 0 {
      return Seq([Text([LBrace]), Text([RBrace])]);
    }
    var parts := [Text([LBrace])];
    if |required| == 0 {
      var alternatives: seq<Expr> := [];
      for index := 0 to |optional|
        invariant alternatives == Alternatives(optional)[..index]
      {
        var alternative := Alternative(optional, index);
        alternatives := alternatives + [alternative];
      }
      assert alternatives == Alternatives(optional);
      parts := parts + [Opt(Alt(alternatives))];
    } else {
      for index := 0 to |required|
        invariant index == 0 ==> parts == [Text([LBrace])]
        invariant index > 0 ==> parts == [Text([LBrace])] + (Pair(required[0]) + ReqTail(required[1..index]))
      {
        if index == 0 {
          parts := parts + Pair(required[0]);
          assert required[1..1] == [];
          NoReqTails(Pair(required[0]));
        } else {
          parts := parts + CommaPair(required[index]);
          ReqTailSnoc(required[1..index], required[index]);
          assert required[1..index + 1] == required[1..index] + [required[index]];
        }
      }
      ghost var head := [Text([LBrace])] + (Pair(required[0]) + ReqTail(required[1..]));
      assert required[1..|required|] == required[1..];
      assert parts == head;
      NoOptTail(head);
      assert optional[..0] == [];
      for k := 0 to |optional|
        invariant parts == head + OptTail(optional[..k])
      {
        parts := parts + [Opt(Seq(CommaPair(optional[k])))];
        OptTailSnoc(optional[..k], optional[k]);
        assert optional[..k + 1] == optional[..k] + [optional[k]];
      }
      assert optional[..|optional|] == optional;
      assert parts == [Text([LBrace])] + (Pair(required[0]) + (ReqTail(required[1..]) + OptTail(optional)));
    }
    body := Seq(parts + [Text([RBrace])]);
  }

  lemma {:induction false} NoOptTail(x: seq<Expr>)
    ensures x + OptTail([]) == x
  {
  }

  lemma {:induction false} NoReqTails(x: seq<Expr>)
    ensures x + ReqTail([]) == x
  {
  }

  // ----- SubCompiler -----

  /** The list and the flag that all tools share. */
  class Output {
    var rules: seq<Rule>
    var widened: bool

    constructor ()
      ensures rules == [] && !widened
    {
      rules := [];
      widened := false;
    }
  }

  lemma {:induction false} EnumMeans(env: Env, choices: seq<Json>)
    ensures Means(env, Alt(Literals(choices)), (iset t: Json | t in choices))
    ensures Closed(env, Alt(Literals(choices)))
  {
    hide Print;
    var e := Alt(Literals(choices));
    forall d, s | Derives(env, e, s, d)
      ensures Spells((iset t: Json | t in choices), s)
    {
      var i :| 0 <= i < |e.choices| && Derives(env, e.choices[i], s, d);
      assert choices[i] in choices && Print(choices[i]) == s;
    }
    forall t | t in choices
      ensures In(env, e, Print(t))
    {
      var i :| 0 <= i < |choices| && choices[i] == t;
      InText(env, Print(t));
      InAlt(env, e.choices, i, Print(t));
    }
  }

  function Literals(choices: seq<Json>): (r: seq<Expr>)
    ensures |r| == |choices| && forall i :: 0 <= i < |r| ==> r[i] == Text(Print(choices[i]))
  {
    seq(|choices|, i requires 0 <= i < |choices| => Text(Print(choices[i])))
  }

  lemma {:induction false} NullMeans(env: Env)
    ensures Means(env, Text([NullTok]), iset{Null})
  {
    forall d, s | Derives(env, Text([NullTok]), s, d)
      ensures Spells(iset{Null}, s)
    {
      assert Null in iset{Null} && Print(Null) == s;
    }
    InText(env, [NullTok]);
  }

  ghost predicate PartsClosed(env: Env, parts: seq<Part>)
  {
    forall i :: 0 <= i < |parts| ==> Closed(env, parts[i].value)
  }

  lemma {:induction false} PartsGrow(env: Env, env': Env, parts: seq<Part>, props: seq<Prop>)
    requires Extends(env, env') && ClosedEnv(env) && PartsClosed(env, parts) && PartsMean(env, parts, props)
    ensures PartsClosed(env', parts) && PartsMean(env', parts, props)
  {
    hide Means, Closed;
    forall i | 0 <= i < |parts|
      ensures Closed(env', parts[i].value) && Means(env', parts[i].value, props[i].lang)
    {
      ClosedGrows(env, env', parts[i].value);
      MeansGrows(env, env', parts[i].value, props[i].lang);
    }
  }

  lemma {:induction false} TailsClosed(env: Env, parts: seq<Part>)
    requires PartsClosed(env, parts)
    ensures forall i :: 0 <= i < |ReqTail(parts)| ==> Closed(env, ReqTail(parts)[i])
    ensures forall i :: 0 <= i < |OptTail(parts)| ==> Closed(env, OptTail(parts)[i])
  {
    if parts != [] {
      TailsClosed(env, parts[1..]);
      PairClosed(env, parts[0]);
    }
  }

  lemma {:induction false} PairClosed(env: Env, p: Part)
    requires Closed(env, p.value)
    ensures forall i :: 0 <= i < |Pair(p)| ==> Closed(env, Pair(p)[i])
    ensures Closed(env, Opt(Seq(CommaPair(p))))
  {
  }

  lemma {:induction false} BodyClosed(env: Env, req: seq<Part>, opt: seq<Part>)
    requires PartsClosed(env, req) && PartsClosed(env, opt)
    ensures Closed(env, BodySpec(req, opt))
  {
    hide ReqTail, OptTail, Pair, CommaPair;
    if req == [] && opt == [] {
    } else if req == [] {
      forall i | 0 <= i < |opt|
        ensures Closed(env, Alternatives(opt)[i])
      {
        PairClosed(env, opt[i]);
        TailsClosed(env, opt[i + 1..]);
      }
      assert Closed(env, Opt(Alt(Alternatives(opt))));
    } else {
      PairClosed(env, req[0]);
      TailsClosed(env, req[1..]);
      TailsClosed(env, opt);
    }
  }

  lemma {:induction false} SelectSnoc(props: seq<Prop>, k: nat, required: seq<string>, wanted: bool)
    requires k < |props|
    ensures Select(props[..k + 1], required, wanted) ==
            Select(props[..k], required, wanted) + if (props[k].key in required) == wanted then [props[k]] else []
  {
    assert props[..k + 1][..k] == props[..k];
  }

  lemma {:induction false} AnyWidensSnoc(fields: seq<Field>, k: nat)
    requires k < |fields|
    ensures AnyWidens(fields[..k + 1]) == (AnyWidens(fields[..k]) || Widens(fields[k].value))
    decreases k
  {
    hide Widens;
    if k == 0 {
      assert fields[..1][1..] == [] && fields[..1][0] == fields[0];
    } else {
      AnyWidensSnoc(fields[1..], k - 1);
      assert fields[..k + 1][1..] == fields[1..][..k] && fields[..k][1..] == fields[1..][..k - 1];
    }
  }

  class SubCompiler {
    const out: Output
    const index: nat
    var counter: nat

    ghost predicate Valid()
      reads this, out
    {
      GoodRules(out.rules) && Below(out.rules, index, counter)
    }

    constructor (out: Output, index: nat)
      requires GoodRules(out.rules) && Below(out.rules, index, 0)
      ensures Valid() && this.out == out && this.index == index && counter == 0
    {
      this.out := out;
      this.index := index;
      this.counter := 0;
    }

    method FreshName(kind: Kind) returns (name: Name)
      requires Valid()
      modifies this
      ensures counter == old(counter) + 1 && name == Fresh(index, kind, counter)
      ensures name !in EnvOf(out.rules) && Valid()
    {
      counter := counter + 1;
      name := Fresh(index, kind, counter);
    }

    /** Adds a rule under a new name and returns the reference to it. */
    method Define(kind: Kind, body: Expr, ghost L: Language) returns (e: Expr)
      requires Valid() && Closed(EnvOf(out.rules), body) && Means(EnvOf(out.rules), body, L)
      modifies this, out`rules
      ensures Valid() && old(out.rules) <= out.rules && counter >= old(counter)
      ensures Closed(EnvOf(out.rules), e) && Means(EnvOf(out.rules), e, L)
    {
      hide Means, Closed, GoodRules, EnvOf;
      var rule := FreshName(kind);
      PushMeans(out.rules, Rule(rule, body), L);
      Push(out.rules, Rule(rule, body));
      out.rules := out.rules + [Rule(rule, body)];
      e := Ref(rule);
    }

    method Value(schema: Json) returns (e: Expr)
      requires Valid()
      modifies this, out
      ensures Valid() && old(out.rules) <= out.rules && counter >= old(counter)
      ensures Closed(EnvOf(out.rules), e) && Means(EnvOf(out.rules), e, Lang(ANYTHING, schema))
      ensures out.widened == (old(out.widened) || Widens(schema))
      decreases schema, 1
    {
      hide Means, GoodRules, EnvOf, Lang, Widens, Listing, Choices, TypeName, Below;
      ghost var env := EnvOf(out.rules);
      GoodIsClosed(out.rules);
      JsonMeans(env);
      WideLang(schema);
      ScalarsClosed(env);
      if !schema.Obj? {
        out.widened := true;
        return Ref(JsonRule);
      }
      var fields := schema.fields;
      TypedLang(fields);
      var choices := Choices(fields);
      if choices != [] {
        EnumMeans(env, choices);
        return Alt(Literals(choices));
      }
      var name := TypeName(fields);
      if name == "string" {
        StringMeans(env);
        return Ref(StringRule);
      } else if name == "integer" {
        IntegerMeans(env);
        return Ref(IntegerRule);
      } else if name == "number" {
        NumberMeans(env);
        return Ref(NumberRule);
      } else if name == "boolean" {
        BooleanMeans(env);
        return Ref(BooleanRule);
      } else if name == "null" {
        NullMeans(env);
        return Text([NullTok]);
      } else if name == "array" {
        e := this.ArrayRuleFor(fields);
      } else if name == "object" {
        e := this.Object(fields);
      } else {
        out.widened := true;
        return Ref(JsonRule);
      }
    }

    method ArrayRuleFor(fields: seq<Field>) returns (e: Expr)
      requires Valid()
      modifies this, out
      ensures Valid() && old(out.rules) <= out.rules && counter >= old(counter)
      ensures Closed(EnvOf(out.rules), e) && Means(EnvOf(out.rules), e, ArrayLang(fields))
      ensures out.widened == (old(out.widened) || ArrayWidens(fields))
      decreases fields, 3
    {
      hide Means, Closed, GoodRules, EnvOf, Lang, Widens, Listing, Below;
      var item;
      var i := Find(fields, "items");
      ghost var L := if i >= 0 then Lang(ANYTHING, fields[i].value) else ANY_JSON;
      if i >= 0 {
        item := Value(fields[i].value);
      } else {
        GoodIsClosed(out.rules);
        JsonMeans(EnvOf(out.rules));
        ScalarsClosed(EnvOf(out.rules));
        out.widened := true;
        item := Ref(JsonRule);
      }
      ArrayMeans(EnvOf(out.rules), item, L);
      ListingClosed(EnvOf(out.rules), LBracket, [item], RBracket);
      e := Define(ArrayKind, Listing(LBracket, [item], RBracket), ArrayOf(L));
    }

    method Object(fields: seq<Field>) returns (e: Expr)
      requires Valid()
      modifies this, out
      ensures Valid() && old(out.rules) <= out.rules && counter >= old(counter)
      ensures Closed(EnvOf(out.rules), e) && Means(EnvOf(out.rules), e, ObjectLang(fields))
      ensures out.widened == (old(out.widened) || ObjectWidens(fields))
      decreases fields, 3
    {
      hide Means, Closed, GoodRules, EnvOf, Lang, Widens, AnyWidens, Below, Select, ObjectOf;
      var at := Find(fields, "properties");
      if at < 0 || !fields[at].value.Obj? {
        GoodIsClosed(out.rules);
        JsonMeans(EnvOf(out.rules));
        ScalarsClosed(EnvOf(out.rules));
        out.widened := true;
        return Ref(ObjectRule);
      }
      var properties := fields[at].value.fields;
      var required := Required(fields);
      var requiredParts, optionalParts := this.Properties(properties, required);
      ghost var props := PropLangs(ANYTHING, properties);
      ghost var rp, op := Select(props, required, true), Select(props, required, false);
      ObjectBodyMeans(EnvOf(out.rules), requiredParts, rp, optionalParts, op);
      BodyClosed(EnvOf(out.rules), requiredParts, optionalParts);
      var body := ObjectBody(requiredParts, optionalParts);
      e := Define(ObjectKind, body, ObjectOf(rp, op));
    }

    /** One part per declared property, compiled in map order and split by whether it is required. */
    method Properties(properties: seq<Field>, required: seq<string>)
      returns (requiredParts: seq<Part>, optionalParts: seq<Part>)
      requires Valid()
      modifies this, out
      ensures Valid() && old(out.rules) <= out.rules && counter >= old(counter)
      ensures var props := PropLangs(ANYTHING, properties);
              && PartsMean(EnvOf(out.rules), requiredParts, Select(props, required, true))
              && PartsMean(EnvOf(out.rules), optionalParts, Select(props, required, false))
      ensures PartsClosed(EnvOf(out.rules), requiredParts) && PartsClosed(EnvOf(out.rules), optionalParts)
      ensures out.widened == (old(out.widened) || AnyWidens(properties))
      decreases properties, 0
    {
      hide Means, Closed, GoodRules, EnvOf, Lang, Widens, AnyWidens, Below, Select;
      requiredParts, optionalParts := [], [];
      ghost var props := PropLangs(ANYTHING, properties);
      NothingSelected(required);
      assert props[..0] == [] && properties[..0] == [];
      for k := 0 to |properties|
        invariant Valid() && old(out.rules) <= out.rules && counter >= old(counter)
        invariant PartsMean(EnvOf(out.rules), requiredParts, Select(props[..k], required, true))
        invariant PartsMean(EnvOf(out.rules), optionalParts, Select(props[..k], required, false))
        invariant PartsClosed(EnvOf(out.rules), requiredParts) && PartsClosed(EnvOf(out.rules), optionalParts)
        invariant out.widened == (old(out.widened) || AnyWidens(properties[..k]))
      {
        ghost var before := out.rules;
        var value := Value(properties[k].value);
        GoodIsClosed(before);
        PrefixExtends(before, out.rules);
        PartsGrow(EnvOf(before), EnvOf(out.rules), requiredParts, Select(props[..k], required, true));
        PartsGrow(EnvOf(before), EnvOf(out.rules), optionalParts, Select(props[..k], required, false));
        SelectSnoc(props, k, required, true);
        SelectSnoc(props, k, required, false);
        AnyWidensSnoc(properties, k);
        var part := Part(properties[k].key, value);
        if properties[k].key in required {
          requiredParts := requiredParts + [part];
        } else {
          optionalParts := optionalParts + [part];
        }
      }
      assert props[..|properties|] == props && properties[..|properties|] == properties;
    }
  }

  lemma {:induction false} NothingSelected(required: seq<string>)
    ensures Select([], required, true) == [] && Select([], required, false) == [] && !AnyWidens([])
  {
  }

  lemma {:induction false} ScalarsClosed(env: Env)
    requires Extends(PRELUDE, env)
    ensures forall n | n in [StringRule, IntegerRule, NumberRule, BooleanRule, ObjectRule, ArrayRule, JsonRule] ::
              Closed(env, Ref(n))
  {
  }

  ghost function ArrayLang(fields: seq<Field>): Language
  {
    var i := Find(fields, "items");
    ArrayOf(if i >= 0 then Lang(ANYTHING, fields[i].value) else ANY_JSON)
  }

  predicate ArrayWidens(fields: seq<Field>)
  {
    var i := Find(fields, "items");
    i < 0 || Widens(fields[i].value)
  }

  ghost function ObjectLang(fields: seq<Field>): Language
  {
    var i := Find(fields, "properties");
    if i >= 0 && fields[i].value.Obj? then
      var props := PropLangs(ANYTHING, fields[i].value.fields);
      ObjectOf(Select(props, Required(fields), true), Select(props, Required(fields), false))
    else ANY_OBJECT
  }

  predicate ObjectWidens(fields: seq<Field>)
  {
    var i := Find(fields, "properties");
    i < 0 || !fields[i].value.Obj? || AnyWidens(fields[i].value.fields)
  }

  lemma {:induction false} WideLang(schema: Json)
    ensures !schema.Obj? ==> Lang(ANYTHING, schema) == ANY_JSON && Widens(schema)
  {
    if !schema.Obj? {
      assert Lang(ANYTHING, schema) == ANY_JSON;
    }
  }

  /** What the schema admits after widening, by its enum and type. */
  lemma {:induction false} TypedLang(fields: seq<Field>)
    ensures var L, w, name := Lang(ANYTHING, Obj(fields)), Widens(Obj(fields)), TypeName(fields);
            if Choices(fields) != [] then !w && L == iset t: Json | t in Choices(fields)
            else if name == "string" then !w && L == STRINGS
            else if name == "integer" then !w && L == INTEGERS
            else if name == "number" then !w && L == NUMBERS
            else if name == "boolean" then !w && L == BOOLEANS
            else if name == "null" then !w && L == iset{Null}
            else if name == "array" then w == ArrayWidens(fields) && L == ArrayLang(fields)
            else if name == "object" then w == ObjectWidens(fields) && L == ObjectLang(fields)
            else w && L == ANY_JSON
  {
    hide Choices, TypeName, Find, Select, ObjectOf, Required, WellFormed, ArrayOf;
    var L := Lang(ANYTHING, Obj(fields));
    if Choices(fields) == [] {
      var name := TypeName(fields);
      if name == "array" {
        assert L == ArrayLang(fields);
      } else if name == "object" {
        assert L == ObjectLang(fields);
      } else if name !in ["string", "integer", "number", "boolean", "null"] {
        assert L == ANY_JSON;
      }
    }
  }

  // ----- compile -----

  datatype Tool = Tool(name: string, schema: Json)
  datatype Compiled = Compiled(root: Expr, rules: seq<Rule>, names: seq<string>, widened: bool)
  datatype CompileError = NoTools | NotAnIdentifier(name: string)

  predicate PlainCharacter(c: char)
  {
    'a' <= c <= 'z' || 'A' <= c <= 'Z' || '0' <= c <= '9' || c == '_' || c == '-'
  }

  predicate PlainName(name: string)
  {
    forall i :: 0 <= i < |name| ==> PlainCharacter(name[i])
  }

  lemma {:induction false} PlainCharacterExact(c: char)
    ensures PlainCharacter(c) <==> c in SMALL || c in CAPITAL || c in "0123456789" || c in "_-"
  {
    LetterExact(c);
  }

  /** A name is plain if and only if it is made of letters, digits, `_` and `-`, none of which JSON has to escape. */
  lemma {:induction false} PlainNameExact(name: string)
    ensures PlainName(name) <==>
            forall c :: c in name ==> c in SMALL || c in CAPITAL || c in "0123456789" || c in "_-"
    ensures PlainName(name) ==> JsonInside(name)
  {
    hide PlainCharacter;
    forall c
      ensures PlainCharacter(c) <==> c in SMALL || c in CAPITAL || c in "0123456789" || c in "_-"
    {
      PlainCharacterExact(c);
    }
    if PlainName(name) {
      PlainInside(name);
    }
  }

  lemma {:induction false} PlainInside(name: string)
    requires PlainName(name)
    ensures JsonInside(name)
  {
    if name != "" {
      PlainInside(name[1..]);
    }
  }

  /** The first tool whose name is not plain. */
  predicate FirstBad(tools: seq<Tool>, i: int)
  {
    0 <= i < |tools| && !PlainName(tools[i].name) && forall j :: 0 <= j < i ==> PlainName(tools[j].name)
  }

  /** The call object: the tool's own name, and arguments that its schema admits. */
  ghost function CallsOf(ext: Meaning, tool: Tool): Language
  {
    iset t: Json | t.Obj? && |t.fields| == 2
      && t.fields[0] == Field("name", Str(tool.name))
      && t.fields[1].key == "arguments" && t.fields[1].value in Lang(ext, tool.schema)
  }

  ghost function AllCalls(ext: Meaning, tools: seq<Tool>): Language
  {
    iset t: Json | IsCall(ext, tools, t)
  }

  ghost predicate IsCall(ext: Meaning, tools: seq<Tool>, t: Json)
  {
    exists i :: 0 <= i < |tools| && t in CallsOf(ext, tools[i])
  }

  function CallBody(name: string, index: nat): Expr
  {
    Seq([Text([LBrace]), Text([StrTok("name")]), Text([Colon]), Text([StrTok(name)]), Text([Comma]),
         Text([StrTok("arguments")]), Text([Colon]), Ref(Args(index)), Text([RBrace])])
  }

  lemma {:induction false} NameMeans(env: Env, name: string)
    ensures Means(env, Text([StrTok(name)]), iset{Str(name)})
  {
    forall d, s | Derives(env, Text([StrTok(name)]), s, d)
      ensures Spells(iset{Str(name)}, s)
    {
      assert Str(name) in iset{Str(name)} && Print(Str(name)) == s;
    }
    InText(env, [StrTok(name)]);
    assert Print(Str(name)) == [StrTok(name)];
  }

  lemma {:induction false} CallMeans(env: Env, tool: Tool, index: nat)
    requires Means(env, Ref(Args(index)), Lang(ANYTHING, tool.schema))
    ensures Means(env, CallBody(tool.name, index), CallsOf(ANYTHING, tool))
  {
    hide Means, Lang;
    var L := Lang(ANYTHING, tool.schema);
    var req := [Part("name", Text([StrTok(tool.name)])), Part("arguments", Ref(Args(index)))];
    var rp := [Prop("name", iset{Str(tool.name)}), Prop("arguments", L)];
    NameMeans(env, tool.name);
    ObjectBodyMeans(env, req, rp, [], []);
    CallShape(req);
    TwoFields(rp);
    assert ObjectOf(rp, []) == CallsOf(ANYTHING, tool);
  }

  lemma {:induction false} CallShape(req: seq<Part>)
    requires |req| == 2
    ensures BodySpec(req, []) ==
            Seq([Text([LBrace]), Text([StrTok(req[0].key)]), Text([Colon]), req[0].value, Text([Comma]),
                 Text([StrTok(req[1].key)]), Text([Colon]), req[1].value, Text([RBrace])])
  {
    assert req[1..] == [req[1]] && [req[1]][1..] == [];
    assert ReqTail(req[1..]) == CommaPair(req[1]) + [];
  }

  lemma {:induction false} TwoFields(rp: seq<Prop>)
    requires |rp| == 2
    ensures forall fs: seq<Field> :: Layout(rp, [], fs) <==> |fs| == 2 && Matches(rp[0], fs[0]) && Matches(rp[1], fs[1])
  {
    forall fs: seq<Field>
      ensures Layout(rp, [], fs) <==> |fs| == 2 && Matches(rp[0], fs[0]) && Matches(rp[1], fs[1])
    {
      assert rp[1..] == [rp[1]];
      if fs != [] {
        OneField(rp[1], fs[1..]);
      }
    }
  }

  lemma {:induction false} OneField(p: Prop, fs: seq<Field>)
    ensures Layout([p], [], fs) <==> |fs| == 1 && Matches(p, fs[0])
  {
    assert [p][1..] == [];
    if fs != [] {
      assert Layout([], [], fs[1..]) == (fs[1..] == []);
    }
  }

  /** The alternatives of the root: one call rule per tool, in order. */
  function Calls(n: nat): (r: seq<Expr>)
    ensures |r| == n && forall i :: 0 <= i < n ==> r[i] == Ref(Call(i))
  {
    seq(n, i requires 0 <= i < n => Ref(Call(i)))
  }

  lemma {:induction false} RootMeans(env: Env, tools: seq<Tool>)
    requires forall i :: 0 <= i < |tools| ==> Means(env, Ref(Call(i)), CallsOf(ANYTHING, tools[i]))
    ensures Means(env, Alt(Calls(|tools|)), AllCalls(ANYTHING, tools))
  {
    hide CallsOf, Print;
    var e := Alt(Calls(|tools|));
    forall d, s | Derives(env, e, s, d)
      ensures Spells(AllCalls(ANYTHING, tools), s)
    {
      var i :| 0 <= i < |e.choices| && Derives(env, e.choices[i], s, d);
      assert SoundAt(env, Ref(Call(i)), CallsOf(ANYTHING, tools[i]), d);
      var t :| t in CallsOf(ANYTHING, tools[i]) && Print(t) == s;
      assert t in AllCalls(ANYTHING, tools);
    }
    forall t | t in AllCalls(ANYTHING, tools)
      ensures In(env, e, Print(t))
    {
      var i :| 0 <= i < |tools| && t in CallsOf(ANYTHING, tools[i]);
      assert Complete(env, Ref(Call(i)), CallsOf(ANYTHING, tools[i]));
      InAlt(env, e.choices, i, Print(t));
    }
  }

  method CompileTool(out: Output, tool: Tool, index: nat)
    requires GoodRules(out.rules) && Below(out.rules, index, 0)
    modifies out
    ensures GoodRules(out.rules) && Below(out.rules, index + 1, 0) && old(out.rules) <= out.rules
    ensures out.widened == (old(out.widened) || Widens(tool.schema))
    ensures Closed(EnvOf(out.rules), Ref(Call(index))) &&
            Means(EnvOf(out.rules), Ref(Call(index)), CallsOf(ANYTHING, tool))
  {
    hide Means, GoodRules, EnvOf, Lang, Widens, CallsOf;
    var sub := new SubCompiler(out, index);
    var args := sub.Value(tool.schema);
    PushMeans(out.rules, Rule(Args(index), args), Lang(ANYTHING, tool.schema));
    Push(out.rules, Rule(Args(index), args));
    out.rules := out.rules + [Rule(Args(index), args)];
    var body := CallBody(tool.name, index);
    CallMeans(EnvOf(out.rules), tool, index);
    PushMeans(out.rules, Rule(Call(index), body), CallsOf(ANYTHING, tool));
    Push(out.rules, Rule(Call(index), body));
    out.rules := out.rules + [Rule(Call(index), body)];
  }

  /** The compiled grammar accepts exactly one call to exactly one of the tools. */
  method Compile(tools: seq<Tool>) returns (r: Result<Compiled, CompileError>)
    ensures r.Ok? <==> tools != [] && forall i :: 0 <= i < |tools| ==> PlainName(tools[i].name)
    ensures tools == [] ==> r == Err(NoTools)
    ensures r.Err? && tools != [] ==> exists i :: FirstBad(tools, i) && r.error == NotAnIdentifier(tools[i].name)
    ensures r.Ok? ==> |r.value.names| == |tools| && forall i :: 0 <= i < |tools| ==> r.value.names[i] == tools[i].name
    ensures r.Ok? ==> r.value.widened == exists i :: 0 <= i < |tools| && Widens(tools[i].schema)
    ensures r.Ok? ==> GoodRules(r.value.rules) && Closed(EnvOf(r.value.rules), r.value.root)
    ensures r.Ok? ==> Means(EnvOf(r.value.rules), r.value.root, AllCalls(ANYTHING, tools))
  {
    hide Means, GoodRules, EnvOf, Lang, Widens, CallsOf, PlainName;
    if tools == [] {
      return Err(NoTools);
    }
    var out := new Output();
    var alternatives: seq<Expr> := [];
    var names: seq<string> := [];
    NoRules();
    for index := 0 to |tools|
      invariant fresh(out)
      invariant GoodRules(out.rules) && Below(out.rules, index, 0)
      invariant |names| == index && forall i :: 0 <= i < index ==> names[i] == tools[i].name && PlainName(tools[i].name)
      invariant alternatives == Calls(index)
      invariant out.widened == exists i :: 0 <= i < index && Widens(tools[i].schema)
      invariant forall i :: 0 <= i < index ==>
        Closed(EnvOf(out.rules), Ref(Call(i))) && Means(EnvOf(out.rules), Ref(Call(i)), CallsOf(ANYTHING, tools[i]))
    {
      if !PlainName(tools[index].name) {
        assert FirstBad(tools, index);
        return Err(NotAnIdentifier(tools[index].name));
      }
      ghost var before := out.rules;
      CompileTool(out, tools[index], index);
      GoodIsClosed(before);
      PrefixExtends(before, out.rules);
      forall i | 0 <= i < index
        ensures Closed(EnvOf(out.rules), Ref(Call(i))) &&
                Means(EnvOf(out.rules), Ref(Call(i)), CallsOf(ANYTHING, tools[i]))
      {
        ClosedGrows(EnvOf(before), EnvOf(out.rules), Ref(Call(i)));
        MeansGrows(EnvOf(before), EnvOf(out.rules), Ref(Call(i)), CallsOf(ANYTHING, tools[i]));
      }
      alternatives := alternatives + [Ref(Call(index))];
      names := names + [tools[index].name];
    }
    RootMeans(EnvOf(out.rules), tools);
    r := Ok(Compiled(Alt(alternatives), out.rules, names, out.widened));
  }

  lemma {:induction false} NoRules()
    ensures GoodRules([]) && Below([], 0, 0)
  {
  }

  // ----- what follows for a compiled grammar -----

  lemma {:induction false} CallsMono(ext: Meaning, tools: seq<Tool>)
    ensures AllCalls(ext, tools) <= AllCalls(ANYTHING, tools)
    ensures (forall i :: 0 <= i < |tools| ==> !Widens(tools[i].schema)) ==>
            AllCalls(ext, tools) == AllCalls(ANYTHING, tools)
  {
    hide Lang, Widens;
    forall t, i | 0 <= i < |tools| && t in CallsOf(ext, tools[i])
      ensures t in CallsOf(ANYTHING, tools[i])
    {
      WideningKeeps(ext, tools[i].schema);
    }
    if forall i :: 0 <= i < |tools| ==> !Widens(tools[i].schema) {
      forall t, i | 0 <= i < |tools| && t in CallsOf(ANYTHING, tools[i])
        ensures t in CallsOf(ext, tools[i])
      {
        UnwidenedIsExact(ext, tools[i].schema);
      }
    }
  }

  /** Every conforming call is derivable; if nothing was widened, nothing else is. */
  lemma {:induction false} CompiledGrammar(ext: Meaning, tools: seq<Tool>, c: Compiled, s: Tokens)
    requires Means(EnvOf(c.rules), c.root, AllCalls(ANYTHING, tools))
    requires c.widened == exists i :: 0 <= i < |tools| && Widens(tools[i].schema)
    ensures Spells(AllCalls(ext, tools), s) ==> In(EnvOf(c.rules), c.root, s)
    ensures !c.widened ==> (In(EnvOf(c.rules), c.root, s) <==> Spells(AllCalls(ext, tools), s))
  {
    hide Means, AllCalls, EnvOf, Widens;
    MeansIsExact(EnvOf(c.rules), c.root, AllCalls(ANYTHING, tools));
    CallsMono(ext, tools);
  }

  /** Of trees: every conforming call is derivable; if nothing was widened, a tree is derivable if and only if it is a
      conforming call. */
  lemma {:induction false} CompiledTrees(ext: Meaning, tools: seq<Tool>, c: Compiled, t: Json)
    requires Means(EnvOf(c.rules), c.root, AllCalls(ANYTHING, tools))
    requires c.widened == exists i :: 0 <= i < |tools| && Widens(tools[i].schema)
    ensures t in AllCalls(ext, tools) ==> In(EnvOf(c.rules), c.root, Print(t))
    ensures !c.widened ==> (In(EnvOf(c.rules), c.root, Print(t)) <==> t in AllCalls(ext, tools))
  {
    hide Means, AllCalls, EnvOf, Widens, Print, In;
    CompiledGrammar(ext, tools, c, Print(t));
    if Spells(AllCalls(ext, tools), Print(t)) {
      var u :| u in AllCalls(ext, tools) && Print(u) == Print(t);
      PrintInjective(u, t);
    }
  }

  /** Rule names are pairwise distinct and distinct from the shared ones: every reference has one definition. */
  lemma {:induction false} DefinedOnce(rules: seq<Rule>, i: nat, j: nat)
    requires GoodRules(rules) && i < j < |rules|
    ensures rules[i].name != rules[j].name && rules[i].name !in PRELUDE && rules[j].name !in PRELUDE
  {
    hide Closed;
    PrefixExtends(rules[..i + 1], rules);
    PrefixExtends(rules[..j + 1], rules);
    assert rules[..j + 1][..j] == rules[..j] && rules[..i + 1][..i] == rules[..i];
    PrefixExtends(rules[..i + 1], rules[..j]);
    GoodIsClosed(rules[..i]);
    GoodIsClosed(rules[..j]);
  }
}
