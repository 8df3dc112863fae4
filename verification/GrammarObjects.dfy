/** Object rules: required properties in order, then any subset of the optional ones in order. */
module GrammarObjects {
  import opened Json
  import opened GrammarMeaning

  // ----- which field lists an object rule should admit -----

  datatype Prop = Prop(key: string, lang: Language)

  ghost predicate Matches(p: Prop, f: Field)
  {
    f.key == p.key && f.value in p.lang
  }

  /** `fs` is a subsequence of the optional properties, each with a value it admits. */
  ghost predicate Subsequence(opt: seq<Prop>, fs: seq<Field>)
  {
    if opt == [] then fs == []
    else Subsequence(opt[1..], fs) || (fs != [] && Matches(opt[0], fs[0]) && Subsequence(opt[1..], fs[1..]))
  }

  ghost predicate Layout(req: seq<Prop>, opt: seq<Prop>, fs: seq<Field>)
  {
    if req == [] then Subsequence(opt, fs)
    else fs != [] && Matches(req[0], fs[0]) && Layout(req[1..], opt, fs[1..])
  }

  ghost function ObjectOf(req: seq<Prop>, opt: seq<Prop>): Language
  {
    iset t: Json | t.Obj? && Layout(req, opt, t.fields)
  }

  // ----- the body that object_body writes -----

  datatype Part = Part(key: string, value: Expr)

  function Pair(p: Part): seq<Expr>
  {
    [Text([StrTok(p.key)]), Text([Colon]), p.value]
  }

  function CommaPair(p: Part): seq<Expr>
  {
    [Text([Comma])] + Pair(p)
  }

  function ReqTail(parts: seq<Part>): seq<Expr>
  {
    if parts == [] then [] else CommaPair(parts[0]) + ReqTail(parts[1..])
  }

  function OptTail(parts: seq<Part>): seq<Expr>
  {
    if parts == [] then [] else [Opt(Seq(CommaPair(parts[0])))] + OptTail(parts[1..])
  }

  /** One alternative per optional property that may come first. */
  function Alternatives(opt: seq<Part>): (r: seq<Expr>)
    ensures |r| == |opt|
    ensures forall i :: 0 <= i < |opt| ==> r[i] == Seq(Pair(opt[i]) + OptTail(opt[i + 1..]))
  {
    seq(|opt|, i requires 0 <= i < |opt| => Seq(Pair(opt[i]) + OptTail(opt[i + 1..])))
  }

  function BodySpec(req: seq<Part>, opt: seq<Part>): Expr
  {
    if req == [] && opt == [] then Seq([Text([LBrace]), Text([RBrace])])
    else if req == [] then Seq([Text([LBrace]), Opt(Alt(Alternatives(opt))), Text([RBrace])])
    else Seq([Text([LBrace])] + (Pair(req[0]) + (ReqTail(req[1..]) + OptTail(opt))) + [Text([RBrace])])
  }

  // ----- soundness -----

  ghost predicate PartsSound(env: Env, parts: seq<Part>, props: seq<Prop>, d: nat)
  {
    && |parts| == |props|
    && forall i :: 0 <= i < |parts| ==> parts[i].key == props[i].key && SoundAt(env, parts[i].value, props[i].lang, d)
  }

  lemma {:induction false} PairSound(env: Env, p: Part, prop: Prop, s: Tokens, d: nat) returns (f: Field)
    requires p.key == prop.key && SoundAt(env, p.value, prop.lang, d) && DerivesAll(env, Pair(p), s, d)
    ensures Matches(prop, f) && s == [StrTok(f.key), Colon] + Print(f.value)
  {
    hide Derives, DerivesAll, Print;
    var k, c := [Text([StrTok(p.key)])], [Text([Colon])];
    assert Pair(p) == k + (c + [p.value]);
    var i := SplitAll(env, k, c + [p.value], s, d);
    TextIs(env, [StrTok(p.key)], s[..i], d);
    var j := SplitAll(env, c, [p.value], s[i..], d);
    TextIs(env, [Colon], s[i..][..j], d);
    OneOf(env, p.value, s[i..][j..], d);
    var v :| v in prop.lang && Print(v) == s[i..][j..];
    f := Field(p.key, v);
    assert s == s[..i] + (s[i..][..j] + s[i..][j..]);
  }

  lemma {:induction false} CommaPairSound(env: Env, p: Part, prop: Prop, s: Tokens, d: nat) returns (f: Field)
    requires p.key == prop.key && SoundAt(env, p.value, prop.lang, d) && DerivesAll(env, CommaPair(p), s, d)
    ensures Matches(prop, f) && s == [Comma] + ([StrTok(f.key), Colon] + Print(f.value))
  {
    hide Derives, DerivesAll, Print, Pair;
    var i := SplitAll(env, [Text([Comma])], Pair(p), s, d);
    TextIs(env, [Comma], s[..i], d);
    f := PairSound(env, p, prop, s[i..], d);
    assert s == s[..i] + s[i..];
  }

  /** The tokens of a field list, each field after a comma. */
  function Tail(fs: seq<Field>): Tokens
  {
    CommaTail(PrintFields(fs))
  }

  lemma {:induction false} TailCons(f: Field, fs: seq<Field>)
    ensures Tail([f] + fs) == [Comma] + ([StrTok(f.key), Colon] + Print(f.value)) + Tail(fs)
  {
    var all := [f] + fs;
    assert all[0] == f && all[1..] == fs;
    var ps := PrintFields(all);
    assert ps[0] == [StrTok(f.key), Colon] + Print(f.value) && ps[1..] == PrintFields(fs);
  }

  lemma {:induction false} OptTailSound(env: Env, parts: seq<Part>, props: seq<Prop>, s: Tokens, d: nat)
    returns (fs: seq<Field>)
    requires PartsSound(env, parts, props, d) && DerivesAll(env, OptTail(parts), s, d)
    ensures Subsequence(props, fs) && s == Tail(fs)
    decreases |parts|
  {
    hide Derives, DerivesAll, SoundAt, CommaPair, OptTail, Tail, Print, Matches, Subsequence;
    if parts == [] {
      fs := [];
      NoOptional(env, s, d);
    } else {
      var i := FirstOptional(env, parts, s, d);
      var rest := OptTailSound(env, parts[1..], props[1..], s[i..], d);
      assert s == s[..i] + s[i..];
      if s[..i] == [] {
        fs := rest;
        SubsequenceSkip(props, rest);
      } else {
        var f := CommaPairSound(env, parts[0], props[0], s[..i], d);
        fs := [f] + rest;
        SubsequenceCons(props, f, rest);
        TailCons(f, rest);
      }
    }
  }

  lemma {:induction false} FirstOptional(env: Env, parts: seq<Part>, s: Tokens, d: nat) returns (i: nat)
    requires parts != [] && DerivesAll(env, OptTail(parts), s, d)
    ensures i <= |s| && DerivesAll(env, OptTail(parts[1..]), s[i..], d)
    ensures s[..i] == [] || DerivesAll(env, CommaPair(parts[0]), s[..i], d)
  {
    hide Derives, DerivesAll, CommaPair;
    var head := [Opt(Seq(CommaPair(parts[0])))];
    i := SplitAll(env, head, OptTail(parts[1..]), s, d);
    OneOf(env, head[0], s[..i], d);
    if s[..i] != [] {
      OptParts(env, CommaPair(parts[0]), s[..i], d);
    }
  }

  lemma {:induction false} SubsequenceCons(props: seq<Prop>, f: Field, rest: seq<Field>)
    requires props != [] && Matches(props[0], f) && Subsequence(props[1..], rest)
    ensures Subsequence(props, [f] + rest)
  {
    hide Matches;
    var fs := [f] + rest;
    assert fs[0] == f && fs[1..] == rest;
  }

  lemma {:induction false} SubsequenceSkip(props: seq<Prop>, rest: seq<Field>)
    requires props != [] && Subsequence(props[1..], rest)
    ensures Subsequence(props, rest)
  {
  }

  lemma {:induction false} EmptyTail()
    ensures Tail([]) == []
  {
  }

  lemma {:induction false} NoOptional(env: Env, s: Tokens, d: nat)
    requires DerivesAll(env, OptTail([]), s, d)
    ensures s == Tail([]) && Subsequence([], [])
  {
  }

  lemma {:induction false} TailSound(env: Env, req: seq<Part>, rp: seq<Prop>, opt: seq<Part>, op: seq<Prop>, s: Tokens,
                                     d: nat)
    returns (fs: seq<Field>)
    requires PartsSound(env, req, rp, d) && PartsSound(env, opt, op, d)
    requires DerivesAll(env, ReqTail(req) + OptTail(opt), s, d)
    ensures Layout(rp, op, fs) && s == Tail(fs)
    decreases |req|
  {
    hide Derives, DerivesAll, SoundAt, CommaPair, OptTail, Print, PrintFields, CommaTail;
    if req == [] {
      assert ReqTail(req) + OptTail(opt) == OptTail(opt);
      fs := OptTailSound(env, opt, op, s, d);
    } else {
      var rest := ReqTail(req[1..]) + OptTail(opt);
      assert ReqTail(req) + OptTail(opt) == CommaPair(req[0]) + rest;
      var i := SplitAll(env, CommaPair(req[0]), rest, s, d);
      var f := CommaPairSound(env, req[0], rp[0], s[..i], d);
      var more := TailSound(env, req[1..], rp[1..], opt, op, s[i..], d);
      fs := [f] + more;
      assert fs[0] == f && fs[1..] == more;
      assert s == s[..i] + s[i..];
      TailCons(f, more);
    }
  }

  lemma {:induction false} PrintObject(f: Field, fs: seq<Field>)
    ensures Print(Obj([f] + fs)) == [LBrace] + (([StrTok(f.key), Colon] + Print(f.value)) + Tail(fs)) + [RBrace]
  {
    var all := [f] + fs;
    assert all[0] == f && all[1..] == fs;
    var ps := PrintFields(all);
    assert ps[0] == [StrTok(f.key), Colon] + Print(f.value) && ps[1..] == PrintFields(fs);
  }

  /** A nonempty object: one field, then a tail. */
  lemma {:induction false} HeadedSound(env: Env, p: Part, prop: Prop, req: seq<Part>, rp: seq<Prop>, opt: seq<Part>,
                                       op: seq<Prop>, s: Tokens, d: nat)
    returns (f: Field, fs: seq<Field>)
    requires p.key == prop.key && SoundAt(env, p.value, prop.lang, d)
    requires PartsSound(env, req, rp, d) && PartsSound(env, opt, op, d)
    requires DerivesAll(env, Pair(p) + (ReqTail(req) + OptTail(opt)), s, d)
    ensures Matches(prop, f) && Layout(rp, op, fs)
    ensures s == ([StrTok(f.key), Colon] + Print(f.value)) + Tail(fs)
  {
    hide Derives, DerivesAll, SoundAt, Pair, ReqTail, OptTail, Print, Layout, Tail;
    var i := SplitAll(env, Pair(p), ReqTail(req) + OptTail(opt), s, d);
    f := PairSound(env, p, prop, s[..i], d);
    fs := TailSound(env, req, rp, opt, op, s[i..], d);
    assert s == s[..i] + s[i..];
  }

  lemma {:induction false} SubsequenceFrom(op: seq<Prop>, k: nat, f: Field, fs: seq<Field>)
    requires k < |op| && Matches(op[k], f) && Subsequence(op[k + 1..], fs)
    ensures Subsequence(op, [f] + fs)
    decreases k
  {
    var all := [f] + fs;
    assert all[0] == f && all[1..] == fs;
    if k > 0 {
      assert op[1..][k - 1] == op[k] && op[1..][k..] == op[k + 1..];
      SubsequenceFrom(op[1..], k - 1, f, fs);
    }
  }

  lemma {:induction false} PartsSoundFrom(env: Env, parts: seq<Part>, props: seq<Prop>, k: nat, d: nat)
    requires PartsSound(env, parts, props, d) && k <= |parts|
    ensures PartsSound(env, parts[k..], props[k..], d)
  {
  }

  lemma {:induction false} BracedParts(env: Env, mid: seq<Expr>, s: Tokens, d: nat) returns (m: Tokens)
    requires Derives(env, Seq([Text([LBrace])] + mid + [Text([RBrace])]), s, d)
    ensures s == [LBrace] + m + [RBrace] && DerivesAll(env, mid, m, d)
  {
    var all := [Text([LBrace])] + mid + [Text([RBrace])];
    assert DerivesAll(env, all, s, d);
    hide Derives, DerivesAll;
    assert all == [Text([LBrace])] + (mid + [Text([RBrace])]);
    var i := SplitAll(env, [Text([LBrace])], mid + [Text([RBrace])], s, d);
    TextIs(env, [LBrace], s[..i], d);
    var j := SplitAll(env, mid, [Text([RBrace])], s[i..], d);
    TextIs(env, [RBrace], s[i..][j..], d);
    m := s[i..][..j];
    assert s == s[..i] + (s[i..][..j] + s[i..][j..]);
  }

  lemma {:induction false} OptAlt(env: Env, choices: seq<Expr>, s: Tokens, d: nat) returns (k: nat)
    requires Derives(env, Opt(Alt(choices)), s, d) && s != []
    ensures k < |choices| && Derives(env, choices[k], s, d)
  {
    k :| 0 <= k < |choices| && Derives(env, choices[k], s, d);
  }

  lemma {:induction false} BodySound(env: Env, req: seq<Part>, rp: seq<Prop>, opt: seq<Part>, op: seq<Prop>, s: Tokens,
                                     d: nat)
    returns (fs: seq<Field>)
    requires PartsSound(env, req, rp, d) && PartsSound(env, opt, op, d)
    requires Derives(env, BodySpec(req, opt), s, d)
    ensures Layout(rp, op, fs) && s == Print(Obj(fs))
  {
    hide DerivesAll, SoundAt, Pair, ReqTail, OptTail, Matches;
    if req == [] && opt == [] {
      assert [Text([LBrace])] + [] + [Text([RBrace])] == [Text([LBrace]), Text([RBrace])];
      var m := BracedParts(env, [], s, d);
      NoParts(env, m, d);
      fs := [];
      assert Print(Obj([])) == s;
    } else if req == [] {
      hide Derives, Print;
      var m := ThreeParts(env, LBrace, Opt(Alt(Alternatives(opt))), RBrace, s, d);
      if m == [] {
        fs := [];
        EmptySubsequence(op);
        EmptyObject();
      } else {
        var k := OptAlt(env, Alternatives(opt), m, d);
        SeqParts(env, Pair(opt[k]) + OptTail(opt[k + 1..]), m, d);
        var later := OptTail(opt[k + 1..]);
        assert Pair(opt[k]) + later == Pair(opt[k]) + (ReqTail([]) + later) by { NoReqTail(later); }
        PartsSoundFrom(env, opt, op, k + 1, d);
        var f, rest := HeadedSound(env, opt[k], op[k], [], [], opt[k + 1..], op[k + 1..], m, d);
        SubsequenceFrom(op, k, f, rest);
        fs := [f] + rest;
        PrintObject(f, rest);
      }
    } else {
      hide Derives, Print;
      var m := BracedParts(env, Pair(req[0]) + (ReqTail(req[1..]) + OptTail(opt)), s, d);
      PartsSoundFrom(env, req, rp, 1, d);
      var f, rest := HeadedSound(env, req[0], rp[0], req[1..], rp[1..], opt, op, m, d);
      fs := [f] + rest;
      assert fs[0] == f && fs[1..] == rest;
      PrintObject(f, rest);
    }
  }

  lemma {:induction false} NoParts(env: Env, s: Tokens, d: nat)
    requires DerivesAll(env, [], s, d)
    ensures s == []
  {
  }

  lemma {:induction false} NoReqTail(x: seq<Expr>)
    ensures ReqTail([]) + x == x
  {
  }

  lemma {:induction false} EmptySubsequence(op: seq<Prop>)
    ensures Subsequence(op, [])
  {
    if op != [] { EmptySubsequence(op[1..]); }
  }

  lemma {:induction false} EmptyObject()
    ensures Print(Obj([])) == [LBrace] + [] + [RBrace]
  {
  }

  // ----- completeness -----

  ghost predicate PartsComplete(env: Env, parts: seq<Part>, props: seq<Prop>)
  {
    && |parts| == |props|
    && forall i :: 0 <= i < |parts| ==> parts[i].key == props[i].key && Complete(env, parts[i].value, props[i].lang)
  }

  lemma {:induction false} InPair(env: Env, p: Part, prop: Prop, f: Field)
    requires p.key == prop.key && Complete(env, p.value, prop.lang) && Matches(prop, f)
    ensures In(env, Seq(Pair(p)), [StrTok(f.key), Colon] + Print(f.value))
  {
    hide In, Print;
    var k, c := Text([StrTok(p.key)]), Text([Colon]);
    InText(env, [StrTok(p.key)]);
    InText(env, [Colon]);
    InSeqOne(env, p.value, Print(f.value));
    InSeqCons(env, c, [p.value], [Colon], Print(f.value));
    InSeqCons(env, k, [c] + [p.value], [StrTok(p.key)], [Colon] + Print(f.value));
    assert [k] + ([c] + [p.value]) == Pair(p);
    assert [StrTok(p.key)] + ([Colon] + Print(f.value)) == [StrTok(f.key), Colon] + Print(f.value);
  }

  lemma {:induction false} InCommaPair(env: Env, p: Part, prop: Prop, f: Field)
    requires p.key == prop.key && Complete(env, p.value, prop.lang) && Matches(prop, f)
    ensures In(env, Seq(CommaPair(p)), [Comma] + ([StrTok(f.key), Colon] + Print(f.value)))
  {
    hide In, Print, Pair;
    InPair(env, p, prop, f);
    InText(env, [Comma]);
    InSeqCons(env, Text([Comma]), Pair(p), [Comma], [StrTok(f.key), Colon] + Print(f.value));
  }

  lemma {:induction false} InOptTail(env: Env, parts: seq<Part>, props: seq<Prop>, fs: seq<Field>)
    requires PartsComplete(env, parts, props) && Subsequence(props, fs)
    ensures In(env, Seq(OptTail(parts)), Tail(fs))
    decreases |parts|
  {
    hide In, Print, CommaPair, Complete, PrintFields, CommaTail;
    if parts == [] {
      EmptyTail();
      InSeqNil(env);
    } else {
      var c := Seq(CommaPair(parts[0]));
      if Subsequence(props[1..], fs) {
        InOptTail(env, parts[1..], props[1..], fs);
        InOpt(env, c, []);
        InSeqCons(env, Opt(c), OptTail(parts[1..]), [], Tail(fs));
        assert [] + Tail(fs) == Tail(fs);
      } else {
        InOptTail(env, parts[1..], props[1..], fs[1..]);
        InCommaPair(env, parts[0], props[0], fs[0]);
        var t := [Comma] + ([StrTok(fs[0].key), Colon] + Print(fs[0].value));
        InOpt(env, c, t);
        InSeqCons(env, Opt(c), OptTail(parts[1..]), t, Tail(fs[1..]));
        TailCons(fs[0], fs[1..]);
        assert [fs[0]] + fs[1..] == fs;
      }
    }
  }

  lemma {:induction false} InTail(env: Env, req: seq<Part>, rp: seq<Prop>, opt: seq<Part>, op: seq<Prop>,
                                  fs: seq<Field>)
    requires PartsComplete(env, req, rp) && PartsComplete(env, opt, op) && Layout(rp, op, fs)
    ensures In(env, Seq(ReqTail(req) + OptTail(opt)), Tail(fs))
    decreases |req|
  {
    hide In, Print, CommaPair, OptTail, Complete, PrintFields, CommaTail;
    if req == [] {
      InOptTail(env, opt, op, fs);
      assert ReqTail(req) + OptTail(opt) == OptTail(opt);
    } else {
      var rest := ReqTail(req[1..]) + OptTail(opt);
      InTail(env, req[1..], rp[1..], opt, op, fs[1..]);
      InCommaPair(env, req[0], rp[0], fs[0]);
      InSeqConcat(env, CommaPair(req[0]), rest, [Comma] + ([StrTok(fs[0].key), Colon] + Print(fs[0].value)),
                  Tail(fs[1..]));
      assert CommaPair(req[0]) + rest == ReqTail(req) + OptTail(opt);
      TailCons(fs[0], fs[1..]);
      assert [fs[0]] + fs[1..] == fs;
    }
  }

  lemma {:induction false} InHeaded(env: Env, p: Part, prop: Prop, req: seq<Part>, rp: seq<Prop>,
                                    opt: seq<Part>, op: seq<Prop>, f: Field, fs: seq<Field>)
    requires p.key == prop.key && Complete(env, p.value, prop.lang) && Matches(prop, f)
    requires PartsComplete(env, req, rp) && PartsComplete(env, opt, op) && Layout(rp, op, fs)
    ensures In(env, Seq(Pair(p) + (ReqTail(req) + OptTail(opt))), ([StrTok(f.key), Colon] + Print(f.value)) + Tail(fs))
  {
    hide In, Print, Pair, ReqTail, OptTail, Complete, Layout, Tail, Matches;
    InPair(env, p, prop, f);
    InTail(env, req, rp, opt, op, fs);
    InSeqConcat(env, Pair(p), ReqTail(req) + OptTail(opt), [StrTok(f.key), Colon] + Print(f.value), Tail(fs));
  }

  lemma {:induction false} FirstOf(op: seq<Prop>, fs: seq<Field>) returns (k: nat)
    requires Subsequence(op, fs) && fs != []
    ensures k < |op| && Matches(op[k], fs[0]) && Subsequence(op[k + 1..], fs[1..])
    decreases |op|
  {
    if Subsequence(op[1..], fs) {
      var j := FirstOf(op[1..], fs);
      k := j + 1;
      assert op[1..][j] == op[k] && op[1..][j + 1..] == op[k + 1..];
    } else {
      k := 0;
    }
  }

  lemma {:induction false} InBraced(env: Env, mid: seq<Expr>, m: Tokens)
    requires In(env, Seq(mid), m)
    ensures In(env, Seq([Text([LBrace])] + mid + [Text([RBrace])]), [LBrace] + m + [RBrace])
  {
    hide In;
    InText(env, [LBrace]);
    InText(env, [RBrace]);
    InSeqOne(env, Text([RBrace]), [RBrace]);
    InSeqOne(env, Text([LBrace]), [LBrace]);
    InSeqConcat(env, [Text([LBrace])], mid, [LBrace], m);
    InSeqConcat(env, [Text([LBrace])] + mid, [Text([RBrace])], [LBrace] + m, [RBrace]);
  }

  lemma {:induction false} InBody(env: Env, req: seq<Part>, rp: seq<Prop>, opt: seq<Part>, op: seq<Prop>,
                                  fs: seq<Field>)
    requires PartsComplete(env, req, rp) && PartsComplete(env, opt, op) && Layout(rp, op, fs)
    ensures In(env, BodySpec(req, opt), Print(Obj(fs)))
  {
    hide In, Print, Pair, ReqTail, OptTail, Complete, Matches, Tail;
    if req == [] && opt == [] {
      InSeqNil(env);
      InBraced(env, [], []);
      assert [Text([LBrace])] + [] + [Text([RBrace])] == [Text([LBrace]), Text([RBrace])];
      EmptyObject();
    } else if req == [] {
      var alts := Alternatives(opt);
      if fs == [] {
        InOpt(env, Alt(alts), []);
        InThree(env, LBrace, Opt(Alt(alts)), RBrace, []);
        EmptyObject();
      } else {
        var k := FirstOf(op, fs);
        var m := ([StrTok(fs[0].key), Colon] + Print(fs[0].value)) + Tail(fs[1..]);
        InHeaded(env, opt[k], op[k], [], [], opt[k + 1..], op[k + 1..], fs[0], fs[1..]);
        NoReqTail(OptTail(opt[k + 1..]));
        InAlt(env, alts, k, m);
        InOpt(env, Alt(alts), m);
        InThree(env, LBrace, Opt(Alt(alts)), RBrace, m);
        PrintObject(fs[0], fs[1..]);
        assert [fs[0]] + fs[1..] == fs;
      }
    } else {
      var m := ([StrTok(fs[0].key), Colon] + Print(fs[0].value)) + Tail(fs[1..]);
      InHeaded(env, req[0], rp[0], req[1..], rp[1..], opt, op, fs[0], fs[1..]);
      InBraced(env, Pair(req[0]) + (ReqTail(req[1..]) + OptTail(opt)), m);
      PrintObject(fs[0], fs[1..]);
      assert [fs[0]] + fs[1..] == fs;
    }
  }

  ghost predicate PartsMean(env: Env, parts: seq<Part>, props: seq<Prop>)
  {
    && |parts| == |props|
    && forall i :: 0 <= i < |parts| ==> parts[i].key == props[i].key && Means(env, parts[i].value, props[i].lang)
  }

  /** The body derives exactly: every required property in order, then any subsequence of the optional ones. */
  lemma {:induction false} ObjectBodyMeans(env: Env, req: seq<Part>, rp: seq<Prop>, opt: seq<Part>, op: seq<Prop>)
    requires PartsMean(env, req, rp) && PartsMean(env, opt, op)
    ensures Means(env, BodySpec(req, opt), ObjectOf(rp, op))
  {
    hide BodySpec, Layout, Print;
    forall d, s | Derives(env, BodySpec(req, opt), s, d)
      ensures Spells(ObjectOf(rp, op), s)
    {
      var fs := BodySound(env, req, rp, opt, op, s, d);
      assert Obj(fs) in ObjectOf(rp, op);
    }
    forall t | t in ObjectOf(rp, op)
      ensures In(env, BodySpec(req, opt), Print(t))
    {
      InBody(env, req, rp, opt, op, t.fields);
    }
  }
}
