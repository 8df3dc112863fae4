/** What a tool schema admits, read off the schema itself: by its keys, its required names and its properties. */
module SchemaTrees {
  import opened Lexemes
  import opened Json
  import opened GrammarMeaning
  import opened GrammarObjects
  import opened GrammarPrelude
  import opened Schema

  // ----- the value under a key -----

  /** The first value under the key. */
  ghost predicate Under(fields: seq<Field>, key: string, v: Json)
  {
    exists i :: 0 <= i < |fields| && fields[i] == Field(key, v) && forall k :: 0 <= k < i ==> fields[k].key != key
  }

  lemma {:induction false} FindFirst(fields: seq<Field>, key: string)
    ensures forall k :: 0 <= k < Find(fields, key) ==> fields[k].key != key
  {
    if fields != [] && fields[0].key != key {
      FindFirst(fields[1..], key);
      assert forall k :: 1 <= k < |fields| ==> fields[k] == fields[1..][k - 1];
    }
  }

  lemma {:induction false} FindExact(fields: seq<Field>, key: string)
    ensures Find(fields, key) >= 0 ==> forall v :: Under(fields, key, v) <==> v == fields[Find(fields, key)].value
    ensures Find(fields, key) < 0 ==> forall v :: !Under(fields, key, v)
  {
    FindFirst(fields, key);
    var i := Find(fields, key);
    hide Find;
    if i >= 0 {
      assert fields[i] == Field(key, fields[i].value);
    }
  }

  // ----- enum and type -----

  /** The schema lists the values it admits. */
  ghost predicate HasChoices(fields: seq<Field>)
  {
    exists v :: Under(fields, "enum", v) && v.Arr? && v.items != []
  }

  lemma {:induction false} ChoicesExact(fields: seq<Field>)
    ensures Choices(fields) != [] <==> HasChoices(fields)
    ensures forall v :: Under(fields, "enum", v) && v.Arr? ==> Choices(fields) == v.items
  {
    hide Find, Under;
    FindExact(fields, "enum");
    var i := Find(fields, "enum");
    if i >= 0 {
      assert Under(fields, "enum", fields[i].value);
    }
  }

  lemma {:induction false} TypeExact(fields: seq<Field>, name: string)
    requires name != ""
    ensures TypeName(fields) == name <==> Under(fields, "type", Str(name))
  {
    hide Find, Under;
    FindExact(fields, "type");
  }

  /** A schema with choices admits exactly those. */
  lemma {:induction false} EnumAdmits(ext: Meaning, fields: seq<Field>, choices: Json, t: Json)
    requires Under(fields, "enum", choices) && choices.Arr? && choices.items != []
    ensures t in Lang(ext, Obj(fields)) <==> t in choices.items
    ensures !Widens(Obj(fields))
  {
    hide Choices, Under, TypeName, Find, Select, Required, PropLangs;
    ChoicesExact(fields);
  }

  /** Without choices a scalar type admits exactly the trees of that kind, and any type but the seven admits what its
      meaning outside the subset is. */
  lemma {:induction false} TypeAdmits(ext: Meaning, fields: seq<Field>, name: string, t: Json)
    requires !HasChoices(fields) && name != "" && Under(fields, "type", Str(name))
    ensures name == "string" ==> (t in Lang(ext, Obj(fields)) <==> t.Str?)
    ensures name == "integer" ==> (t in Lang(ext, Obj(fields)) <==> t.Num? && IntegerText(t.text))
    ensures name == "number" ==> (t in Lang(ext, Obj(fields)) <==> t.Num? && NumberText(t.text))
    ensures name == "boolean" ==> (t in Lang(ext, Obj(fields)) <==> t.Bool?)
    ensures name == "null" ==> (t in Lang(ext, Obj(fields)) <==> t == Null)
    ensures name !in ["string", "integer", "number", "boolean", "null", "array", "object"] ==>
              (t in Lang(ext, Obj(fields)) <==> WellFormed(t) && ext(Obj(fields), t))
  {
    hide Choices, Under, TypeName, Find, Select, Required, PropLangs, NumberText, IntegerText, WellFormed, ArrayOf,
        ObjectOf;
    ChoicesExact(fields);
    TypeExact(fields, name);
  }

  /** An array schema admits the arrays of what its items admit. */
  lemma {:induction false} ArrayAdmits(ext: Meaning, fields: seq<Field>, items: Json, t: Json)
    requires !HasChoices(fields) && Under(fields, "type", Str("array")) && Under(fields, "items", items)
    ensures t in Lang(ext, Obj(fields)) <==>
            t.Arr? && forall i :: 0 <= i < |t.items| ==> t.items[i] in Lang(ext, items)
  {
    ChoicesExact(fields);
    TypeExact(fields, "array");
    FindExact(fields, "items");
    hide Choices, Under, TypeName, Select, Required, PropLangs, WellFormed, ObjectOf, Find;
    assert fields[Find(fields, "items")].value == items;
  }

  // ----- required names -----

  /** The schema requires this name. */
  ghost predicate IsRequired(fields: seq<Field>, name: string)
  {
    exists v :: Under(fields, "required", v) && v.Arr? && Str(name) in v.items
  }

  lemma {:induction false} StringsExact(items: seq<Json>, name: string)
    ensures name in OnlyStrings(items) <==> Str(name) in items
  {
    if items != [] {
      StringsExact(items[1..], name);
      assert Str(name) in items <==> items[0] == Str(name) || Str(name) in items[1..];
      var first := if items[0].Str? then [items[0].s] else [];
      assert name in OnlyStrings(items) <==> name in first || name in OnlyStrings(items[1..]);
    }
  }

  /** The names that the compiler takes as required are the strings among the items of `required`. */
  lemma {:induction false} RequiredExact(fields: seq<Field>, name: string)
    ensures name in Required(fields) <==> IsRequired(fields, name)
  {
    hide Find, Under, OnlyStrings;
    FindExact(fields, "required");
    var i := Find(fields, "required");
    if i >= 0 {
      assert Under(fields, "required", fields[i].value);
      if fields[i].value.Arr? {
        StringsExact(fields[i].value.items, name);
      }
    }
  }

  // ----- which properties are picked, by index -----

  ghost predicate Increasing(s: seq<nat>)
  {
    forall i, j :: 0 <= i < j < |s| ==> s[i] < s[j]
  }

  /** The indices of the properties that are required, or of those that are not. */
  ghost function Picks(props: seq<Prop>, required: seq<string>, wanted: bool): (r: seq<nat>)
    ensures forall i :: 0 <= i < |r| ==> r[i] < |props| && (props[r[i]].key in required) == wanted
  {
    if props == [] then []
    else
      var n := |props| - 1;
      Picks(props[..n], required, wanted) + if (props[n].key in required) == wanted then [n] else []
  }

  lemma {:induction false} PicksIncrease(props: seq<Prop>, required: seq<string>, wanted: bool)
    ensures Increasing(Picks(props, required, wanted))
  {
    if props != [] {
      var n := |props| - 1;
      PicksIncrease(props[..n], required, wanted);
    }
  }

  lemma {:induction false} PicksAll(props: seq<Prop>, required: seq<string>, wanted: bool, k: nat)
    requires k < |props| && (props[k].key in required) == wanted
    ensures k in Picks(props, required, wanted)
  {
    var n := |props| - 1;
    if k < n {
      PicksAll(props[..n], required, wanted, k);
    }
  }

  lemma {:induction false} SelectPicks(props: seq<Prop>, required: seq<string>, wanted: bool)
    ensures var r := Picks(props, required, wanted);
            |Select(props, required, wanted)| == |r| &&
            forall i :: 0 <= i < |r| ==> Select(props, required, wanted)[i] == props[r[i]]
  {
    if props != [] {
      SelectPicks(props[..|props| - 1], required, wanted);
    }
  }

  // ----- objects -----

  lemma {:induction false} LayoutSplit(req: seq<Prop>, opt: seq<Prop>, fs: seq<Field>)
    ensures Layout(req, opt, fs) <==>
            && |fs| >= |req| && (forall i :: 0 <= i < |req| ==> GrammarObjects.Matches(req[i], fs[i]))
            && Subsequence(opt, fs[|req|..])
    decreases |req|
  {
    hide GrammarObjects.Matches, Subsequence;
    if req == [] {
      assert fs[0..] == fs;
    } else if fs != [] {
      LayoutSplit(req[1..], opt, fs[1..]);
      if |fs| >= |req| {
        assert fs[1..][|req[1..]|..] == fs[|req|..];
        assert forall i :: 1 <= i < |req| ==> req[i] == req[1..][i - 1] && fs[i] == fs[1..][i - 1];
        assert forall i :: 0 <= i < |req[1..]| ==> req[1..][i] == req[i + 1] && fs[1..][i] == fs[i + 1];
      }
    }
  }

  /** The fields are of the properties at these indices. */
  ghost predicate FieldsAt(props: seq<Prop>, idx: seq<nat>, fs: seq<Field>)
  {
    |idx| == |fs| && forall k :: 0 <= k < |idx| ==> idx[k] < |props| && GrammarObjects.Matches(props[idx[k]], fs[k])
  }

  /** The properties at these increasing indices. */
  ghost predicate Picked(props: seq<Prop>, picks: seq<nat>, opt: seq<Prop>)
  {
    && |opt| == |picks| && Increasing(picks)
    && forall i :: 0 <= i < |picks| ==> picks[i] < |props| && opt[i] == props[picks[i]]
  }

  lemma {:induction false} PickedTail(props: seq<Prop>, picks: seq<nat>, opt: seq<Prop>)
    requires Picked(props, picks, opt) && opt != []
    ensures Picked(props, picks[1..], opt[1..])
    ensures forall x :: x in picks[1..] ==> picks[0] < x && x in picks
  {
    var a, b := picks[1..], opt[1..];
    assert forall i :: 0 <= i < |a| ==> a[i] == picks[i + 1] && b[i] == opt[i + 1];
  }

  lemma {:induction false} FieldsCons(props: seq<Prop>, x: nat, rest: seq<nat>, fs: seq<Field>)
    requires fs != [] && x < |props| && GrammarObjects.Matches(props[x], fs[0]) && FieldsAt(props, rest, fs[1..])
    ensures FieldsAt(props, [x] + rest, fs)
  {
    hide GrammarObjects.Matches;
    var idx := [x] + rest;
    assert forall k :: 1 <= k < |idx| ==> idx[k] == rest[k - 1] && fs[k] == fs[1..][k - 1];
  }

  /** A subsequence of the picked properties has increasing indices among the picks. */
  lemma {:induction false} SubsequenceIndices(props: seq<Prop>, picks: seq<nat>, opt: seq<Prop>, fs: seq<Field>)
    returns (idx: seq<nat>)
    requires Picked(props, picks, opt) && Subsequence(opt, fs)
    ensures FieldsAt(props, idx, fs) && Increasing(idx) && forall k :: 0 <= k < |idx| ==> idx[k] in picks
    decreases |opt|
  {
    hide GrammarObjects.Matches;
    if opt == [] {
      idx := [];
    } else {
      PickedTail(props, picks, opt);
      assert opt[0] == props[picks[0]];
      hide Increasing, FieldsAt;
      if Subsequence(opt[1..], fs) {
        idx := SubsequenceIndices(props, picks[1..], opt[1..], fs);
      } else {
        var rest := SubsequenceIndices(props, picks[1..], opt[1..], fs[1..]);
        idx := [picks[0]] + rest;
        ConsIncreasing(picks[0], rest);
        FieldsCons(props, picks[0], rest, fs);
      }
    }
  }

  lemma {:induction false} ConsIncreasing(x: nat, rest: seq<nat>)
    requires Increasing(rest) && forall k :: 0 <= k < |rest| ==> x < rest[k]
    ensures Increasing([x] + rest)
  {
    var all := [x] + rest;
    assert forall k :: 1 <= k < |all| ==> all[k] == rest[k - 1];
  }

  /** And increasing indices among the picks give a subsequence. */
  lemma {:induction false} IndicesSubsequence(props: seq<Prop>, picks: seq<nat>, opt: seq<Prop>, idx: seq<nat>,
                                              fs: seq<Field>)
    requires Picked(props, picks, opt)
    requires FieldsAt(props, idx, fs) && Increasing(idx) && forall k :: 0 <= k < |idx| ==> idx[k] in picks
    ensures Subsequence(opt, fs)
    decreases |opt|
  {
    hide GrammarObjects.Matches;
    assert idx != [] ==> idx[0] in picks;
    if opt != [] {
      PickedTail(props, picks, opt);
      if idx != [] && idx[0] == picks[0] {
        assert forall k :: 0 <= k < |idx[1..]| ==> idx[1..][k] == idx[k + 1] && fs[1..][k] == fs[k + 1];
        IndicesSubsequence(props, picks[1..], opt[1..], idx[1..], fs[1..]);
      } else {
        forall k | 0 <= k < |idx|
          ensures idx[k] in picks[1..]
        {
          var a :| 0 <= a < |picks| && picks[a] == idx[k];
          var b :| 0 <= b < |picks| && picks[b] == idx[0];
          assert idx[0] <= idx[k] && picks[0] <= picks[b];
          assert a > 0;
        }
        IndicesSubsequence(props, picks[1..], opt[1..], idx, fs);
      }
    }
  }

  lemma {:induction false} SameIncreasing(a: seq<nat>, b: seq<nat>)
    requires Increasing(a) && Increasing(b) && (forall x :: x in a <==> x in b)
    ensures a == b
    decreases |a|
  {
    assert b != [] ==> b[0] in b;
    if a != [] {
      assert a[0] in b;
      assert b != [] && b[0] in a;
      assert a[0] == b[0];
      var x, y := a[1..], b[1..];
      assert Increasing(x) && Increasing(y);
      forall v
        ensures v in x <==> v in y
      {
        TailElements(a, v);
        TailElements(b, v);
      }
      SameIncreasing(x, y);
      assert a == [a[0]] + x && b == [b[0]] + y;
    }
  }

  lemma {:induction false} TailElements(s: seq<nat>, v: nat)
    requires s != [] && Increasing(s)
    ensures v in s[1..] <==> v in s && v != s[0]
  {
    if v in s && v != s[0] {
      var k :| 0 <= k < |s| && s[k] == v;
      assert s[1..][k - 1] == v;
    }
    if v in s[1..] {
      var k :| 0 <= k < |s[1..]| && s[1..][k] == v;
      assert s[k + 1] == v;
    }
  }

  /** How a tree uses the properties of an object schema: each field is of one property and has a value that the
      property admits; every required property is there; the required ones come first, and within the required ones and
      within the others the order is that of the schema. */
  ghost predicate Uses(ext: Meaning, fields: seq<Field>, ps: seq<Field>, idx: seq<nat>, fs: seq<Field>)
  {
    && |idx| == |fs|
    && (forall k :: 0 <= k < |idx| ==>
          idx[k] < |ps| && fs[k].key == ps[idx[k]].key && fs[k].value in Lang(ext, ps[idx[k]].value))
    && (forall p :: 0 <= p < |ps| && IsRequired(fields, ps[p].key) ==> p in idx)
    && (forall k, l :: 0 <= k < l < |idx| ==>
          && (IsRequired(fields, ps[idx[l]].key) ==> IsRequired(fields, ps[idx[k]].key))
          && (IsRequired(fields, ps[idx[k]].key) == IsRequired(fields, ps[idx[l]].key) ==> idx[k] < idx[l]))
  }

  /** The same with the required names as a list. */
  ghost predicate Arranged(props: seq<Prop>, required: seq<string>, idx: seq<nat>, fs: seq<Field>)
  {
    && FieldsAt(props, idx, fs)
    && (forall p :: 0 <= p < |props| && props[p].key in required ==> p in idx)
    && (forall k, l :: 0 <= k < l < |idx| ==>
          && (props[idx[l]].key in required ==> props[idx[k]].key in required)
          && ((props[idx[k]].key in required) == (props[idx[l]].key in required) ==> idx[k] < idx[l]))
  }

  lemma {:induction false} LayoutArranged(props: seq<Prop>, required: seq<string>, fs: seq<Field>)
    returns (idx: seq<nat>)
    requires Layout(Select(props, required, true), Select(props, required, false), fs)
    ensures Arranged(props, required, idx, fs)
  {
    hide GrammarObjects.Matches, Picks, Select, Layout, Subsequence;
    var rp, op := Picks(props, required, true), Picks(props, required, false);
    var req, opt := Select(props, required, true), Select(props, required, false);
    SelectPicks(props, required, true);
    SelectPicks(props, required, false);
    PicksIncrease(props, required, true);
    PicksIncrease(props, required, false);
    LayoutSplit(req, opt, fs);
    var n := |req|;
    var rest := SubsequenceIndices(props, op, opt, fs[n..]);
    idx := rp + rest;
    forall k | 0 <= k < |idx|
      ensures idx[k] < |props| && GrammarObjects.Matches(props[idx[k]], fs[k])
      ensures (props[idx[k]].key in required) == (k < n)
    {
      if k >= n { assert idx[k] == rest[k - n] && fs[k] == fs[n..][k - n] && rest[k - n] in op; }
    }
    forall p | 0 <= p < |props| && props[p].key in required
      ensures p in idx
    {
      PicksAll(props, required, true, p);
    }
    forall k, l | 0 <= k < l < |idx| && (k < n) == (l < n)
      ensures idx[k] < idx[l]
    {
      if l < n { assert rp[k] < rp[l]; } else { assert rest[k - n] < rest[l - n]; }
    }
  }

  /** Where the required fields end. */
  lemma {:induction false} Border(props: seq<Prop>, required: seq<string>, idx: seq<nat>, fs: seq<Field>)
    returns (n: nat)
    requires Arranged(props, required, idx, fs)
    ensures n <= |idx| && forall k :: 0 <= k < |idx| ==> ((props[idx[k]].key in required) <==> k < n)
  {
    hide GrammarObjects.Matches;
    assert forall k, l :: 0 <= k < l < |idx| && props[idx[l]].key in required ==> props[idx[k]].key in required;
    n := 0;
    while n < |idx| && props[idx[n]].key in required
      invariant n <= |idx| && forall k :: 0 <= k < n ==> props[idx[k]].key in required
    {
      n := n + 1;
    }
  }

  lemma {:induction false} ArrangedLayout(props: seq<Prop>, required: seq<string>, idx: seq<nat>, fs: seq<Field>)
    requires Arranged(props, required, idx, fs)
    ensures Layout(Select(props, required, true), Select(props, required, false), fs)
  {
    hide GrammarObjects.Matches, Picks, Select, Layout, Subsequence;
    var rp, op := Picks(props, required, true), Picks(props, required, false);
    var req, opt := Select(props, required, true), Select(props, required, false);
    SelectPicks(props, required, true);
    SelectPicks(props, required, false);
    PicksIncrease(props, required, true);
    PicksIncrease(props, required, false);
    var n := Border(props, required, idx, fs);
    var head, tail := idx[..n], idx[n..];
    forall x
      ensures x in head <==> x in rp
    {
      if x in head {
        var k :| 0 <= k < n && idx[k] == x;
        PicksAll(props, required, true, x);
      }
      if x in rp {
        assert props[x].key in required && x in idx;
        var k :| 0 <= k < |idx| && idx[k] == x;
        assert head[k] == x;
      }
    }
    assert Increasing(head) && Increasing(tail);
    SameIncreasing(head, rp);
    forall k | 0 <= k < |tail|
      ensures tail[k] in op
    {
      assert tail[k] == idx[n + k];
      PicksAll(props, required, false, tail[k]);
    }
    assert FieldsAt(props, tail, fs[n..]);
    IndicesSubsequence(props, op, opt, tail, fs[n..]);
    assert forall k :: 0 <= k < n ==> rp[k] == idx[k];
    LayoutSplit(req, opt, fs);
  }

  /** An object schema with declared properties admits exactly the objects that use them so. */
  lemma {:induction false} ObjectAdmits(ext: Meaning, fields: seq<Field>, properties: Json, t: Json)
    requires !HasChoices(fields) && Under(fields, "type", Str("object"))
    requires Under(fields, "properties", properties) && properties.Obj?
    ensures t in Lang(ext, Obj(fields)) <==>
            t.Obj? && exists idx :: Uses(ext, fields, properties.fields, idx, t.fields)
  {
    var ps := properties.fields;
    ObjectLangIs(ext, fields, properties);
    var props := PropLangs(ext, ps);
    forall idx, fs
      ensures Uses(ext, fields, ps, idx, fs) <==> Arranged(props, Required(fields), idx, fs)
    {
      UsesIsArranged(ext, fields, ps, idx, fs);
    }
    hide Lang, Uses, Arranged, Select, Layout, Required, PropLangs, Under;
    if t.Obj? && Layout(Select(props, Required(fields), true), Select(props, Required(fields), false), t.fields) {
      var idx := LayoutArranged(props, Required(fields), t.fields);
      assert Uses(ext, fields, ps, idx, t.fields);
    }
    if t.Obj? {
      if idx :| Uses(ext, fields, ps, idx, t.fields) {
        ArrangedLayout(props, Required(fields), idx, t.fields);
      }
    }
  }

  lemma {:induction false} ObjectLangIs(ext: Meaning, fields: seq<Field>, properties: Json)
    requires !HasChoices(fields) && Under(fields, "type", Str("object"))
    requires Under(fields, "properties", properties) && properties.Obj?
    ensures var props := PropLangs(ext, properties.fields);
            Lang(ext, Obj(fields)) ==
                ObjectOf(Select(props, Required(fields), true), Select(props, Required(fields), false))
  {
    ChoicesExact(fields);
    TypeExact(fields, "object");
    FindExact(fields, "properties");
    hide Choices, Under, TypeName, Select, Required, PropLangs, WellFormed, ObjectOf, Find;
    assert fields[Find(fields, "properties")].value == properties;
  }

  lemma {:induction false} UsesIsArranged(ext: Meaning, fields: seq<Field>, ps: seq<Field>, idx: seq<nat>,
                                          fs: seq<Field>)
    ensures Uses(ext, fields, ps, idx, fs) <==> Arranged(PropLangs(ext, ps), Required(fields), idx, fs)
  {
    hide Lang, Required, IsRequired;
    forall name
      ensures IsRequired(fields, name) <==> name in Required(fields)
    {
      RequiredExact(fields, name);
    }
  }

  /** Every tree of an object schema has a field for each declared property that is required, with a value that the
      property admits. */
  lemma {:induction false} RequiredArePresent(ext: Meaning, fields: seq<Field>, properties: Json, t: Json, p: nat)
    requires !HasChoices(fields) && Under(fields, "type", Str("object"))
    requires Under(fields, "properties", properties) && properties.Obj?
    requires t in Lang(ext, Obj(fields)) && p < |properties.fields| && IsRequired(fields, properties.fields[p].key)
    ensures t.Obj? && exists k ::
              && 0 <= k < |t.fields| && t.fields[k].key == properties.fields[p].key
              && t.fields[k].value in Lang(ext, properties.fields[p].value)
  {
    ObjectAdmits(ext, fields, properties, t);
    hide Lang, Under;
    var idx :| Uses(ext, fields, properties.fields, idx, t.fields);
    assert p in idx;
    var k :| 0 <= k < |idx| && idx[k] == p;
  }

  // ----- what is widened admits more -----

  /** The narrowest meaning of what lies outside the subset. */
  const NOTHING: Meaning := (schema, t) => false

  lemma {:induction false} SubsequenceShort(opt: seq<Prop>, fs: seq<Field>)
    requires Subsequence(opt, fs)
    ensures |fs| <= |opt|
    ensures |fs| == |opt| ==> forall i :: 0 <= i < |opt| ==> GrammarObjects.Matches(opt[i], fs[i])
    decreases |opt|
  {
    hide GrammarObjects.Matches;
    if opt != [] {
      if Subsequence(opt[1..], fs) {
        SubsequenceShort(opt[1..], fs);
      } else {
        SubsequenceShort(opt[1..], fs[1..]);
        assert forall i :: 1 <= i < |opt| ==> opt[i] == opt[1..][i - 1];
        assert forall i :: 1 <= i < |fs| ==> fs[i] == fs[1..][i - 1];
      }
    }
  }

  /** The object that has every property, with these values. */
  lemma {:induction false} FullObject(props: seq<Prop>, required: seq<string>, trees: seq<Json>)
    returns (fs: seq<Field>)
    requires |trees| == |props| && forall p :: 0 <= p < |props| ==> trees[p] in props[p].lang
    ensures Layout(Select(props, required, true), Select(props, required, false), fs)
    ensures var idx := Picks(props, required, true) + Picks(props, required, false);
            |fs| == |idx| && forall k :: 0 <= k < |idx| ==> fs[k] == Field(props[idx[k]].key, trees[idx[k]])
  {
    hide Picks, Select, Layout;
    var rp, op := Picks(props, required, true), Picks(props, required, false);
    var idx := rp + op;
    fs := seq(|idx|, k requires 0 <= k < |idx| => Field(props[idx[k]].key, trees[idx[k]]));
    PicksIncrease(props, required, true);
    PicksIncrease(props, required, false);
    forall p | 0 <= p < |props| && props[p].key in required
      ensures p in idx
    {
      PicksAll(props, required, true, p);
    }
    var n := |rp|;
    forall k, l | 0 <= k < l < |idx| && (k < n) == (l < n)
      ensures idx[k] < idx[l]
    {
      if l < n { assert rp[k] < rp[l]; } else { assert op[k - n] < op[l - n]; }
    }
    ArrangedLayout(props, required, idx, fs);
  }

  lemma {:induction false} SamePicks(a: seq<Prop>, b: seq<Prop>, required: seq<string>, wanted: bool)
    requires |a| == |b| && forall p :: 0 <= p < |a| ==> a[p].key == b[p].key
    ensures Picks(a, required, wanted) == Picks(b, required, wanted)
  {
    if a != [] {
      SamePicks(a[..|a| - 1], b[..|b| - 1], required, wanted);
    }
  }

  /** In an object that has every property each value is one that its property admits. */
  lemma {:induction false} FullValues(props: seq<Prop>, required: seq<string>, fs: seq<Field>, p: nat) returns (k: nat)
    requires Layout(Select(props, required, true), Select(props, required, false), fs) && p < |props|
    requires |fs| == |Picks(props, required, true)| + |Picks(props, required, false)|
    ensures var idx := Picks(props, required, true) + Picks(props, required, false);
            k < |fs| == |idx| && idx[k] == p && fs[k].value in props[p].lang
  {
    hide Picks, Select, Layout, Subsequence;
    var req, opt := Select(props, required, true), Select(props, required, false);
    var rp, op := Picks(props, required, true), Picks(props, required, false);
    SelectPicks(props, required, true);
    SelectPicks(props, required, false);
    LayoutSplit(req, opt, fs);
    SubsequenceShort(opt, fs[|req|..]);
    if props[p].key in required {
      PicksAll(props, required, true, p);
      k :| 0 <= k < |rp| && rp[k] == p;
      assert GrammarObjects.Matches(req[k], fs[k]);
    } else {
      PicksAll(props, required, false, p);
      var j :| 0 <= j < |op| && op[j] == p;
      k := |rp| + j;
      assert GrammarObjects.Matches(opt[j], fs[|req|..][j]);
    }
  }

  /** Every schema admits something after widening. */
  lemma {:induction false} Inhabited(schema: Json) returns (t: Json)
    ensures t in Lang(ANYTHING, schema)
    decreases schema, 1
  {
    hide Choices, TypeName, Find, Select, Required, PropLangs, Layout;
    t := Null;
    if schema.Obj? {
      var fields := schema.fields;
      var name := TypeName(fields);
      if Choices(fields) != [] {
        t := Choices(fields)[0];
      } else if name == "string" {
        t := Str("");
      } else if name == "integer" || name == "number" {
        ZeroIsNumber();
        t := Num("0");
      } else if name == "boolean" {
        t := Bool(true);
      } else if name == "array" {
        t := Arr([]);
      } else if name == "object" {
        t := Obj([]);
        var i := Find(fields, "properties");
        if i >= 0 && fields[i].value.Obj? {
          var ps := fields[i].value.fields;
          var trees := AllInhabited(ps);
          var fs := FullObject(PropLangs(ANYTHING, ps), Required(fields), trees);
          t := Obj(fs);
        }
      }
    }
  }

  lemma {:induction false} ZeroIsNumber()
    ensures IntegerText("0") && NumberText("0")
  {
    var s := "0";
    assert IntegerText(s);
    assert s[..1] == s && s[1..1] == "" && s[1..] == "";
    assert FractionText("") && ExponentText("");
  }

  lemma {:induction false} AllInhabited(ps: seq<Field>) returns (trees: seq<Json>)
    ensures var props := PropLangs(ANYTHING, ps);
            |trees| == |props| && forall p :: 0 <= p < |props| ==> trees[p] in props[p].lang
    decreases ps, 0
  {
    trees := [];
    if ps != [] {
      var first := Inhabited(ps[0].value);
      var rest := AllInhabited(ps[1..]);
      trees := [first] + rest;
    }
  }

  lemma {:induction false} WhichWidens(ps: seq<Field>) returns (p: nat)
    requires AnyWidens(ps)
    ensures p < |ps| && Widens(ps[p].value)
  {
    p := 0;
    if !Widens(ps[0].value) {
      var k := WhichWidens(ps[1..]);
      p := k + 1;
    }
  }

  /** A widened schema admits a tree that its narrowest meaning does not. */
  lemma {:induction false} WidenedGains(schema: Json) returns (t: Json)
    requires Widens(schema)
    ensures t in Lang(ANYTHING, schema) && t !in Lang(NOTHING, schema)
    decreases schema, 1
  {
    hide Choices, TypeName, Find, Select, Required, PropLangs, Layout;
    t := Null;
    if schema.Obj? {
      var fields := schema.fields;
      var name := TypeName(fields);
      if name == "array" {
        var i := Find(fields, "items");
        if i >= 0 {
          var item := WidenedGains(fields[i].value);
          t := Arr([item]);
          assert t.items[0] == item;
        } else {
          t := Arr([]);
        }
      } else if name == "object" {
        t := Obj([]);
        var i := Find(fields, "properties");
        if i >= 0 && fields[i].value.Obj? {
          var fs := WidenedFields(fields[i].value.fields, Required(fields));
          t := Obj(fs);
        }
      }
    }
  }

  lemma {:induction false} WidenedFields(ps: seq<Field>, required: seq<string>) returns (fs: seq<Field>)
    requires AnyWidens(ps)
    ensures var props := PropLangs(ANYTHING, ps);
            Layout(Select(props, required, true), Select(props, required, false), fs)
    ensures var props := PropLangs(NOTHING, ps);
            !Layout(Select(props, required, true), Select(props, required, false), fs)
    decreases ps, 0
  {
    hide Lang, Layout, Select, Picks, Widens;
    var wide, narrow := PropLangs(ANYTHING, ps), PropLangs(NOTHING, ps);
    var p := WhichWidens(ps);
    var u := WidenedGains(ps[p].value);
    var trees := AllInhabited(ps);
    trees := trees[p := u];
    fs := FullObject(wide, required, trees);
    SamePicks(wide, narrow, required, true);
    SamePicks(wide, narrow, required, false);
    if Layout(Select(narrow, required, true), Select(narrow, required, false), fs) {
      var k := FullValues(narrow, required, fs, p);
      assert false;
    }
  }

  /** The compiler has to widen a schema if and only if what lies outside the subset makes a difference to it. */
  lemma {:induction false} WidensExact(schema: Json)
    ensures Widens(schema) <==> exists ext: Meaning :: Lang(ext, schema) != Lang(ANYTHING, schema)
  {
    hide Lang, Widens;
    if Widens(schema) {
      var t := WidenedGains(schema);
      assert Lang(NOTHING, schema) != Lang(ANYTHING, schema);
    } else {
      forall ext: Meaning
        ensures Lang(ext, schema) == Lang(ANYTHING, schema)
      {
        UnwidenedIsExact(ext, schema);
      }
    }
  }
}
