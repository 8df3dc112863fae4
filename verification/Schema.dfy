/** Tool schemas: the trees they admit, and which of them the compiler has to widen. */
module Schema {
  import opened Json
  import opened GrammarMeaning
  import opened GrammarObjects
  import opened GrammarPrelude

  /** A meaning for the schemas outside the supported subset: which trees they admit. */
  type Meaning = (Json, Json) -> bool

  const ANYTHING: Meaning := (schema, t) => true

  function Find(fields: seq<Field>, key: string): (i: int)
    ensures -1 <= i < |fields|
    ensures i >= 0 ==> fields[i].key == key
    ensures i < 0 ==> forall k :: 0 <= k < |fields| ==> fields[k].key != key
  {
    if fields == [] then -1
    else if fields[0].key == key then 0
    else
      var i := Find(fields[1..], key);
      if i < 0 then -1 else i + 1
  }

  function Choices(fields: seq<Field>): seq<Json>
  {
    var i := Find(fields, "enum");
    if i >= 0 && fields[i].value.Arr? then fields[i].value.items else []
  }

  /** The schema's type when it is a string, and the empty string otherwise. */
  function TypeName(fields: seq<Field>): string
  {
    var i := Find(fields, "type");
    if i >= 0 && fields[i].value.Str? then fields[i].value.s else ""
  }

  function OnlyStrings(items: seq<Json>): (r: seq<string>)
  {
    if items == [] then []
    else (if items[0].Str? then [items[0].s] else []) + OnlyStrings(items[1..])
  }

  function Required(fields: seq<Field>): seq<string>
  {
    var i := Find(fields, "required");
    if i >= 0 && fields[i].value.Arr? then OnlyStrings(fields[i].value.items) else []
  }

  ghost function Select(props: seq<Prop>, required: seq<string>, wanted: bool): (r: seq<Prop>)
  {
    if props == [] then []
    else
      var n := |props| - 1;
      Select(props[..n], required, wanted) + if (props[n].key in required) == wanted then [props[n]] else []
  }

  /** The trees a schema admits: a non-empty enum overrides the type; objects have the declared keys only,
      the required ones (among the declared) first, each group in map order. */
  ghost function Lang(ext: Meaning, schema: Json): Language
    decreases schema, 1
  {
    if !schema.Obj? then iset t: Json | WellFormed(t) && ext(schema, t)
    else
      var fields := schema.fields;
      if Choices(fields) != [] then iset t: Json | t in Choices(fields)
      else if TypeName(fields) == "string" then STRINGS
      else if TypeName(fields) == "integer" then INTEGERS
      else if TypeName(fields) == "number" then NUMBERS
      else if TypeName(fields) == "boolean" then BOOLEANS
      else if TypeName(fields) == "null" then iset{Null}
      else if TypeName(fields) == "array" then
        var i := Find(fields, "items");
        if i >= 0 then ArrayOf(Lang(ext, fields[i].value))
        else iset t: Json | t in ArrayOf(ANY_JSON) && ext(schema, t)
      else if TypeName(fields) == "object" then
        var i := Find(fields, "properties");
        if i >= 0 && fields[i].value.Obj? then
          var props := PropLangs(ext, fields[i].value.fields);
          ObjectOf(Select(props, Required(fields), true), Select(props, Required(fields), false))
        else iset t: Json | t in ANY_OBJECT && ext(schema, t)
      else iset t: Json | WellFormed(t) && ext(schema, t)
  }

  ghost function PropLangs(ext: Meaning, fields: seq<Field>): (r: seq<Prop>)
    ensures |r| == |fields|
    ensures forall i :: 0 <= i < |fields| ==> r[i] == Prop(fields[i].key, Lang(ext, fields[i].value))
    decreases fields, 0
  {
    if fields == [] then [] else [Prop(fields[0].key, Lang(ext, fields[0].value))] + PropLangs(ext, fields[1..])
  }

  /** The compiler has to widen this schema: some part lies outside the supported subset. */
  predicate Widens(schema: Json)
    decreases schema, 1
  {
    if !schema.Obj? then true
    else
      var fields := schema.fields;
      if Choices(fields) != [] then false
      else if TypeName(fields) in ["string", "integer", "number", "boolean", "null"] then false
      else if TypeName(fields) == "array" then
        var i := Find(fields, "items");
        if i >= 0 then Widens(fields[i].value) else true
      else if TypeName(fields) == "object" then
        var i := Find(fields, "properties");
        if i >= 0 && fields[i].value.Obj? then AnyWidens(fields[i].value.fields) else true
      else true
  }

  predicate AnyWidens(fields: seq<Field>)
    decreases fields, 0
  {
    fields != [] && (Widens(fields[0].value) || AnyWidens(fields[1..]))
  }

  // ----- widening loses nothing, and without it nothing is gained -----

  ghost predicate PropsWithin(a: seq<Prop>, b: seq<Prop>)
  {
    |a| == |b| && forall i :: 0 <= i < |a| ==> a[i].key == b[i].key && a[i].lang <= b[i].lang
  }

  lemma {:induction false} SubsequenceMono(a: seq<Prop>, b: seq<Prop>, fs: seq<Field>)
    requires PropsWithin(a, b) && Subsequence(a, fs)
    ensures Subsequence(b, fs)
    decreases |a|
  {
    if a != [] {
      if Subsequence(a[1..], fs) {
        SubsequenceMono(a[1..], b[1..], fs);
      } else {
        SubsequenceMono(a[1..], b[1..], fs[1..]);
      }
    }
  }

  lemma {:induction false} LayoutMono(ra: seq<Prop>, rb: seq<Prop>, oa: seq<Prop>, ob: seq<Prop>, fs: seq<Field>)
    requires PropsWithin(ra, rb) && PropsWithin(oa, ob) && Layout(ra, oa, fs)
    ensures Layout(rb, ob, fs)
    decreases |ra|
  {
    if ra == [] {
      SubsequenceMono(oa, ob, fs);
    } else {
      LayoutMono(ra[1..], rb[1..], oa, ob, fs[1..]);
    }
  }

  lemma {:induction false} SelectMono(a: seq<Prop>, b: seq<Prop>, required: seq<string>, wanted: bool)
    requires PropsWithin(a, b)
    ensures PropsWithin(Select(a, required, wanted), Select(b, required, wanted))
  {
    if a != [] {
      var n := |a| - 1;
      SelectMono(a[..n], b[..n], required, wanted);
    }
  }

  lemma {:induction false} ObjectMono(a: seq<Prop>, b: seq<Prop>, required: seq<string>)
    requires PropsWithin(a, b)
    ensures ObjectOf(Select(a, required, true), Select(a, required, false)) <=
            ObjectOf(Select(b, required, true), Select(b, required, false))
  {
    hide Select, Layout;
    SelectMono(a, b, required, true);
    SelectMono(a, b, required, false);
    forall t | t in ObjectOf(Select(a, required, true), Select(a, required, false))
      ensures t in ObjectOf(Select(b, required, true), Select(b, required, false))
    {
      LayoutMono(Select(a, required, true), Select(b, required, true), Select(a, required, false),
                 Select(b, required, false), t.fields);
    }
  }

  /** A tree that conforms under any meaning of the unsupported parts is still admitted after widening. */
  lemma {:induction false} WideningKeeps(ext: Meaning, schema: Json)
    ensures Lang(ext, schema) <= Lang(ANYTHING, schema)
    decreases schema, 1
  {
    hide Choices, TypeName, Required, Select, PropLangs, Layout, WellFormed, Find;
    if schema.Obj? && Choices(schema.fields) == [] {
      var fields := schema.fields;
      if TypeName(fields) == "array" {
        var i := Find(fields, "items");
        if i >= 0 { WideningKeeps(ext, fields[i].value); }
      } else if TypeName(fields) == "object" {
        var i := Find(fields, "properties");
        if i >= 0 && fields[i].value.Obj? {
          var ps := fields[i].value.fields;
          WideningKeepsAll(ext, ps);
          ObjectMono(PropLangs(ext, ps), PropLangs(ANYTHING, ps), Required(fields));
        }
      }
    }
  }

  lemma {:induction false} WideningKeepsAll(ext: Meaning, fields: seq<Field>)
    ensures PropsWithin(PropLangs(ext, fields), PropLangs(ANYTHING, fields))
    decreases fields, 0
  {
    forall i | 0 <= i < |fields|
      ensures Lang(ext, fields[i].value) <= Lang(ANYTHING, fields[i].value)
    {
      WideningKeeps(ext, fields[i].value);
    }
  }

  /** A schema that needs no widening has one meaning, whatever the unsupported schemas mean. */
  lemma {:induction false} UnwidenedIsExact(ext: Meaning, schema: Json)
    requires !Widens(schema)
    ensures Lang(ext, schema) == Lang(ANYTHING, schema)
    decreases schema, 1
  {
    if schema.Obj? && Choices(schema.fields) == [] {
      var fields := schema.fields;
      if TypeName(fields) == "array" {
        UnwidenedIsExact(ext, fields[Find(fields, "items")].value);
      } else if TypeName(fields) == "object" {
        UnwidenedProps(ext, fields[Find(fields, "properties")].value.fields);
      }
    }
  }

  lemma {:induction false} UnwidenedProps(ext: Meaning, fields: seq<Field>)
    requires !AnyWidens(fields)
    ensures PropLangs(ext, fields) == PropLangs(ANYTHING, fields)
    decreases fields, 0
  {
    if fields != [] {
      UnwidenedIsExact(ext, fields[0].value);
      UnwidenedProps(ext, fields[1..]);
    }
  }
}
