/** The tokens of a tree determine the tree: printing is injective, even with more tokens after it. */
module JsonPrinting {
  import opened Json

  /** The first token of a tree. */
  function Head(t: Json): Token
  {
    match t
    case Null => NullTok
    case Bool(b) => if b then TrueTok else FalseTok
    case Num(text) => NumTok(text)
    case Str(s) => StrTok(s)
    case Arr(_) => LBracket
    case Obj(_) => LBrace
  }

  lemma {:induction false} HeadFirst(t: Json, x: Tokens)
    ensures Print(t) != [] && (Print(t) + x)[0] == Head(t)
    ensures Head(t) !in [RBracket, RBrace, Comma, Colon]
  {
    hide Commas, PrintItems, PrintFields;
  }

  lemma {:induction false} ScalarPrint(t: Json, x: Tokens)
    requires !t.Arr? && !t.Obj?
    ensures (Print(t) + x)[1..] == x
  {
    assert |Print(t)| == 1;
  }

  lemma {:induction false} ArrayPrint(items: seq<Json>, x: Tokens)
    ensures (Print(Arr(items)) + x)[1..] == Commas(PrintItems(items)) + ([RBracket] + x)
  {
    hide Commas, PrintItems;
    var c := Commas(PrintItems(items));
    assert Print(Arr(items)) + x == [LBracket] + (c + ([RBracket] + x));
  }

  lemma {:induction false} ObjectPrint(fields: seq<Field>, x: Tokens)
    ensures (Print(Obj(fields)) + x)[1..] == Commas(PrintFields(fields)) + ([RBrace] + x)
  {
    hide Commas, PrintFields;
    var c := Commas(PrintFields(fields));
    assert Print(Obj(fields)) + x == [LBrace] + (c + ([RBrace] + x));
  }

  // ----- lists of pieces -----

  lemma {:induction false} TailStep(pieces: seq<Tokens>, z: Tokens)
    requires pieces != []
    ensures CommaTail(pieces) + z == [Comma] + (pieces[0] + (CommaTail(pieces[1..]) + z))
    ensures (CommaTail(pieces) + z)[0] == Comma
  {
    hide CommaTail;
    TailIs(pieces);
  }

  lemma {:induction false} TailIs(pieces: seq<Tokens>)
    requires pieces != []
    ensures CommaTail(pieces) == [Comma] + pieces[0] + CommaTail(pieces[1..])
  {
  }

  lemma {:induction false} CommasStep(pieces: seq<Tokens>, z: Tokens)
    requires pieces != []
    ensures Commas(pieces) + z == pieces[0] + (CommaTail(pieces[1..]) + z)
    ensures pieces[0] != [] ==> (Commas(pieces) + z)[0] == pieces[0][0]
  {
    hide CommaTail;
  }

  lemma {:induction false} NoPieces(z: Tokens)
    ensures CommaTail([]) + z == z && Commas([]) + z == z
  {
  }

  lemma {:induction false} StripOne(a: Token, x: Tokens, y: Tokens)
    requires [a] + x == [a] + y
    ensures x == y
  {
    assert ([a] + x)[1..] == x && ([a] + y)[1..] == y;
  }

  lemma {:induction false} ItemsTail(items: seq<Json>)
    requires items != []
    ensures PrintItems(items) != [] && PrintItems(items)[0] == Print(items[0])
    ensures PrintItems(items)[1..] == PrintItems(items[1..])
  {
    hide Print;
  }

  lemma {:induction false} FieldsTail(fields: seq<Field>)
    requires fields != []
    ensures PrintFields(fields) != []
    ensures PrintFields(fields)[0] == [StrTok(fields[0].key), Colon] + Print(fields[0].value)
    ensures PrintFields(fields)[1..] == PrintFields(fields[1..])
  {
    hide Print;
  }

  // ----- a printing determines its tree -----

  lemma {:induction false} PrintUnique(a: Json, b: Json, x: Tokens, y: Tokens)
    requires Print(a) + x == Print(b) + y
    ensures a == b && x == y
    decreases a, 1
  {
    hide Print, PrintItems, PrintFields, Commas, CommaTail;
    HeadFirst(a, x);
    HeadFirst(b, y);
    match a
    case Arr(items) =>
      ArrayPrint(items, x);
      ArrayPrint(b.items, y);
      ItemsUnique(items, b.items, x, y);
    case Obj(fields) =>
      ObjectPrint(fields, x);
      ObjectPrint(b.fields, y);
      FieldsUnique(fields, b.fields, x, y);
    case _ =>
      ScalarPrint(a, x);
      ScalarPrint(b, y);
  }

  lemma {:induction false} ItemsUnique(a: seq<Json>, b: seq<Json>, x: Tokens, y: Tokens)
    requires Commas(PrintItems(a)) + ([RBracket] + x) == Commas(PrintItems(b)) + ([RBracket] + y)
    ensures a == b && x == y
    decreases a, 1
  {
    hide Print, PrintItems, Commas, CommaTail;
    var ex, ey := [RBracket] + x, [RBracket] + y;
    assert ex[0] == RBracket && ey[0] == RBracket;
    NoItems();
    NoPieces(ex);
    NoPieces(ey);
    if a != [] {
      ItemsTail(a);
      CommasStep(PrintItems(a), ex);
      HeadFirst(a[0], CommaTail(PrintItems(a[1..])) + ex);
    }
    if b != [] {
      ItemsTail(b);
      CommasStep(PrintItems(b), ey);
      HeadFirst(b[0], CommaTail(PrintItems(b[1..])) + ey);
    }
    if a != [] && b != [] {
      PrintUnique(a[0], b[0], CommaTail(PrintItems(a[1..])) + ex, CommaTail(PrintItems(b[1..])) + ey);
      ItemTailUnique(a[1..], b[1..], x, y);
      assert a == [a[0]] + a[1..] && b == [b[0]] + b[1..];
    } else if a == [] && b == [] {
      StripOne(RBracket, x, y);
    }
  }

  lemma {:induction false} NoItems()
    ensures PrintItems([]) == [] && PrintFields([]) == []
  {
  }

  lemma {:induction false} ItemTailUnique(a: seq<Json>, b: seq<Json>, x: Tokens, y: Tokens)
    requires CommaTail(PrintItems(a)) + ([RBracket] + x) == CommaTail(PrintItems(b)) + ([RBracket] + y)
    ensures a == b && x == y
    decreases a, 0
  {
    hide Print, PrintItems, Commas, CommaTail;
    var ex, ey := [RBracket] + x, [RBracket] + y;
    assert ex[0] == RBracket && ey[0] == RBracket;
    NoItems();
    NoPieces(ex);
    NoPieces(ey);
    if a != [] {
      ItemsTail(a);
      TailStep(PrintItems(a), ex);
    }
    if b != [] {
      ItemsTail(b);
      TailStep(PrintItems(b), ey);
    }
    if a != [] && b != [] {
      var ra, rb := CommaTail(PrintItems(a[1..])) + ex, CommaTail(PrintItems(b[1..])) + ey;
      StripOne(Comma, Print(a[0]) + ra, Print(b[0]) + rb);
      PrintUnique(a[0], b[0], ra, rb);
      ItemTailUnique(a[1..], b[1..], x, y);
      assert a == [a[0]] + a[1..] && b == [b[0]] + b[1..];
    } else if a == [] && b == [] {
      StripOne(RBracket, x, y);
    }
  }

  /** A field is its key, a colon and its value. */
  lemma {:induction false} FieldUnique(a: Field, b: Field, x: Tokens, y: Tokens)
    requires ([StrTok(a.key), Colon] + Print(a.value)) + x == ([StrTok(b.key), Colon] + Print(b.value)) + y
    ensures a == b && x == y
    decreases a, 0
  {
    hide Print;
    var s := ([StrTok(a.key), Colon] + Print(a.value)) + x;
    var t := ([StrTok(b.key), Colon] + Print(b.value)) + y;
    assert s[0] == StrTok(a.key) && t[0] == StrTok(b.key);
    assert s[2..] == Print(a.value) + x && t[2..] == Print(b.value) + y;
    PrintUnique(a.value, b.value, x, y);
  }

  lemma {:induction false} FieldsUnique(a: seq<Field>, b: seq<Field>, x: Tokens, y: Tokens)
    requires Commas(PrintFields(a)) + ([RBrace] + x) == Commas(PrintFields(b)) + ([RBrace] + y)
    ensures a == b && x == y
    decreases a, 1
  {
    hide Print, PrintFields, Commas, CommaTail;
    var ex, ey := [RBrace] + x, [RBrace] + y;
    assert ex[0] == RBrace && ey[0] == RBrace;
    NoItems();
    NoPieces(ex);
    NoPieces(ey);
    if a != [] {
      FieldsTail(a);
      CommasStep(PrintFields(a), ex);
    }
    if b != [] {
      FieldsTail(b);
      CommasStep(PrintFields(b), ey);
    }
    if a != [] && b != [] {
      FieldUnique(a[0], b[0], CommaTail(PrintFields(a[1..])) + ex, CommaTail(PrintFields(b[1..])) + ey);
      FieldTailUnique(a[1..], b[1..], x, y);
      assert a == [a[0]] + a[1..] && b == [b[0]] + b[1..];
    } else if a == [] && b == [] {
      StripOne(RBrace, x, y);
    }
  }

  lemma {:induction false} FieldTailUnique(a: seq<Field>, b: seq<Field>, x: Tokens, y: Tokens)
    requires CommaTail(PrintFields(a)) + ([RBrace] + x) == CommaTail(PrintFields(b)) + ([RBrace] + y)
    ensures a == b && x == y
    decreases a, 0
  {
    hide Print, PrintFields, Commas, CommaTail;
    var ex, ey := [RBrace] + x, [RBrace] + y;
    assert ex[0] == RBrace && ey[0] == RBrace;
    NoItems();
    NoPieces(ex);
    NoPieces(ey);
    if a != [] {
      FieldsTail(a);
      TailStep(PrintFields(a), ex);
    }
    if b != [] {
      FieldsTail(b);
      TailStep(PrintFields(b), ey);
    }
    if a != [] && b != [] {
      var ra, rb := CommaTail(PrintFields(a[1..])) + ex, CommaTail(PrintFields(b[1..])) + ey;
      StripOne(Comma, PrintFields(a)[0] + ra, PrintFields(b)[0] + rb);
      FieldUnique(a[0], b[0], ra, rb);
      FieldTailUnique(a[1..], b[1..], x, y);
      assert a == [a[0]] + a[1..] && b == [b[0]] + b[1..];
    } else if a == [] && b == [] {
      StripOne(RBrace, x, y);
    }
  }

  /** No two trees are written with the same tokens. */
  lemma {:induction false} PrintInjective(a: Json, b: Json)
    requires Print(a) == Print(b)
    ensures a == b
  {
    hide Print;
    assert Print(a) + [] == Print(a) && Print(b) + [] == Print(b);
    PrintUnique(a, b, [], []);
  }
}
