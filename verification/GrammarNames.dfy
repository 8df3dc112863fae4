/** The names of generated rules as text: no two rules get the same one. */
module GrammarNames {
  import opened Json

  function Digit(d: nat): char
    requires d < 10
  {
    '0' + d as char
  }

  /** A number in decimal, as `format!` writes it. */
  function Decimal(n: nat): (s: string)
    ensures s != "" && forall i :: 0 <= i < |s| ==> '0' <= s[i] <= '9'
  {
    if n < 10 then [Digit(n)] else Decimal(n / 10) + [Digit(n % 10)]
  }

  lemma {:induction false} DecimalInjective(a: nat, b: nat)
    requires Decimal(a) == Decimal(b)
    ensures a == b
  {
    var s := Decimal(a);
    DecimalLength(a);
    DecimalLength(b);
    if a >= 10 {
      assert s[..|s| - 1] == Decimal(a / 10) && s[..|s| - 1] == Decimal(b / 10);
      DecimalInjective(a / 10, b / 10);
      assert s[|s| - 1] == Digit(a % 10) && s[|s| - 1] == Digit(b % 10);
    }
  }

  lemma {:induction false} DecimalLength(n: nat)
    ensures |Decimal(n)| == 1 <==> n < 10
  {
  }

  function KindText(k: Kind): string
  {
    if k.ArrayKind? then "array" else "obj"
  }

  function NameText(n: Name): string
  {
    match n
    case Args(i) => "args-" + Decimal(i)
    case Call(i) => "call-" + Decimal(i)
    case Fresh(i, k, c) => "t" + Decimal(i) + "-" + KindText(k) + "-" + Decimal(c)
    case StringRule => "string"
    case IntegerRule => "integer"
    case NumberRule => "number"
    case BooleanRule => "boolean"
    case ObjectRule => "object"
    case ArrayRule => "array"
    case JsonRule => "json"
  }

  lemma {:induction false} LongerHasIt(a: string, x: string, b: string, y: string, c: char)
    requires a + [c] + x == b + [c] + y && |a| < |b|
    ensures c in b
  {
    var s := a + [c] + x;
    assert s[|a|] == c && s[|a|] == b[|a|];
  }

  /** Two texts cut at a character that neither left part contains have equal parts. */
  lemma {:induction false} CutAt(a: string, x: string, b: string, y: string, c: char)
    requires a + [c] + x == b + [c] + y && c !in a && c !in b
    ensures a == b && x == y
  {
    if |a| < |b| {
      LongerHasIt(a, x, b, y, c);
      assert false;
    } else if |b| < |a| {
      LongerHasIt(b, y, a, x, c);
      assert false;
    }
    var s := a + [c] + x;
    assert s[..|a|] == a && s[..|b|] == b;
    assert s[|a| + 1..] == x && s[|b| + 1..] == y;
  }

  lemma {:induction false} FreshText(i: nat, k: Kind, c: nat)
    ensures NameText(Fresh(i, k, c)) == "t" + (Decimal(i) + ['-'] + (KindText(k) + ['-'] + Decimal(c)))
    ensures '-' !in Decimal(i) && '-' !in KindText(k)
  {
  }

  lemma {:induction false} FreshInjective(a: Name, b: Name)
    requires a.Fresh? && b.Fresh? && NameText(a) == NameText(b)
    ensures a == b
  {
    hide Decimal, NameText, KindText;
    FreshText(a.tool, a.kind, a.n);
    FreshText(b.tool, b.kind, b.n);
    var ta, tb := NameText(a), NameText(b);
    var ra, rb := KindText(a.kind) + ['-'] + Decimal(a.n), KindText(b.kind) + ['-'] + Decimal(b.n);
    assert ta[1..] == Decimal(a.tool) + ['-'] + ra && tb[1..] == Decimal(b.tool) + ['-'] + rb;
    CutAt(Decimal(a.tool), ra, Decimal(b.tool), rb, '-');
    CutAt(KindText(a.kind), Decimal(a.n), KindText(b.kind), Decimal(b.n), '-');
    DecimalInjective(a.tool, b.tool);
    DecimalInjective(a.n, b.n);
    KindsDiffer(a.kind, b.kind);
  }

  lemma {:induction false} KindsDiffer(a: Kind, b: Kind)
    requires KindText(a) == KindText(b)
    ensures a == b
  {
    assert |KindText(ArrayKind)| == 5 && |KindText(ObjectKind)| == 3;
  }

  /** The first two characters tell the families of names apart. */
  lemma {:induction false} Families(n: Name)
    ensures |NameText(n)| >= 2
    ensures n.Fresh? <==> NameText(n)[0] == 't'
    ensures n.Args? <==> NameText(n)[..2] == "ar" && NameText(n) != "array"
    ensures n.Call? <==> NameText(n)[0] == 'c'
  {
    hide Decimal, KindText;
    if n.Args? {
      assert NameText(n)[4] == '-';
    }
  }

  lemma {:induction false} GeneratedInjective(a: Name, b: Name)
    requires NameText(a) == NameText(b)
    ensures a == b
  {
    Families(a);
    Families(b);
    hide Decimal, KindText;
    if a.Fresh? {
      FreshInjective(a, b);
    } else if a.Args? || a.Call? {
      assert NameText(a)[5..] == Decimal(a.tool) && NameText(b)[5..] == Decimal(b.tool);
      DecimalInjective(a.tool, b.tool);
    }
  }

  /** Every rule of the written grammar: those above, the root, and the terminals below the token level. */
  datatype RuleName = Named(name: Name) | Root | Space | Char | Hex

  function RuleText(r: RuleName): string
  {
    match r
    case Named(n) => NameText(n)
    case Root => "root"
    case Space => "ws"
    case Char => "char"
    case Hex => "hex"
  }

  lemma {:induction false} ReservedApart(n: Name)
    ensures NameText(n) !in ["root", "ws", "char", "hex"]
  {
    Families(n);
    hide Decimal, KindText;
    if n.Args? || n.Call? {
      assert NameText(n)[4] == '-';
    }
  }

  /** Distinct rules have distinct names as text, the root and the shared terminals included. */
  lemma {:induction false} NameTextInjective(a: RuleName, b: RuleName)
    requires RuleText(a) == RuleText(b)
    ensures a == b
  {
    hide NameText;
    if a.Named? && b.Named? {
      GeneratedInjective(a.name, b.name);
    } else if a.Named? {
      ReservedApart(a.name);
    } else if b.Named? {
      ReservedApart(b.name);
    } else {
      assert RuleText(Root) == "root" && |RuleText(Space)| == 2 && RuleText(Char) == "char" && |RuleText(Hex)| == 3;
      assert "root"[0] != "char"[0];
    }
  }
}
