/** What defanging does to a text, said without the scan: which pieces stay, and what stands between them. */
module Defanging {
  import Lexemes
  import opened Provenance

  // ----- a text cut into kept pieces and hits -----

  datatype Cut = Cut(kept: string, hit: string)

  function Joined(cuts: seq<Cut>, last: string): string
  {
    if cuts == [] then last else cuts[0].kept + (cuts[0].hit + Joined(cuts[1..], last))
  }

  /** The same pieces with the mark in place of every hit. */
  function Marked(cuts: seq<Cut>, last: string, mark: string): string
  {
    if cuts == [] then last else cuts[0].kept + (mark + Marked(cuts[1..], last, mark))
  }

  /** One of the patterns starts here. */
  ghost predicate Starts(text: string, k: nat, ps: seq<string>, fold: bool)
  {
    exists n :: 0 <= n < |ps| && Matches(text, k, ps[n], fold)
  }

  /** The whole string is one of the patterns, in any case if `fold`. */
  ghost predicate Variant(h: string, ps: seq<string>, fold: bool)
  {
    exists n :: 0 <= n < |ps| && |h| == |ps[n]| && Matches(h, 0, ps[n], fold)
  }

  /** Every hit is a pattern, and no pattern starts inside a kept piece. */
  ghost predicate Clean(cuts: seq<Cut>, last: string, ps: seq<string>, fold: bool)
  {
    if cuts == [] then forall k :: 0 <= k < |last| ==> !Starts(last, k, ps, fold)
    else
      && Variant(cuts[0].hit, ps, fold)
      && (forall k :: 0 <= k < |cuts[0].kept| ==> !Starts(Joined(cuts, last), k, ps, fold))
      && Clean(cuts[1..], last, ps, fold)
  }

  /** `out` is `text` with every pattern replaced by the mark and everything else kept in its place. */
  ghost predicate Replaces(text: string, out: string, ps: seq<string>, fold: bool, mark: string)
  {
    exists cuts, last ::
      Joined(cuts, last) == text && Marked(cuts, last, mark) == out && Clean(cuts, last, ps, fold)
  }

  // ----- the scan does this -----

  /** The scan's hits are the patterns. */
  ghost predicate HitsAre(text: string, hit: Hits, ps: seq<string>, fold: bool)
  {
    forall i :: 0 <= i < |text| ==>
      && i + hit(text, i) <= |text|
      && (hit(text, i) > 0 ==> Variant(text[i..i + hit(text, i)], ps, fold))
      && (hit(text, i) == 0 ==> !Starts(text, i, ps, fold))
  }

  lemma {:induction false} MatchesSuffix(text: string, i: nat, k: nat, p: string, fold: bool)
    requires i <= |text|
    ensures Matches(text[i..], k, p, fold) <==> Matches(text, i + k, p, fold)
  {
    assert text == text[..i] + text[i..];
    MatchesRight(text[..i], text[i..], i + k, p, fold);
  }

  lemma {:induction false} StartsSuffix(text: string, i: nat, k: nat, ps: seq<string>, fold: bool)
    requires i <= |text|
    ensures Starts(text[i..], k, ps, fold) <==> Starts(text, i + k, ps, fold)
  {
    hide Matches;
    forall n | 0 <= n < |ps|
      ensures Matches(text[i..], k, ps[n], fold) <==> Matches(text, i + k, ps[n], fold)
    {
      MatchesSuffix(text, i, k, ps[n], fold);
    }
  }

  /** A character where no pattern starts joins the first kept piece. */
  lemma {:induction false} KeepOne(x: char, cuts: seq<Cut>, last: string, ps: seq<string>, fold: bool, mark: string)
    returns (more: seq<Cut>, end: string)
    requires Clean(cuts, last, ps, fold) && !Starts([x] + Joined(cuts, last), 0, ps, fold)
    ensures Joined(more, end) == [x] + Joined(cuts, last) && Marked(more, end, mark) == [x] + Marked(cuts, last, mark)
    ensures Clean(more, end, ps, fold)
  {
    hide Starts, Variant;
    var text := Joined(cuts, last);
    forall k: nat
      ensures Starts(text, k, ps, fold) <==> Starts([x] + text, k + 1, ps, fold)
    {
      StartsSuffix([x] + text, 1, k, ps, fold);
      assert ([x] + text)[1..] == text;
    }
    if cuts == [] {
      more, end := [], [x] + last;
      assert forall k :: 0 < k < |end| ==> Starts(last, k - 1, ps, fold) == Starts(end, k, ps, fold);
    } else {
      var first := Cut([x] + cuts[0].kept, cuts[0].hit);
      more, end := [first] + cuts[1..], last;
      assert more[1..] == cuts[1..];
      assert Joined(more, end) == [x] + text;
      assert forall k :: 0 < k < |first.kept| ==> Starts(text, k - 1, ps, fold) == Starts([x] + text, k, ps, fold);
      assert Marked(more, end, mark) == [x] + Marked(cuts, last, mark);
    }
  }

  lemma {:induction false} ScanReplaces(text: string, hit: Hits, ps: seq<string>, fold: bool, mark: string, i: nat)
    returns (cuts: seq<Cut>, last: string)
    requires InRange(text, hit) && HitsAre(text, hit, ps, fold) && i <= |text|
    ensures Joined(cuts, last) == text[i..] && Marked(cuts, last, mark) == Rewrite(text, hit, mark, i)
    ensures Clean(cuts, last, ps, fold)
    decreases |text| - i
  {
    hide Starts, Variant;
    if i == |text| {
      cuts, last := [], "";
    } else if hit(text, i) > 0 {
      var n := hit(text, i);
      var rest, end := ScanReplaces(text, hit, ps, fold, mark, i + n);
      cuts, last := [Cut("", text[i..i + n])] + rest, end;
      assert cuts[1..] == rest;
      assert text[i..] == "" + (text[i..i + n] + text[i + n..]);
      assert Marked(cuts, last, mark) == "" + (mark + Marked(rest, end, mark)) == mark + Marked(rest, end, mark);
    } else {
      var rest, end := ScanReplaces(text, hit, ps, fold, mark, i + 1);
      assert text[i..] == [text[i]] + text[i + 1..];
      StartsSuffix(text, i, 0, ps, fold);
      cuts, last := KeepOne(text[i], rest, end, ps, fold, mark);
    }
  }

  // ----- and nothing else does -----

  /** No two patterns start at one place. */
  ghost predicate Exclusive(ps: seq<string>)
  {
    && (forall n :: 0 <= n < |ps| ==> ps[n] != "")
    && forall m, n :: 0 <= m < |ps| && 0 <= n < |ps| && m != n ==>
         exists k :: 0 <= k < |ps[m]| && k < |ps[n]| && ps[m][k] != ps[n][k]
  }

  lemma {:induction false} FirstHit(cuts: seq<Cut>, last: string, ps: seq<string>, fold: bool)
    requires cuts != [] && Clean(cuts, last, ps, fold)
    ensures Starts(Joined(cuts, last), |cuts[0].kept|, ps, fold)
  {
    var text, h := Joined(cuts, last), cuts[0].hit;
    var n :| 0 <= n < |ps| && |h| == |ps[n]| && Matches(h, 0, ps[n], fold);
    var rest := Joined(cuts[1..], last);
    MatchesRight(cuts[0].kept, h + rest, |cuts[0].kept|, ps[n], fold);
    MatchesLeft(h, rest, 0, ps[n], fold);
    assert Matches(text, |cuts[0].kept|, ps[n], fold);
  }

  lemma {:induction false} SamePattern(text: string, at: nat, ps: seq<string>, fold: bool, m: nat, n: nat)
    requires Exclusive(ps) && m < |ps| && n < |ps| && Matches(text, at, ps[m], fold) && Matches(text, at, ps[n], fold)
    ensures m == n
  {
    assert forall k :: 0 <= k < |ps[m]| && k < |ps[n]| ==> Fold(text[at + k], fold) == ps[m][k] == ps[n][k];
  }

  /** Two hits that begin the same text are equal. */
  lemma {:induction false} SameHit(a: string, x: string, b: string, y: string, ps: seq<string>, fold: bool)
    requires Exclusive(ps) && Variant(a, ps, fold) && Variant(b, ps, fold) && a + x == b + y
    ensures a == b && x == y
  {
    var m :| 0 <= m < |ps| && |a| == |ps[m]| && Matches(a, 0, ps[m], fold);
    var n :| 0 <= n < |ps| && |b| == |ps[n]| && Matches(b, 0, ps[n], fold);
    MatchesLeft(a, x, 0, ps[m], fold);
    MatchesLeft(b, y, 0, ps[n], fold);
    SamePattern(a + x, 0, ps, fold, m, n);
    assert (a + x)[..|a|] == a && (b + y)[..|a|] == b && (a + x)[|a|..] == x && (b + y)[|a|..] == y;
  }

  lemma {:induction false} CutsUnique(cuts: seq<Cut>, last: string, other: seq<Cut>, end: string, ps: seq<string>,
                                      fold: bool)
    requires Exclusive(ps) && Clean(cuts, last, ps, fold) && Clean(other, end, ps, fold)
    requires Joined(cuts, last) == Joined(other, end)
    ensures cuts == other && last == end
    decreases |cuts|
  {
    hide Starts, Variant, Exclusive;
    var text := Joined(cuts, last);
    if cuts != [] { FirstHit(cuts, last, ps, fold); }
    if other != [] { FirstHit(other, end, ps, fold); }
    if cuts != [] && other != [] {
      var a, b := cuts[0], other[0];
      var x, y := Joined(cuts[1..], last), Joined(other[1..], end);
      assert |a.kept| == |b.kept|;
      assert text[..|a.kept|] == a.kept && text[..|a.kept|] == b.kept;
      assert text[|a.kept|..] == a.hit + x && text[|a.kept|..] == b.hit + y;
      SameHit(a.hit, x, b.hit, y, ps, fold);
      CutsUnique(cuts[1..], last, other[1..], end, ps, fold);
      assert cuts == [a] + cuts[1..] && other == [b] + other[1..];
    } else if cuts != [] {
      NonEmptyHit(cuts, last, ps, fold);
    } else if other != [] {
      NonEmptyHit(other, end, ps, fold);
    }
  }

  lemma {:induction false} NonEmptyHit(cuts: seq<Cut>, last: string, ps: seq<string>, fold: bool)
    requires Exclusive(ps) && cuts != [] && Clean(cuts, last, ps, fold)
    ensures |cuts[0].kept| < |Joined(cuts, last)|
  {
  }

  /** At most one text comes of replacing. */
  lemma {:induction false} ReplacesOnce(text: string, out: string, other: string, ps: seq<string>, fold: bool,
                                        mark: string)
    requires Exclusive(ps) && Replaces(text, out, ps, fold, mark) && Replaces(text, other, ps, fold, mark)
    ensures out == other
  {
    hide Joined, Marked, Clean;
    var cuts, last :| Joined(cuts, last) == text && Marked(cuts, last, mark) == out && Clean(cuts, last, ps, fold);
    var more, end :| Joined(more, end) == text && Marked(more, end, mark) == other && Clean(more, end, ps, fold);
    CutsUnique(cuts, last, more, end, ps, fold);
  }

  // ----- the four passes -----

  function NoncePatterns(nonce: string): seq<string>
  {
    if nonce == "" then [] else [nonce]
  }

  function TagPatterns(name: string): seq<string>
  {
    ["<" + name, "</" + name]
  }

  lemma {:induction false} NonceReplaced(text: string, nonce: string)
    ensures Replaces(text, StripNonce(text, nonce), NoncePatterns(nonce), false, NONCE_MARK)
    ensures Exclusive(NoncePatterns(nonce))
  {
    HitsInRange(text, nonce, "");
    var ps := NoncePatterns(nonce);
    forall i | 0 <= i < |text| && nonce != "" && Matches(text, i, nonce, false)
      ensures Variant(text[i..i + |nonce|], ps, false)
    {
      assert Matches(text[i..i + |nonce|], 0, ps[0], false);
    }
    assert nonce != "" ==> ps[0] == nonce;
    var cuts, last := ScanReplaces(text, NonceHit(nonce), ps, false, NONCE_MARK, 0);
    assert text[0..] == text;
  }

  lemma {:induction false} TagHits(text: string, name: string)
    requires name != "" && name[0] != '/'
    ensures HitsAre(text, TagHit(name), TagPatterns(name), true)
  {
    var ps := TagPatterns(name);
    assert ps[0] == "<" + name && ps[1] == "</" + name;
    forall i | 0 <= i < |text|
      ensures var n := TagHit(name)(text, i);
              && i + n <= |text| && (n > 0 ==> Variant(text[i..i + n], ps, true))
              && (n == 0 ==> !Starts(text, i, ps, true))
    {
      if Matches(text, i, ps[1], true) {
        assert Matches(text[i..i + |ps[1]|], 0, ps[1], true);
      } else if Matches(text, i, ps[0], true) {
        assert Matches(text[i..i + |ps[0]|], 0, ps[0], true);
      }
    }
  }

  lemma {:induction false} TagReplaced(text: string, name: string)
    requires name != "" && name[0] != '/'
    ensures Replaces(text, StripTag(text, name), TagPatterns(name), true, TAG_MARK)
  {
    hide TagHit, HitsAre, TagPatterns;
    HitsInRange(text, "", name);
    TagHits(text, name);
    var cuts, last := ScanReplaces(text, TagHit(name), TagPatterns(name), true, TAG_MARK, 0);
    assert text[0..] == text;
  }

  lemma {:induction false} TagsExclusive(name: string)
    requires name != "" && name[0] != '/'
    ensures Exclusive(TagPatterns(name))
  {
    var ps := TagPatterns(name);
    assert ps[0][1] == name[0] && ps[1][1] == '/';
  }

  /** One text after another: the nonce replaced, then the opening and closing names, in any case, of each marker. */
  ghost predicate DefangedBy(text: string, nonce: string, a: string, b: string, c: string, out: string)
  {
    && Replaces(text, a, NoncePatterns(nonce), false, "[nonce removed]")
    && Replaces(a, b, TagPatterns("policy"), true, "[marker removed]")
    && Replaces(b, c, TagPatterns("from-app"), true, "[marker removed]")
    && Replaces(c, out, TagPatterns("tool-output"), true, "[marker removed]")
  }

  /** Defanging replaces exactly the nonce and the marker names and keeps everything else where it was. */
  lemma {:induction false} DefangExact(text: string, nonce: string, out: string)
    ensures out == Defang(text, nonce) <==> exists a, b, c :: DefangedBy(text, nonce, a, b, c, out)
  {
    hide Replaces, StripNonce, StripTag, Exclusive, NoncePatterns, TagPatterns;
    var p := StripNonce(text, nonce);
    var q := StripTag(p, NAMES[0]);
    var r := StripTag(q, NAMES[1]);
    var s := StripTag(r, NAMES[2]);
    NonceReplaced(text, nonce);
    TagReplaced(p, NAMES[0]);
    TagReplaced(q, NAMES[1]);
    TagReplaced(r, NAMES[2]);
    TagsExclusive(NAMES[0]);
    TagsExclusive(NAMES[1]);
    TagsExclusive(NAMES[2]);
    assert DefangedBy(text, nonce, p, q, r, s);
    if a, b, c :| DefangedBy(text, nonce, a, b, c, out) {
      ReplacesOnce(text, p, a, NoncePatterns(nonce), false, NONCE_MARK);
      ReplacesOnce(p, q, b, TagPatterns(NAMES[0]), true, TAG_MARK);
      ReplacesOnce(q, r, c, TagPatterns(NAMES[1]), true, TAG_MARK);
      ReplacesOnce(r, s, out, TagPatterns(NAMES[2]), true, TAG_MARK);
    }
  }

  // ----- case -----

  /** Folding takes each of the twenty-six capitals to its small letter and leaves every other character. */
  lemma {:induction false} FoldsCapitals(c: char, k: nat)
    requires k < 26
    ensures Fold(Lexemes.CAPITAL[k], true) == Lexemes.SMALL[k] && Fold(c, false) == c
    ensures c !in Lexemes.CAPITAL ==> Fold(c, true) == c
  {
    Lexemes.Alphabet(k);
    Lexemes.LetterExact(c);
  }
}
