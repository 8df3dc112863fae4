/** Provenance marking: defanging what others wrote, and the markers around it. */
module Provenance {
  // ----- matching -----

  function Lower(c: char): char
  {
    if 'A' <= c <= 'Z' then c - 'A' + 'a' else c
  }

  function Fold(c: char, fold: bool): char
  {
    if fold then Lower(c) else c
  }

  /** `p` occurs in `s` at `j`, up to ASCII case if `fold`. */
  predicate Matches(s: string, j: nat, p: string, fold: bool)
  {
    j + |p| <= |s| && forall k :: 0 <= k < |p| ==> Fold(s[j + k], fold) == p[k]
  }

  ghost predicate Contains(s: string, p: string, fold: bool)
  {
    exists j :: Matches(s, j, p, fold)
  }

  // ----- replacing every hit, left to right -----

  /** How long the hit at a position is; zero for none. */
  type Hits = (string, nat) -> nat

  ghost predicate InRange(text: string, hit: Hits)
  {
    forall i :: 0 <= i < |text| ==> i + hit(text, i) <= |text|
  }

  ghost function Rewrite(text: string, hit: Hits, mark: string, i: nat): string
    requires InRange(text, hit) && i <= |text|
    decreases |text| - i
  {
    if i == |text| then ""
    else if hit(text, i) > 0 then mark + Rewrite(text, hit, mark, i + hit(text, i))
    else [text[i]] + Rewrite(text, hit, mark, i + 1)
  }

  lemma {:induction false} HitStartsMark(text: string, hit: Hits, mark: string, i: nat)
    requires InRange(text, hit) && i < |text| && mark != ""
    ensures Rewrite(text, hit, mark, i) != ""
    ensures hit(text, i) > 0 ==> Rewrite(text, hit, mark, i)[0] == mark[0]
  {
  }

  /** A stretch of output without the mark's first character is a stretch of input without hits. */
  lemma {:induction false} PlainStretch(text: string, hit: Hits, mark: string, i: nat, n: nat)
    requires InRange(text, hit) && i <= |text| && mark != ""
    requires n <= |Rewrite(text, hit, mark, i)|
    requires forall k :: 0 <= k < n ==> Rewrite(text, hit, mark, i)[k] != mark[0]
    ensures i + n <= |text|
    ensures forall k :: 0 <= k < n ==> Rewrite(text, hit, mark, i)[k] == text[i + k]
    ensures n > 0 ==> hit(text, i) == 0
    decreases n
  {
    var out := Rewrite(text, hit, mark, i);
    if n > 0 {
      HitStartsMark(text, hit, mark, i);
      var rest := Rewrite(text, hit, mark, i + 1);
      assert out == [text[i]] + rest;
      assert forall k :: 0 <= k < n - 1 ==> rest[k] == out[k + 1];
      PlainStretch(text, hit, mark, i + 1, n - 1);
      forall k | 0 <= k < n
        ensures out[k] == text[i + k]
      {
        if k > 0 { assert out[k] == rest[k - 1]; }
      }
    }
  }

  ghost predicate Avoids(p: string, c: char, fold: bool)
  {
    forall k :: 0 <= k < |p| ==> p[k] != Fold(c, fold)
  }

  lemma {:induction false} MatchesRight(a: string, b: string, j: nat, p: string, fold: bool)
    requires j >= |a|
    ensures Matches(a + b, j, p, fold) <==> Matches(b, j - |a|, p, fold)
  {
  }

  lemma {:induction false} MatchesLeft(a: string, b: string, j: nat, p: string, fold: bool)
    requires j + |p| <= |a|
    ensures Matches(a + b, j, p, fold) <==> Matches(a, j, p, fold)
  {
  }

  /** A match that crosses from `a` into `b` includes the last character of `a`. */
  lemma {:induction false} MatchesAcross(a: string, b: string, j: nat, p: string, fold: bool)
    requires j < |a| < j + |p| && Matches(a + b, j, p, fold)
    ensures !Avoids(p, a[|a| - 1], fold)
  {
    var k := |a| - 1 - j;
    assert Fold((a + b)[j + k], fold) == p[k];
  }

  /** What occurs in the output occurs in the input where there was no hit, or inside the mark. */
  lemma {:induction false} WhereFrom(text: string, hit: Hits, mark: string, i: nat, p: string, fold: bool, j: nat)
    returns (at: nat, inMark: bool)
    requires InRange(text, hit) && i <= |text| && mark != "" && p != ""
    requires Avoids(p, mark[0], fold) && Avoids(p, mark[|mark| - 1], fold)
    requires Matches(Rewrite(text, hit, mark, i), j, p, fold)
    ensures if inMark then Matches(mark, at, p, fold)
            else at < |text| && Matches(text, at, p, fold) && hit(text, at) == 0
    decreases |text| - i
  {
    var out := Rewrite(text, hit, mark, i);
    assert i < |text|;
    if hit(text, i) > 0 {
      var rest := Rewrite(text, hit, mark, i + hit(text, i));
      if j >= |mark| {
        MatchesRight(mark, rest, j, p, fold);
        at, inMark := WhereFrom(text, hit, mark, i + hit(text, i), p, fold, j - |mark|);
      } else if j + |p| <= |mark| {
        MatchesLeft(mark, rest, j, p, fold);
        at, inMark := j, true;
      } else {
        MatchesAcross(mark, rest, j, p, fold);
        assert false;
      }
    } else if j > 0 {
      var rest := Rewrite(text, hit, mark, i + 1);
      MatchesRight([text[i]], rest, j, p, fold);
      at, inMark := WhereFrom(text, hit, mark, i + 1, p, fold, j - 1);
    } else {
      forall k | 0 <= k < |p|
        ensures out[k] != mark[0]
      {
        assert Fold(out[0 + k], fold) == p[k];
      }
      PlainStretch(text, hit, mark, i, |p|);
      forall k | 0 <= k < |p|
        ensures Fold(text[i + k], fold) == p[k]
      {
        assert Fold(out[0 + k], fold) == p[k];
      }
      at, inMark := i, false;
    }
  }

  lemma {:induction false} NoHitsNoChange(text: string, hit: Hits, mark: string, i: nat)
    requires InRange(text, hit) && i <= |text| && forall k :: i <= k < |text| ==> hit(text, k) == 0
    ensures Rewrite(text, hit, mark, i) == text[i..]
    decreases |text| - i
  {
    if i < |text| {
      NoHitsNoChange(text, hit, mark, i + 1);
    }
  }

  // ----- defang -----

  const NONCE_MARK := "[nonce removed]"
  const TAG_MARK := "[marker removed]"
  const NAMES: seq<string> := ["policy", "from-app", "tool-output"]

  function NonceHit(nonce: string): Hits
  {
    (text, i) => if nonce != "" && Matches(text, i, nonce, false) then |nonce| else 0
  }

  function TagHit(name: string): Hits
  {
    (text, i) =>
      if Matches(text, i, "</" + name, true) then |"</" + name|
      else if Matches(text, i, "<" + name, true) then |"<" + name|
      else 0
  }

  lemma {:induction false} HitsInRange(text: string, nonce: string, name: string)
    ensures InRange(text, NonceHit(nonce)) && InRange(text, TagHit(name))
  {
  }

  ghost function StripTag(text: string, name: string): string
  {
    HitsInRange(text, "", name);
    Rewrite(text, TagHit(name), TAG_MARK, 0)
  }

  ghost function StripNonce(text: string, nonce: string): string
  {
    HitsInRange(text, nonce, "");
    Rewrite(text, NonceHit(nonce), NONCE_MARK, 0)
  }

  ghost function Defang(text: string, nonce: string): string
  {
    StripTag(StripTag(StripTag(StripNonce(text, nonce), NAMES[0]), NAMES[1]), NAMES[2])
  }

  /** The loop of `strip_tag` and of the library's `replace`: one position after another. */
  method RewriteLoop(text: string, hit: Hits, mark: string) returns (out: string)
    requires InRange(text, hit)
    ensures out == Rewrite(text, hit, mark, 0)
  {
    out := "";
    var i := 0;
    while i < |text|
      invariant i <= |text|
      invariant out + Rewrite(text, hit, mark, i) == Rewrite(text, hit, mark, 0)
      decreases |text| - i
    {
      ghost var before, at := out, i;
      if hit(text, i) > 0 {
        out := out + mark;
        i := i + hit(text, i);
        assert before + (mark + Rewrite(text, hit, mark, i)) == out + Rewrite(text, hit, mark, i);
      } else {
        out := out + [text[i]];
        i := i + 1;
        assert before + ([text[at]] + Rewrite(text, hit, mark, i)) == out + Rewrite(text, hit, mark, i);
      }
    }
  }

  method DefangText(text: string, nonce: string) returns (out: string)
    ensures out == Defang(text, nonce)
  {
    HitsInRange(text, nonce, "");
    out := RewriteLoop(text, NonceHit(nonce), NONCE_MARK);
    for n := 0 to 3
      invariant n == 0 ==> out == StripNonce(text, nonce)
      invariant n == 1 ==> out == StripTag(StripNonce(text, nonce), NAMES[0])
      invariant n == 2 ==> out == StripTag(StripTag(StripNonce(text, nonce), NAMES[0]), NAMES[1])
      invariant n == 3 ==> out == Defang(text, nonce)
    {
      HitsInRange(out, "", NAMES[n]);
      out := RewriteLoop(out, TagHit(NAMES[n]), TAG_MARK);
    }
  }

  // ----- no marker survives -----

  function OpenTag(name: string): string { "<" + name }
  function CloseTag(name: string): string { "</" + name }

  ghost predicate IsTag(p: string)
  {
    exists n :: 0 <= n < 3 && (p == OpenTag(NAMES[n]) || p == CloseTag(NAMES[n]))
  }

  lemma {:induction false} TagsAvoidMarks(p: string)
    requires IsTag(p)
    ensures p != "" && p[0] == '<'
    ensures Avoids(p, '[', true) && Avoids(p, ']', true)
    ensures !Contains(TAG_MARK, p, true) && !Contains(NONCE_MARK, p, true)
  {
    forall j: nat
      ensures !Matches(TAG_MARK, j, p, true) && !Matches(NONCE_MARK, j, p, true)
    {
      NeedsFirst(TAG_MARK, j, p, true);
      NeedsFirst(NONCE_MARK, j, p, true);
    }
  }

  lemma {:induction false} NeedsFirst(s: string, j: nat, p: string, fold: bool)
    requires p != "" && forall k :: 0 <= k < |s| ==> Fold(s[k], fold) != p[0]
    ensures !Matches(s, j, p, fold)
  {
    assert j + |p| <= |s| ==> Fold(s[j + 0], fold) != p[0];
  }

  lemma {:induction false} StripTagKeepsClean(text: string, name: string, p: string)
    requires IsTag(p)
    requires !Contains(text, p, true) || p == OpenTag(name) || p == CloseTag(name)
    ensures !Contains(StripTag(text, name), p, true)
  {
    HitsInRange(text, "", name);
    TagsAvoidMarks(p);
    if j :| Matches(StripTag(text, name), j, p, true) {
      var at, inMark := WhereFrom(text, TagHit(name), TAG_MARK, 0, p, true, j);
      assert false;
    }
  }

  /** No text comes out of `defang` with an opening or closing marker name in it, in any case. */
  lemma {:induction false} NoMarkerSurvives(text: string, nonce: string, p: string)
    requires IsTag(p)
    ensures !Contains(Defang(text, nonce), p, true)
  {
    hide StripTag, StripNonce, Contains;
    var a := StripNonce(text, nonce);
    var b := StripTag(a, NAMES[0]);
    var c := StripTag(b, NAMES[1]);
    var n :| 0 <= n < 3 && (p == OpenTag(NAMES[n]) || p == CloseTag(NAMES[n]));
    if n == 0 { StripTagKeepsClean(a, NAMES[0], p); }
    if n <= 1 { StripTagKeepsClean(b, NAMES[1], p); }
    StripTagKeepsClean(c, NAMES[2], p);
  }

  // ----- nor does the nonce -----

  predicate HexDigit(c: char)
  {
    '0' <= c <= '9' || 'a' <= c <= 'f'
  }

  predicate Hex(s: string)
  {
    s != "" && forall k :: 0 <= k < |s| ==> HexDigit(s[k])
  }

  lemma {:induction false} StripTagKeepsNonce(text: string, name: string, nonce: string)
    requires Hex(nonce) && !Contains(text, nonce, false) && !Contains(TAG_MARK, nonce, false)
    ensures !Contains(StripTag(text, name), nonce, false)
  {
    HitsInRange(text, "", name);
    if j :| Matches(StripTag(text, name), j, nonce, false) {
      var at, inMark := WhereFrom(text, TagHit(name), TAG_MARK, 0, nonce, false, j);
      assert false;
    }
  }

  lemma {:induction false} NonceStripped(text: string, nonce: string)
    requires Hex(nonce) && !Contains(NONCE_MARK, nonce, false)
    ensures !Contains(StripNonce(text, nonce), nonce, false)
  {
    HitsInRange(text, nonce, "");
    if j :| Matches(StripNonce(text, nonce), j, nonce, false) {
      var at, inMark := WhereFrom(text, NonceHit(nonce), NONCE_MARK, 0, nonce, false, j);
      assert false;
    }
  }

  /** The nonce is not a piece of the daemon's own replacement texts. */
  ghost predicate GoodNonce(nonce: string)
  {
    !Contains(NONCE_MARK, nonce, false) && !Contains(TAG_MARK, nonce, false)
  }

  lemma {:induction false} GoodNonceStripped(text: string, nonce: string)
    requires Hex(nonce) && GoodNonce(nonce)
    ensures !Contains(Defang(text, nonce), nonce, false)
  {
    hide StripTag, StripNonce, Contains, Hex;
    NonceStripped(text, nonce);
    var a := StripNonce(text, nonce);
    var b := StripTag(a, NAMES[0]);
    StripTagKeepsNonce(a, NAMES[0], nonce);
    StripTagKeepsNonce(b, NAMES[1], nonce);
    StripTagKeepsNonce(StripTag(b, NAMES[1]), NAMES[2], nonce);
  }

  lemma {:induction false} NoNonceNoHit(text: string, nonce: string)
    requires !Contains(text, nonce, false)
    ensures StripNonce(text, nonce) == text
  {
    HitsInRange(text, nonce, "");
    NoHitsNoChange(text, NonceHit(nonce), NONCE_MARK, 0);
  }

  lemma {:induction false} NoTagNoHit(text: string, name: string)
    requires !Contains(text, OpenTag(name), true) && !Contains(text, CloseTag(name), true)
    ensures StripTag(text, name) == text
  {
    HitsInRange(text, "", name);
    NoHitsNoChange(text, TagHit(name), TAG_MARK, 0);
  }

  /** Text without the nonce and without markers is left alone. */
  lemma {:induction false} CleanIsUntouched(text: string, nonce: string)
    requires !Contains(text, nonce, false) && forall p :: IsTag(p) ==> !Contains(text, p, true)
    ensures Defang(text, nonce) == text
  {
    hide StripTag, StripNonce, Contains;
    NoNonceNoHit(text, nonce);
    forall n | 0 <= n < 3
      ensures StripTag(text, NAMES[n]) == text
    {
      assert IsTag(OpenTag(NAMES[n])) && IsTag(CloseTag(NAMES[n]));
      NoTagNoHit(text, NAMES[n]);
    }
  }

  /** `defang` is a fixed point of itself. */
  lemma {:induction false} DefangTwice(text: string, nonce: string)
    requires Hex(nonce) && GoodNonce(nonce)
    ensures Defang(Defang(text, nonce), nonce) == Defang(text, nonce)
  {
    hide Defang, Contains, Hex;
    var d := Defang(text, nonce);
    GoodNonceStripped(text, nonce);
    forall p | IsTag(p)
      ensures !Contains(d, p, true)
    {
      NoMarkerSurvives(text, nonce, p);
    }
    CleanIsUntouched(d, nonce);
  }

  // ----- exactly which nonces are safe -----

  lemma {:induction false} WholeNonce(nonce: string)
    requires nonce != ""
    ensures StripNonce(nonce, nonce) == NONCE_MARK
  {
    HitsInRange(nonce, nonce, "");
    var hit := NonceHit(nonce);
    assert Matches(nonce, 0, nonce, false);
    assert hit(nonce, 0) == |nonce|;
    assert Rewrite(nonce, hit, NONCE_MARK, |nonce|) == "";
  }

  lemma {:induction false} MarkUnstripped(mark: string, name: nat)
    requires name < 3 && (mark == NONCE_MARK || mark == TAG_MARK)
    ensures StripTag(mark, NAMES[name]) == mark
  {
    hide Contains;
    assert IsTag(OpenTag(NAMES[name])) && IsTag(CloseTag(NAMES[name]));
    TagsAvoidMarks(OpenTag(NAMES[name]));
    TagsAvoidMarks(CloseTag(NAMES[name]));
    NoTagNoHit(mark, NAMES[name]);
  }

  lemma {:induction false} TagBecomesMark()
    ensures StripTag("<policy", "policy") == TAG_MARK
  {
    var text, hit := "<policy", TagHit("policy");
    HitsInRange(text, "", "policy");
    assert "<" + "policy" == "<policy";
    assert Matches(text, 0, "<policy", true);
    assert !Matches(text, 0, "</policy", true) by {
      assert |"</" + "policy"| > |text|;
    }
    assert hit(text, 0) == 7;
    assert Rewrite(text, hit, TAG_MARK, 7) == "";
  }

  /** The only hexadecimal digits of the marker's replacement are `a`, `d` and `e`; the marker has none of them. */
  lemma {:induction false} NotInPolicy(nonce: string)
    requires Hex(nonce) && Contains(TAG_MARK, nonce, false)
    ensures !Contains("<policy", nonce, false)
  {
    var j :| Matches(TAG_MARK, j, nonce, false);
    assert TAG_MARK[j + 0] == nonce[0];
    assert nonce[0] == 'a' || nonce[0] == 'd' || nonce[0] == 'e' by {
      assert HexDigit(nonce[0]);
    }
    forall i: nat
      ensures !Matches("<policy", i, nonce, false)
    {
      NeedsFirst("<policy", i, nonce, false);
    }
  }

  /** A nonce is always removed if and only if it is not a piece of one of the two replacement texts. */
  lemma {:induction false} SafeNonces(nonce: string)
    requires Hex(nonce)
    ensures (forall text :: !Contains(Defang(text, nonce), nonce, false)) <==> GoodNonce(nonce)
  {
    hide StripTag, StripNonce, Contains, Hex;
    if GoodNonce(nonce) {
      forall text
        ensures !Contains(Defang(text, nonce), nonce, false)
      {
        GoodNonceStripped(text, nonce);
      }
    } else if Contains(NONCE_MARK, nonce, false) {
      WholeNonce(nonce) by { NotEmpty(nonce); }
      MarkUnstripped(NONCE_MARK, 0);
      MarkUnstripped(NONCE_MARK, 1);
      MarkUnstripped(NONCE_MARK, 2);
      assert Contains(Defang(nonce, nonce), nonce, false);
    } else {
      NotInPolicy(nonce);
      NoNonceNoHit("<policy", nonce);
      TagBecomesMark();
      MarkUnstripped(TAG_MARK, 1);
      MarkUnstripped(TAG_MARK, 2);
      assert Contains(Defang("<policy", nonce), nonce, false);
    }
  }

  lemma {:induction false} NotEmpty(nonce: string)
    requires Hex(nonce)
    ensures nonce != ""
  {
  }

  /** No three hexadecimal digits in a row. */
  predicate NoHexRun(s: string)
  {
    forall i :: 0 <= i < |s| - 2 ==> !(HexDigit(s[i]) && HexDigit(s[i + 1]) && HexDigit(s[i + 2]))
  }

  lemma {:induction false} LongNonceAbsent(s: string, nonce: string)
    requires NoHexRun(s) && Hex(nonce) && |nonce| >= 3
    ensures !Contains(s, nonce, false)
  {
    forall j: nat
      ensures !Matches(s, j, nonce, false)
    {
      assert HexDigit(nonce[0]) && HexDigit(nonce[1]) && HexDigit(nonce[2]);
      assert j + |nonce| <= |s| ==> !(HexDigit(s[j]) && HexDigit(s[j + 1]) && HexDigit(s[j + 2]));
      assert j + |nonce| <= |s| ==> !(s[j + 0] == nonce[0] && s[j + 1] == nonce[1] && s[j + 2] == nonce[2]);
    }
  }

  /** Every hexadecimal nonce of at least three digits is safe; the daemon mints thirty-two. */
  lemma {:induction false} MintedNoncesAreSafe(nonce: string)
    requires Hex(nonce) && |nonce| >= 3
    ensures GoodNonce(nonce)
  {
    NonceMarkHasNoRun();
    TagMarkHasNoRun();
    LongNonceAbsent(NONCE_MARK, nonce);
    LongNonceAbsent(TAG_MARK, nonce);
  }

  lemma {:induction false} NonceMarkHasNoRun()
    ensures NoHexRun(NONCE_MARK)
  {
    var a := NONCE_MARK;
    assert !HexDigit(a[0]) && !HexDigit(a[1]) && !HexDigit(a[3]) && !HexDigit(a[6]) && !HexDigit(a[9]) &&
           !HexDigit(a[11]) && !HexDigit(a[14]);
  }

  lemma {:induction false} TagMarkHasNoRun()
    ensures NoHexRun(TAG_MARK)
  {
    var b := TAG_MARK;
    assert !HexDigit(b[0]) && !HexDigit(b[1]) && !HexDigit(b[3]) && !HexDigit(b[4]) && !HexDigit(b[6]);
    assert !HexDigit(b[7]) && !HexDigit(b[10]) && !HexDigit(b[12]) && !HexDigit(b[15]);
  }
}
