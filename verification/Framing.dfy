/** The framed prompt: every message that others wrote sits in exactly one marked block. */
module Framing {
  import opened Bytes
  import opened Provenance

  datatype Message = Message(role: string, content: string, attachments: seq<string>, callId: Option<string>)

  // ----- pieces joined by a separator that no pattern contains -----

  function Join(a: string, x: char, b: string): string
  {
    a + [x] + b
  }

  lemma {:induction false} MatchesJoin(a: string, x: char, b: string, j: nat, p: string, fold: bool)
    requires p != "" && Avoids(p, x, fold)
    ensures Matches(Join(a, x, b), j, p, fold) <==>
            Matches(a, j, p, fold) || (j > |a| && Matches(b, j - |a| - 1, p, fold))
  {
    var left := a + [x];
    if j > |a| {
      MatchesRight(left, b, j, p, fold);
    } else if j + |p| <= |a| {
      MatchesLeft(a, [x] + b, j, p, fold);
      assert a + ([x] + b) == Join(a, x, b);
    } else {
      var k := |a| - j;
      assert Join(a, x, b)[j + k] == x;
      assert p[k] != Fold(x, fold);
    }
  }

  // ----- markers -----

  function Tag(n: nat, opening: bool): string
    requires n < 3
  {
    if opening then OpenTag(NAMES[n]) else CloseTag(NAMES[n])
  }

  /** Some marker name starts here, in any case. */
  ghost predicate TagAt(s: string, j: nat, opening: bool)
  {
    exists n :: 0 <= n < 3 && Matches(s, j, Tag(n, opening), true)
  }

  lemma {:induction false} TagJoin(a: string, x: char, b: string, j: nat, opening: bool)
    requires x == '\"' || x == '\n'
    ensures TagAt(Join(a, x, b), j, opening) <==> TagAt(a, j, opening) || (j > |a| && TagAt(b, j - |a| - 1, opening))
  {
    hide Matches, Join;
    forall n | 0 <= n < 3
      ensures Matches(Join(a, x, b), j, Tag(n, opening), true) <==>
              Matches(a, j, Tag(n, opening), true) || (j > |a| && Matches(b, j - |a| - 1, Tag(n, opening), true))
    {
      TagAvoids(n, opening);
      MatchesJoin(a, x, b, j, Tag(n, opening), true);
    }
  }

  lemma {:induction false} TagAvoids(n: nat, opening: bool)
    requires n < 3
    ensures var p := Tag(n, opening);
            p != "" && p[0] == '<' && Avoids(p, '\"', true) && Avoids(p, '\n', true) && IsTag(p)
  {
  }

  ghost predicate NoTags(s: string)
  {
    forall j, opening :: !TagAt(s, j, opening)
  }

  lemma {:induction false} NoAngleNoTags(s: string)
    requires forall k :: 0 <= k < |s| ==> s[k] != '<'
    ensures NoTags(s)
  {
    hide Matches, Tag;
    forall j: nat, opening, n | 0 <= n < 3
      ensures !Matches(s, j, Tag(n, opening), true)
    {
      TagAvoids(n, opening);
      NeedsAngle(s, j, Tag(n, opening));
    }
  }

  lemma {:induction false} DefangedHasNoTags(text: string, nonce: string)
    ensures NoTags(Defang(text, nonce))
  {
    hide Defang;
    forall j: nat, opening, n | 0 <= n < 3
      ensures !Matches(Defang(text, nonce), j, Tag(n, opening), true)
    {
      TagAvoids(n, opening);
      NoMarkerSurvives(text, nonce, Tag(n, opening));
    }
  }

  // ----- one framed message -----

  function Attribute(id: Option<string>): string
  {
    if id.None? then ">" else Join(" call=", '\"', Join(id.value, '\"', ">"))
  }

  /** The block around a body: the opening marker with the nonce, the body, the closing marker. */
  function Wrap(name: string, nonce: string, id: Option<string>, body: string): string
  {
    Join("<" + name + " nonce=", '\"',
        Join(nonce, '\"', Join(Attribute(id), '\n', Join(body, '\n', "</" + name + ">"))))
  }

  lemma {:induction false} NonceJoin(a: string, x: char, b: string, j: nat, nonce: string)
    requires Hex(nonce) && (x == '\"' || x == '\n')
    ensures Matches(Join(a, x, b), j, nonce, false) <==>
            Matches(a, j, nonce, false) || (j > |a| && Matches(b, j - |a| - 1, nonce, false))
  {
    MatchesJoin(a, x, b, j, nonce, false);
  }

  lemma {:induction false} SelfMatch(nonce: string, j: nat)
    requires nonce != ""
    ensures Matches(nonce, j, nonce, false) <==> j == 0
  {
  }

  lemma {:induction false} FixedPieces(n: nat, nonce: string)
    requires (n == 1 || n == 2) && Hex(nonce) && |nonce| >= 3
    ensures !Contains("<" + NAMES[n] + " nonce=", nonce, false) && !Contains("</" + NAMES[n] + ">", nonce, false)
    ensures !Contains(" call=", nonce, false) && !Contains(">", nonce, false)
  {
    hide Contains, HexDigit;
    PiecesHaveNoRun(n);
    LongNonceAbsent("<" + NAMES[n] + " nonce=", nonce);
    LongNonceAbsent("</" + NAMES[n] + ">", nonce);
    LongNonceAbsent(" call=", nonce);
    LongNonceAbsent(">", nonce);
  }

  lemma {:induction false} PiecesHaveNoRun(n: nat)
    requires n == 1 || n == 2
    ensures NoHexRun("<" + NAMES[n] + " nonce=") && NoHexRun("</" + NAMES[n] + ">") && NoHexRun(" call=") &&
            NoHexRun(">")
  {
    hide NoHexRun;
    FromAppHasNoRun();
    if n == 1 {
      assert "<" + NAMES[1] + " nonce=" == "<from-app nonce=" && "</" + NAMES[1] + ">" == "</from-app>";
    } else {
      ToolOutputHasNoRun();
      assert "<" + NAMES[2] + " nonce=" == "<tool-output nonce=" && "</" + NAMES[2] + ">" == "</tool-output>";
    }
  }

  lemma {:induction false} FromAppHasNoRun()
    ensures NoHexRun("<from-app nonce=") && NoHexRun("</from-app>") && NoHexRun(" call=") && NoHexRun(">")
  {
  }

  lemma {:induction false} ToolOutputHasNoRun()
    ensures NoHexRun("<tool-output nonce=") && NoHexRun("</tool-output>")
  {
  }

  lemma {:induction false} AttributeTags(id: Option<string>)
    requires id.Some? ==> NoTags(id.value)
    ensures NoTags(Attribute(id))
  {
    hide Matches, Join, TagAt;
    NoAngleNoTags(">");
    NoAngleNoTags(" call=");
    if id.Some? {
      var inner := Join(id.value, '\"', ">");
      var n := |" call="|;
      forall j: nat, opening
        ensures !TagAt(Attribute(id), j, opening)
      {
        TagJoin(" call=", '\"', inner, j, opening);
        if j > n { TagJoin(id.value, '\"', ">", j - n - 1, opening); }
      }
    }
  }

  /** In an attribute the nonce can only sit in the fixed text before a clean id. */
  lemma {:induction false} AttributeNonce(id: Option<string>, nonce: string, j: nat)
    requires Hex(nonce) && (id.Some? ==> !Contains(id.value, nonce, false))
    ensures Matches(Attribute(id), j, nonce, false) <==> id.Some? && Matches(" call=", j, nonce, false)
  {
    EndFree(nonce);
    hide Matches, Join, Hex;
    if id.Some? {
      var inner := Join(id.value, '\"', ">");
      var n := |" call="|;
      NonceJoin(" call=", '\"', inner, j, nonce);
      if j > n { NonceJoin(id.value, '\"', ">", j - n - 1, nonce); }
    }
  }

  lemma {:induction false} EndFree(nonce: string)
    requires Hex(nonce)
    ensures !Contains(">", nonce, false)
  {
    forall j: nat
      ensures !Matches(">", j, nonce, false)
    {
      HeadMatches(">", j, nonce);
    }
  }

  lemma {:induction false} HeadMatches(s: string, j: nat, nonce: string)
    requires Hex(nonce)
    ensures Matches(s, j, nonce, false) ==> j < |s| && HexDigit(s[j])
  {
    assert Matches(s, j, nonce, false) ==> s[j + 0] == nonce[0] && HexDigit(nonce[0]);
  }

  /** The part of a block after the nonce. */
  function Rest(name: string, id: Option<string>, body: string): string
  {
    Join(Attribute(id), '\n', Join(body, '\n', "</" + name + ">"))
  }

  lemma {:induction false} RestNonce(n: nat, nonce: string, id: Option<string>, body: string, j: nat)
    requires (n == 1 || n == 2) && Hex(nonce) && !Contains(body, nonce, false)
    requires id.Some? ==> !Contains(id.value, nonce, false)
    ensures var at := |Attribute(id)| + 1 + |body| + 1;
            Matches(Rest(NAMES[n], id, body), j, nonce, false) <==>
            || (id.Some? && Matches(" call=", j, nonce, false))
            || (j >= at && Matches("</" + NAMES[n] + ">", j - at, nonce, false))
  {
    hide Matches, Join, Attribute, Rest, Hex;
    AttributeNonce(id, nonce, j);
    RestShape(NAMES[n], id, body);
    var a, last := Attribute(id), "</" + NAMES[n] + ">";
    NonceJoin(a, '\n', Join(body, '\n', last), j, nonce);
    if j > |a| {
      NonceJoin(body, '\n', last, j - |a| - 1, nonce);
    }
  }

  lemma {:induction false} ClosingTag(n: nat, j: nat, opening: bool)
    requires n == 1 || n == 2
    ensures TagAt("</" + NAMES[n] + ">", j, opening) <==> !opening && j == 0
  {
    var s := "</" + NAMES[n] + ">";
    if !opening && j == 0 {
      assert Matches(s, 0, Tag(n, false), true);
    } else if j == 0 {
      forall m | 0 <= m < 3
        ensures !Matches(s, 0, Tag(m, true), true)
      {
        assert Fold(s[0 + 1], true) == '/' != Tag(m, true)[1];
      }
    } else {
      LaterPositions(s, j, opening);
    }
  }

  lemma {:induction false} OpeningTag(n: nat, j: nat, opening: bool)
    requires n == 1 || n == 2
    ensures TagAt("<" + NAMES[n] + " nonce=", j, opening) <==> opening && j == 0
  {
    var s := "<" + NAMES[n] + " nonce=";
    if opening && j == 0 {
      assert Matches(s, 0, Tag(n, true), true);
    } else if j == 0 {
      forall m | 0 <= m < 3
        ensures !Matches(s, 0, Tag(m, false), true)
      {
        assert Fold(s[0 + 1], true) != '/' == Tag(m, false)[1];
      }
    } else {
      LaterPositions(s, j, opening);
    }
  }

  lemma {:induction false} NeedsAngle(s: string, j: nat, p: string)
    requires p != "" && p[0] == '<'
    ensures Matches(s, j, p, true) ==> j < |s| && s[j] == '<'
  {
    assert Matches(s, j, p, true) ==> Fold(s[j + 0], true) == p[0];
  }

  /** A string whose only angle bracket is its first character has no marker after it. */
  lemma {:induction false} LaterPositions(s: string, j: nat, opening: bool)
    requires j > 0 && forall k :: 1 <= k < |s| ==> s[k] != '<'
    ensures !TagAt(s, j, opening)
  {
    forall n | 0 <= n < 3
      ensures !Matches(s, j, Tag(n, opening), true)
    {
      TagAvoids(n, opening);
      NeedsAngle(s, j, Tag(n, opening));
    }
  }

  lemma {:induction false} RestTags(n: nat, id: Option<string>, body: string, j: nat, opening: bool)
    requires (n == 1 || n == 2) && NoTags(body) && NoTags(Attribute(id))
    ensures TagAt(Rest(NAMES[n], id, body), j, opening) <==>
            !opening && j == |Rest(NAMES[n], id, body)| - |"</" + NAMES[n] + ">"|
  {
    var a, last := Attribute(id), "</" + NAMES[n] + ">";
    var inner := Join(body, '\n', last);
    assert |inner| == |body| + 1 + |last| && |Rest(NAMES[n], id, body)| == |a| + 1 + |inner|;
    hide Join, Attribute, TagAt;
    TagJoin(a, '\n', inner, j, opening);
    if j > |a| {
      TagJoin(body, '\n', last, j - |a| - 1, opening);
      if j - |a| - 1 > |body| {
        ClosingTag(n, j - |a| - 1 - |body| - 1, opening);
      }
    }
  }

  /** Where the nonce is put in a block. */
  function NoncePlace(n: nat): nat
    requires n < 3
  {
    |"<" + NAMES[n] + " nonce=\""|
  }

  lemma {:induction false} BlockNonce(n: nat, nonce: string, id: Option<string>, body: string, j: nat)
    requires (n == 1 || n == 2) && Hex(nonce) && !Contains(body, nonce, false)
    requires id.Some? ==> !Contains(id.value, nonce, false)
    ensures var at := NoncePlace(n) + |nonce| + 1;
            Matches(Wrap(NAMES[n], nonce, id, body), j, nonce, false) <==>
            || j == NoncePlace(n)
            || Matches("<" + NAMES[n] + " nonce=", j, nonce, false)
            || (j >= at && Matches(Rest(NAMES[n], id, body), j - at, nonce, false))
  {
    hide Join, Rest, Matches, Wrap, Hex;
    WrapShape(NAMES[n], nonce, id, body);
    SelfMatchAll(nonce);
    var first, rest := "<" + NAMES[n] + " nonce=", Rest(NAMES[n], id, body);
    NonceJoin(first, '\"', Join(nonce, '\"', rest), j, nonce);
    if j > |first| {
      NonceJoin(nonce, '\"', rest, j - |first| - 1, nonce);
    }
  }

  /** The nonce starts at this place and nowhere else. */
  ghost predicate OnceAt(s: string, nonce: string, at: nat)
  {
    forall j: nat :: Matches(s, j, nonce, false) <==> j == at
  }

  /** The nonce occurs in none of the text that every such block has. */
  ghost predicate PiecesFree(n: nat, named: bool, nonce: string)
    requires n < 3
  {
    && !Contains("<" + NAMES[n] + " nonce=", nonce, false) && !Contains("</" + NAMES[n] + ">", nonce, false)
    && (named ==> !Contains(" call=", nonce, false))
  }

  /** A framed message carries the nonce once if and only if none of its fixed pieces contains it. */
  lemma {:induction false} OneNonce(n: nat, nonce: string, id: Option<string>, body: string)
    requires (n == 1 || n == 2) && Hex(nonce) && !Contains(body, nonce, false)
    requires id.Some? ==> !Contains(id.value, nonce, false)
    ensures OnceAt(Wrap(NAMES[n], nonce, id, body), nonce, NoncePlace(n)) <==> PiecesFree(n, id.Some?, nonce)
  {
    hide Matches, Wrap, Rest, Hex, Attribute;
    var w, at := Wrap(NAMES[n], nonce, id, body), NoncePlace(n) + |nonce| + 1;
    var end := |Attribute(id)| + 1 + |body| + 1;
    var first, last := "<" + NAMES[n] + " nonce=", "</" + NAMES[n] + ">";
    if PiecesFree(n, id.Some?, nonce) {
      forall j: nat
        ensures Matches(w, j, nonce, false) <==> j == NoncePlace(n)
      {
        BlockNonce(n, nonce, id, body, j);
        if j >= at { RestNonce(n, nonce, id, body, j - at); }
      }
    } else if Contains(first, nonce, false) {
      var j: nat :| Matches(first, j, nonce, false);
      BlockNonce(n, nonce, id, body, j);
      MatchFits(first, j, nonce);
      assert Matches(w, j, nonce, false) && j != NoncePlace(n);
    } else if Contains(last, nonce, false) {
      var j: nat :| Matches(last, j, nonce, false);
      RestNonce(n, nonce, id, body, end + j);
      BlockNonce(n, nonce, id, body, at + end + j);
      assert Matches(w, at + end + j, nonce, false);
    } else {
      var j: nat :| Matches(" call=", j, nonce, false);
      RestNonce(n, nonce, id, body, j);
      BlockNonce(n, nonce, id, body, at + j);
      assert Matches(w, at + j, nonce, false);
    }
  }

  lemma {:induction false} MatchFits(s: string, j: nat, p: string)
    requires Matches(s, j, p, false)
    ensures j + |p| <= |s|
  {
  }

  /** A framed message has exactly one opening and one closing marker, whatever the nonce. */
  lemma {:induction false} OneBlock(n: nat, nonce: string, id: Option<string>, body: string, j: nat, opening: bool)
    requires (n == 1 || n == 2) && Hex(nonce) && NoTags(body) && (id.Some? ==> NoTags(id.value))
    ensures var w := Wrap(NAMES[n], nonce, id, body);
            TagAt(w, j, opening) <==> j == if opening then 0 else |w| - |"</" + NAMES[n] + ">"|
  {
    hide Join, Rest, TagAt, Matches, Attribute, Wrap, Hex;
    WrapShape(NAMES[n], nonce, id, body);
    AttributeTags(id);
    SelfMatchAll(nonce);
    NoAngleNoTags(nonce);
    var first, rest := "<" + NAMES[n] + " nonce=", Rest(NAMES[n], id, body);
    var inner := Join(nonce, '\"', rest);
    TagJoin(first, '\"', inner, j, opening);
    OpeningTag(n, j, opening);
    if j > |first| {
      var k := j - |first| - 1;
      TagJoin(nonce, '\"', rest, k, opening);
      if k > |nonce| {
        RestTags(n, id, body, k - |nonce| - 1, opening);
      }
    }
  }

  lemma {:induction false} WrapShape(name: string, nonce: string, id: Option<string>, body: string)
    ensures var first, rest, w := "<" + name + " nonce=", Rest(name, id, body), Wrap(name, nonce, id, body);
            && w == Join(first, '\"', Join(nonce, '\"', rest))
            && |w| == |first| + 1 + |nonce| + 1 + |rest|
            && |"<" + name + " nonce=\""| == |first| + 1
            && |rest| >= |"</" + name + ">"|
  {
    hide Attribute;
  }

  lemma {:induction false} SelfMatchAll(nonce: string)
    requires Hex(nonce)
    ensures forall j :: Matches(nonce, j, nonce, false) <==> j == 0
    ensures forall k :: 0 <= k < |nonce| ==> nonce[k] != '<'
  {
    forall j: nat
      ensures Matches(nonce, j, nonce, false) <==> j == 0
    {
      SelfMatch(nonce, j);
    }
    assert forall k :: 0 <= k < |nonce| ==> HexDigit(nonce[k]);
  }

  // ----- the whole prompt -----

  /** The message as the backend sees it; the model's own earlier turns are not third parties. */
  ghost function Marked(m: Message, nonce: string): Message
  {
    if m.role == "assistant" then m
    else if m.role == "tool" then
      var id := if m.callId.Some? then Some(Defang(m.callId.value, nonce)) else None;
      m.(content := Wrap("tool-output", nonce, id, Defang(m.content, nonce)))
    else m.(content := Wrap("from-app", nonce, None, Defang(m.content, nonce)))
  }

  /** The owner's prelude, which is trusted and so not defanged. */
  function Prelude(prelude: string, nonce: string, mark: bool): Message
  {
    var content := if mark then Wrap("policy", nonce, None, prelude) else prelude;
    Message("system", content, [], None)
  }

  ghost function MarkedAll(history: seq<Message>, nonce: string, mark: bool): (r: seq<Message>)
    ensures |r| == |history|
    ensures forall i :: 0 <= i < |history| ==> r[i] == if mark then Marked(history[i], nonce) else history[i]
  {
    if history == [] then []
    else
      var n := |history| - 1;
      MarkedAll(history[..n], nonce, mark) + [if mark then Marked(history[n], nonce) else history[n]]
  }

  lemma {:induction false} MarkedStep(history: seq<Message>, i: nat, nonce: string, mark: bool)
    requires i < |history|
    ensures MarkedAll(history[..i + 1], nonce, mark) ==
            MarkedAll(history[..i], nonce, mark) + [if mark then Marked(history[i], nonce) else history[i]]
  {
    hide Marked;
    assert history[..i + 1][..i] == history[..i];
  }

  method MarkMessage(m: Message, nonce: string) returns (r: Message)
    ensures r == Marked(m, nonce)
  {
    hide Wrap, Defang;
    if m.role == "assistant" {
      return m;
    }
    var body := DefangText(m.content, nonce);
    if m.role == "tool" {
      var id := None;
      if m.callId.Some? {
        var clean := DefangText(m.callId.value, nonce);
        id := Some(clean);
      }
      r := m.(content := Wrap("tool-output", nonce, id, body));
    } else {
      r := m.(content := Wrap("from-app", nonce, None, body));
    }
  }

  lemma {:induction false} Unmarked(history: seq<Message>, nonce: string)
    ensures [] + MarkedAll(history, nonce, false) == history
  {
    hide Marked;
  }

  lemma {:induction false} Appended(head: seq<Message>, done: seq<Message>, m: Message)
    ensures head + done + [m] == head + (done + [m])
  {
  }

  /** No nonce, no marking: a marker that anybody could write is worse than none. */
  method FramedMessages(history: seq<Message>, prelude: string, nonce: string, markProvenance: bool)
    returns (out: seq<Message>)
    ensures var mark := markProvenance && nonce != "";
            out == (if prelude == "" then [] else [Prelude(prelude, nonce, mark)]) + MarkedAll(history, nonce, mark)
  {
    hide Marked, Prelude;
    var mark := markProvenance && nonce != "";
    if prelude == "" && !mark {
      Unmarked(history, nonce);
      return history;
    }
    out := [];
    if prelude != "" {
      out := out + [Prelude(prelude, nonce, mark)];
    }
    ghost var head := out;
    assert history[..0] == [] && head + [] == head;
    hide MarkedAll, Marked, Prelude;
    for i := 0 to |history|
      invariant out == head + MarkedAll(history[..i], nonce, mark)
    {
      MarkedStep(history, i, nonce, mark);
      var m := history[i];
      if mark {
        m := MarkMessage(m, nonce);
      }
      Appended(head, MarkedAll(history[..i], nonce, mark), m);
      out := out + [m];
    }
    assert history[..|history|] == history;
  }

  function NameOf(m: Message): (n: nat)
    ensures n == 1 || n == 2
  {
    if m.role == "tool" then 2 else 1
  }

  ghost function IdOf(m: Message, nonce: string): Option<string>
  {
    if m.role == "tool" && m.callId.Some? then Some(Defang(m.callId.value, nonce)) else None
  }

  lemma {:induction false} MarkedIsBlock(m: Message, nonce: string)
    requires m.role != "assistant"
    ensures Marked(m, nonce) == m.(content := Wrap(NAMES[NameOf(m)], nonce, IdOf(m, nonce), Defang(m.content, nonce)))
  {
    hide Wrap, Defang;
  }

  lemma {:induction false} FlatJoin(a: string, x: char, b: string, y: char, c: string)
    ensures Join(a, x, Join(b, y, c)) == (a + [x]) + (b + ([y] + c))
  {
  }

  /** The opening text up to the nonce, the nonce, the rest of the opening line, the body, the closing line. */
  function Flat(open: string, nonce: string, middle: string, body: string, close: string): string
  {
    open + (nonce + (middle + (body + close)))
  }

  lemma {:induction false} WrapFlat(first: string, nonce: string, attr: string, body: string, last: string)
    ensures Join(first, '\"', Join(nonce, '\"', Join(attr, '\n', Join(body, '\n', last)))) ==
            Flat(first + ['\"'], nonce, ['\"'] + attr + ['\n'], body, ['\n'] + last)
  {
    var inner := Join(attr, '\n', Join(body, '\n', last));
    FlatJoin(attr, '\n', body, '\n', last);
    FlatJoin(first, '\"', nonce, '\"', inner);
    hide Join;
    Assoc(['\"'], attr + ['\n'], body + (['\n'] + last));
    Assoc(['\"'], attr, ['\n']);
  }

  lemma {:induction false} Assoc(a: string, b: string, c: string)
    ensures a + (b + c) == (a + b) + c
  {
  }

  lemma {:induction false} WrapText(name: string, nonce: string, id: Option<string>, body: string)
    ensures Wrap(name, nonce, id, body) ==
            Flat("<" + name + " nonce=" + ['\"'], nonce, ['\"'] + Attribute(id) + ['\n'], body,
              ['\n'] + ("</" + name + ">"))
  {
    hide Join, Flat, Attribute;
    WrapFlat("<" + name + " nonce=", nonce, Attribute(id), body, "</" + name + ">");
  }

  lemma {:induction false} MiddleText(id: string)
    ensures ['\"'] + Attribute(None) + ['\n'] == "\">\n"
    ensures ['\"'] + Attribute(Some(id)) + ['\n'] == "\" call=\"" + id + "\">\n"
  {
    FlatJoin(" call=", '\"', id, '\"', ">");
    var a := Attribute(Some(id));
    assert a == " call=\"" + (id + "\">");
    hide Attribute, Join;
    assert ['\"'] + (" call=\"" + (id + "\">")) + ['\n'] == ['\"'] + " call=\"" + id + ("\">" + ['\n']);
  }

  lemma {:induction false} EndText()
    ensures "<" + NAMES[0] + " nonce=" + ['\"'] == "<policy nonce=\"" &&
            ['\n'] + ("</" + NAMES[0] + ">") == "\n</policy>"
    ensures "<" + NAMES[1] + " nonce=" + ['\"'] == "<from-app nonce=\""
    ensures ['\n'] + ("</" + NAMES[1] + ">") == "\n</from-app>"
    ensures "<" + NAMES[2] + " nonce=" + ['\"'] == "<tool-output nonce=\""
    ensures ['\n'] + ("</" + NAMES[2] + ">") == "\n</tool-output>"
  {
  }

  /** The text of each message: the whole defanged content between the opening line and the closing one; the prelude is
      framed as it is, or not at all when nothing is marked. */
  lemma {:induction false} BlockText(m: Message, nonce: string, prelude: string)
    requires m.role != "assistant"
    ensures var body, text := Defang(m.content, nonce), Marked(m, nonce).content;
            && (m.role == "tool" && m.callId.Some? ==>
                  text == Flat("<tool-output nonce=\"", nonce, "\" call=\"" + Defang(m.callId.value, nonce) +
                      "\">\n", body,
                    "\n</tool-output>"))
            && (m.role == "tool" && m.callId.None? ==>
                  text == Flat("<tool-output nonce=\"", nonce, "\">\n", body, "\n</tool-output>"))
            && (m.role != "tool" ==> text == Flat("<from-app nonce=\"", nonce, "\">\n", body, "\n</from-app>"))
    ensures Prelude(prelude, nonce, true).content == Flat("<policy nonce=\"", nonce, "\">\n", prelude, "\n</policy>")
    ensures Prelude(prelude, nonce, false) == Message("system", prelude, [], None)
    ensures Prelude(prelude, nonce, true) == Message("system", Prelude(prelude, nonce, true).content, [], None)
  {
    hide Defang, Wrap, Flat, Attribute;
    EndText();
    MarkedIsBlock(m, nonce);
    WrapText(NAMES[NameOf(m)], nonce, IdOf(m, nonce), Defang(m.content, nonce));
    WrapText(NAMES[0], nonce, None, prelude);
    MiddleText(if m.callId.Some? then Defang(m.callId.value, nonce) else "");
  }

  /** Order, roles, attachments and call ids are kept, and each message of others has one opening marker, at its start,
      and one closing marker, at its end. */
  lemma {:induction false} PromptIsMarked(history: seq<Message>, nonce: string, i: nat, j: nat, opening: bool)
    requires Hex(nonce) && i < |history| && history[i].role != "assistant"
    ensures var m, w := history[i], MarkedAll(history, nonce, true)[i];
            && w.role == m.role && w.attachments == m.attachments && w.callId == m.callId
            && (TagAt(w.content, j, opening) <==>
                j == if opening then 0 else |w.content| - |"</" + NAMES[NameOf(m)] + ">"|)
  {
    hide Defang, Wrap, TagAt, Matches, Hex, Marked;
    var m := history[i];
    MarkedIsBlock(m, nonce);
    DefangedHasNoTags(m.content, nonce);
    if m.callId.Some? {
      DefangedHasNoTags(m.callId.value, nonce);
    }
    OneBlock(NameOf(m), nonce, IdOf(m, nonce), Defang(m.content, nonce), j, opening);
  }

  /** A message of others carries the nonce at the one place where it is put. */
  ghost predicate CarriesOnce(m: Message, nonce: string)
  {
    m.role != "assistant" ==> OnceAt(Marked(m, nonce).content, nonce, NoncePlace(NameOf(m)))
  }

  /** The nonce occurs in no text that defanging or framing writes. */
  ghost predicate FitNonce(nonce: string)
  {
    GoodNonce(nonce) && PiecesFree(1, false, nonce) && PiecesFree(2, true, nonce)
  }

  lemma {:induction false} FitCarriesOnce(m: Message, nonce: string)
    requires Hex(nonce) && FitNonce(nonce)
    ensures CarriesOnce(m, nonce)
  {
    hide Defang, Wrap, Matches, Hex, Marked, GoodNonce, Contains;
    if m.role != "assistant" {
      MarkedIsBlock(m, nonce);
      GoodNonceStripped(m.content, nonce);
      if m.callId.Some? {
        GoodNonceStripped(m.callId.value, nonce);
      }
      OneNonce(NameOf(m), nonce, IdOf(m, nonce), Defang(m.content, nonce));
    }
  }

  /** A body that holds the nonce gives its block a second one. */
  lemma {:induction false} BodyRepeats(nonce: string, body: string)
    requires Hex(nonce) && Contains(body, nonce, false)
    ensures !OnceAt(Wrap(NAMES[1], nonce, None, body), nonce, NoncePlace(1))
  {
    hide Join, Rest, Matches, Wrap, Hex;
    var k :| Matches(body, k, nonce, false);
    WrapShape(NAMES[1], nonce, None, body);
    RestShape(NAMES[1], None, body);
    var first, rest := "<" + NAMES[1] + " nonce=", Rest(NAMES[1], None, body);
    var a, last := Attribute(None), "</" + NAMES[1] + ">";
    var at := |a| + 1 + k;
    NonceJoin(body, '\n', last, k, nonce);
    NonceJoin(a, '\n', Join(body, '\n', last), at, nonce);
    NonceJoin(nonce, '\"', rest, |nonce| + 1 + at, nonce);
    NonceJoin(first, '\"', Join(nonce, '\"', rest), |first| + 1 + |nonce| + 1 + at, nonce);
    assert Matches(Wrap(NAMES[1], nonce, None, body), |first| + 1 + |nonce| + 1 + at, nonce, false);
  }

  lemma {:induction false} RestShape(name: string, id: Option<string>, body: string)
    ensures Rest(name, id, body) == Join(Attribute(id), '\n', Join(body, '\n', "</" + name + ">"))
  {
  }

  /** Every message of every prompt carries the nonce exactly once if and only if the nonce occurs in no text that
      defanging or framing writes. */
  lemma {:induction false} FitNonces(nonce: string)
    requires Hex(nonce)
    ensures (forall m :: CarriesOnce(m, nonce)) <==> FitNonce(nonce)
  {
    hide CarriesOnce, FitNonce, Hex;
    if FitNonce(nonce) {
      forall m
        ensures CarriesOnce(m, nonce)
      {
        FitCarriesOnce(m, nonce);
      }
    } else {
      var m := UnfitMessage(nonce);
    }
  }

  lemma {:induction false} UnfitMessage(nonce: string) returns (m: Message)
    requires Hex(nonce) && !FitNonce(nonce)
    ensures !CarriesOnce(m, nonce)
  {
    hide Defang, Wrap, Matches, Hex, Marked, Contains, OnceAt;
    SafeNonces(nonce);
    if !GoodNonce(nonce) {
      var text :| Contains(Defang(text, nonce), nonce, false);
      m := Message("user", text, [], None);
      MarkedIsBlock(m, nonce);
      BodyRepeats(nonce, Defang(text, nonce));
    } else {
      m := Message(if PiecesFree(1, false, nonce) then "tool" else "user", "", [], Some(""));
      MarkedIsBlock(m, nonce);
      GoodNonceStripped("", nonce);
      OneNonce(NameOf(m), nonce, IdOf(m, nonce), Defang("", nonce));
    }
  }

  /** Every hexadecimal nonce of at least three digits is fit; the daemon mints thirty-two. */
  lemma {:induction false} MintedNoncesFit(nonce: string)
    requires Hex(nonce) && |nonce| >= 3
    ensures FitNonce(nonce)
  {
    hide Contains, Hex;
    MintedNoncesAreSafe(nonce);
    FixedPieces(1, nonce);
    FixedPieces(2, nonce);
  }
}
