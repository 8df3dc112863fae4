/** The Messages streaming relay, against its non-streaming twin. */
module AnthropicStream {
  import opened Bytes

  datatype ToolCall = ToolCall(id: string, name: string, arguments: string)
  datatype Usage = Usage(prompt: nat, completion: nat)

  /** What the daemon sends; the other kinds of event carry nothing the relay uses. */
  datatype Event =
    | Token(tok: string)
    | OneCall(call: ToolCall)
    | ManyCalls(calls: seq<ToolCall>)
    | Notice(text: string)
    | Done(usage: Usage, finish: Option<string>)
    | Error(code: string, message: string)
    | Other

  datatype Block = TextBlock | ToolBlock(id: string, name: string)
  datatype Delta = TextDelta(text: string) | JsonDelta(json: string)

  /** Server-sent events, in the order they are written. */
  datatype Sse =
    | MessageStart
    | BlockStart(index: nat, block: Block)
    | BlockDelta(index: nat, delta: Delta)
    | BlockStop(index: nat)
    | Comment(text: string)
    | MessageDelta(stop: string, outputTokens: nat)
    | ErrorEvent(message: string)
    | MessageStop

  function StopReason(finish: Option<string>, toolUsed: bool): string
  {
    if toolUsed then "tool_use"
    else match finish
      case Some("length") => "max_tokens"
      case Some("stop_sequence") => "stop_sequence"
      case _ => "end_turn"
  }

  // ----- the streaming relay -----

  function StreamToolUse(index: nat, call: ToolCall): seq<Sse>
  {
    [BlockStart(index, ToolBlock(call.id, call.name)), BlockDelta(index, JsonDelta(call.arguments)), BlockStop(index)]
  }

  method CloseTextBlock(before: seq<Sse>, index: nat, open: bool) returns (out: seq<Sse>, next: nat, stillOpen: bool)
    ensures !stillOpen && next == (if open then index + 1 else index)
    ensures out == before + if open then [BlockStop(index)] else []
  {
    if !open {
      return before, index, false;
    }
    out := before + [BlockStop(index)];
    next, stillOpen := index + 1, false;
  }

  /** The calls of one event, one block each. */
  method EmitCalls(before: seq<Sse>, start: nat, open: bool, calls: seq<ToolCall>) returns (out: seq<Sse>, index: nat)
    ensures var next := if open then start + 1 else start;
            index == next + |calls| && out == before + (Close(start, open) + CallsOut(next, calls))
  {
    var closed;
    out, index, closed := CloseTextBlock(before, start, open);
    ghost var first, sofar := index, out;
    assert calls[0..] == calls;
    for k := 0 to |calls|
      invariant index == first + k
      invariant out + CallsOut(index, calls[k..]) == sofar + CallsOut(first, calls)
    {
      assert calls[k..][0] == calls[k] && calls[k..][1..] == calls[k + 1..];
      assert out + (StreamToolUse(index, calls[k]) + CallsOut(index + 1, calls[k + 1..])) ==
             out + StreamToolUse(index, calls[k]) + CallsOut(index + 1, calls[k + 1..]);
      out := out + StreamToolUse(index, calls[k]);
      index := index + 1;
    }
    assert calls[|calls|..] == [];
    assert out + CallsOut(index, []) == out;
    assert before + (Close(start, open) + CallsOut(first, calls)) == sofar + CallsOut(first, calls);
  }

  lemma {:induction false} Regroup<T>(a: seq<T>, b: seq<T>, c: seq<T>)
    ensures a + (b + c) == (a + b) + c
  {
  }

  method Relay(events: seq<Event>) returns (out: seq<Sse>)
    ensures out == Stream(events)
  {
    hide CallsOut, StopReason, Close, TokenOut;
    out := [MessageStart];
    var index: nat := 0;
    var textOpen, toolUsed := false, false;
    var usage, finish := Usage(0, 0), None;
    var i := 0;
    ghost var spec := Stream(events);
    assert events[0..] == events;
    while i < |events|
      invariant i <= |events|
      invariant out + From(events[i..], index, textOpen, toolUsed) == spec
      decreases |events| - i
    {
      ghost var rest := events[i + 1..];
      assert events[i..][0] == events[i] && events[i..][1..] == rest;
      match events[i] {
        case Token(tok) =>
          Regroup(out, TokenOut(index, textOpen, tok), From(rest, index, true, toolUsed));
          out := EmitToken(out, index, textOpen, tok);
          textOpen := true;
        case OneCall(call) =>
          ghost var next := if textOpen then index + 1 else index;
          Regroup(out, Close(index, textOpen) + CallsOut(next, [call]), From(rest, next + 1, false, true));
          out, index := EmitCalls(out, index, textOpen, [call]);
          textOpen, toolUsed := false, true;
        case ManyCalls(calls) =>
          ghost var next := if textOpen then index + 1 else index;
          Regroup(out, Close(index, textOpen) + CallsOut(next, calls), From(rest, next + |calls|, false, true));
          out, index := EmitCalls(out, index, textOpen, calls);
          textOpen, toolUsed := false, true;
        case Notice(text) =>
          Regroup(out, [Comment(text)], From(rest, index, textOpen, toolUsed));
          out := out + [Comment(text)];
        case Done(u, f) =>
          usage, finish := u, f;
          break;
        case Error(code, message) =>
          out := EmitEnd(out, index, textOpen, ErrorEvent(code + ": " + message));
          return;
        case Other =>
      }
      i := i + 1;
    }
    assert i == |events| ==> events[i..] == [];
    out := EmitEnd(out, index, textOpen, MessageDelta(StopReason(finish, toolUsed), usage.completion));
  }

  method EmitToken(before: seq<Sse>, index: nat, open: bool, tok: string) returns (out: seq<Sse>)
    ensures out == before + TokenOut(index, open, tok)
  {
    out := before;
    if !open {
      out := out + [BlockStart(index, TextBlock)];
    }
    out := out + [BlockDelta(index, TextDelta(tok))];
  }

  /** Closes what is open, then the last two events of every stream. */
  method EmitEnd(before: seq<Sse>, index: nat, open: bool, last: Sse) returns (out: seq<Sse>)
    ensures out == before + (Close(index, open) + [last, MessageStop])
  {
    var next, closed;
    out, next, closed := CloseTextBlock(before, index, open);
    out := out + [last];
    out := out + [MessageStop];
  }

  function Close(index: nat, open: bool): seq<Sse>
  {
    if open then [BlockStop(index)] else []
  }

  function TokenOut(index: nat, open: bool, tok: string): seq<Sse>
  {
    (if open then [] else [BlockStart(index, TextBlock)]) + [BlockDelta(index, TextDelta(tok))]
  }

  function CallsOut(index: nat, calls: seq<ToolCall>): seq<Sse>
    decreases |calls|
  {
    if calls == [] then [] else StreamToolUse(index, calls[0]) + CallsOut(index + 1, calls[1..])
  }

  function Finish(index: nat, open: bool, toolUsed: bool, usage: Usage, finish: Option<string>): seq<Sse>
  {
    Close(index, open) + [MessageDelta(StopReason(finish, toolUsed), usage.completion), MessageStop]
  }

  /** What the relay writes from here on. */
  function From(events: seq<Event>, index: nat, open: bool, toolUsed: bool): seq<Sse>
    decreases |events|
  {
    if events == [] then Finish(index, open, toolUsed, Usage(0, 0), None)
    else
      var next := if open then index + 1 else index;
      match events[0]
      case Token(tok) => TokenOut(index, open, tok) + From(events[1..], index, true, toolUsed)
      case OneCall(call) => Close(index, open) + CallsOut(next, [call]) + From(events[1..], next + 1, false, true)
      case ManyCalls(calls) =>
        Close(index, open) + CallsOut(next, calls) + From(events[1..], next + |calls|, false, true)
      case Notice(text) => [Comment(text)] + From(events[1..], index, open, toolUsed)
      case Done(usage, finish) => Finish(index, open, toolUsed, usage, finish)
      case Error(code, message) => Close(index, open) + [ErrorEvent(code + ": " + message), MessageStop]
      case Other => From(events[1..], index, open, toolUsed)
  }

  function Stream(events: seq<Event>): seq<Sse>
  {
    [MessageStart] + From(events, 0, false, false)
  }

  // ----- what a client makes of a stream -----

  /** Reading a stream: before the start, between blocks, inside one, after the summary, or after the end. */
  datatype Phase = Before | Between(next: nat) | Inside(index: nat, block: Block) | Summed | Broken | Ended | Bad

  function Advance(p: Phase, e: Sse): Phase
  {
    match (p, e)
    case (Before, MessageStart) => Between(0)
    case (Between(n), BlockStart(i, b)) => if i == n then Inside(i, b) else Bad
    case (Inside(n, b), BlockDelta(i, d)) => if i == n && (b.TextBlock? <==> d.TextDelta?) then p else Bad
    case (Inside(n, _), BlockStop(i)) => if i == n then Between(n + 1) else Bad
    case (Between(_), MessageDelta(_, _)) => Summed
    case (Between(_), ErrorEvent(_)) => Broken
    case (Summed, MessageStop) => Ended
    case (Broken, MessageStop) => Ended
    case (Between(_), Comment(_)) => p
    case (Inside(_, _), Comment(_)) => p
    case _ => Bad
  }

  function ReadPhase(p: Phase, out: seq<Sse>): Phase
    decreases |out|
  {
    if out == [] then p else ReadPhase(Advance(p, out[0]), out[1..])
  }

  lemma {:induction false} ReadConcat(p: Phase, a: seq<Sse>, b: seq<Sse>)
    ensures ReadPhase(p, a + b) == ReadPhase(ReadPhase(p, a), b)
    decreases |a|
  {
    if a == [] {
      assert a + b == b;
    } else {
      assert (a + b)[1..] == a[1..] + b;
      ReadConcat(Advance(p, a[0]), a[1..], b);
    }
  }

  lemma {:induction false} CallsAreBlocks(index: nat, calls: seq<ToolCall>)
    ensures ReadPhase(Between(index), CallsOut(index, calls)) == Between(index + |calls|)
    decreases |calls|
  {
    if calls != [] {
      var one := StreamToolUse(index, calls[0]);
      assert one == [one[0]] + [one[1], one[2]];
      ReadConcat(Between(index), [one[0]], [one[1], one[2]]);
      OneStep(Between(index), one[0]);
      TwoSteps(Advance(Between(index), one[0]), one[1], one[2]);
      ReadConcat(Between(index), one, CallsOut(index + 1, calls[1..]));
      CallsAreBlocks(index + 1, calls[1..]);
    }
  }

  /** The reader's phase when the relay's next block index is `index`. */
  function PhaseAt(index: nat, open: bool): Phase
  {
    if open then Inside(index, TextBlock) else Between(index)
  }

  lemma {:induction false} CloseEnds(index: nat, open: bool)
    ensures ReadPhase(PhaseAt(index, open), Close(index, open)) == Between(if open then index + 1 else index)
  {
    if open {
      assert [BlockStop(index)][1..] == [];
    }
  }

  lemma {:induction false} TwoSteps(p: Phase, a: Sse, b: Sse)
    ensures ReadPhase(p, [a, b]) == Advance(Advance(p, a), b)
  {
    assert [a, b][1..] == [b] && [b][1..] == [];
    assert ReadPhase(p, [a, b]) == ReadPhase(Advance(p, a), [b]);
  }

  lemma {:induction false} OneStep(p: Phase, a: Sse)
    ensures ReadPhase(p, [a]) == Advance(p, a)
  {
    assert [a][1..] == [];
  }

  lemma {:induction false} FinishEnds(index: nat, open: bool, stop: Sse)
    requires stop.MessageDelta? || stop.ErrorEvent?
    ensures ReadPhase(PhaseAt(index, open), Close(index, open) + [stop, MessageStop]) == Ended
  {
    hide ReadPhase, Close;
    CloseEnds(index, open);
    ReadConcat(PhaseAt(index, open), Close(index, open), [stop, MessageStop]);
    TwoSteps(Between(if open then index + 1 else index), stop, MessageStop);
  }

  lemma {:induction false} FromIsWellFormed(events: seq<Event>, index: nat, open: bool, toolUsed: bool)
    ensures ReadPhase(PhaseAt(index, open), From(events, index, open, toolUsed)) == Ended
    decreases |events|
  {
    hide ReadPhase, StopReason, CallsOut, Close;
    var p := PhaseAt(index, open);
    if events == [] {
      FinishEnds(index, open, MessageDelta(StopReason(None, toolUsed), 0));
    } else {
      var next := if open then index + 1 else index;
      match events[0]
      case Token(tok) =>
        FromIsWellFormed(events[1..], index, true, toolUsed);
        ReadConcat(p, TokenOut(index, open, tok), From(events[1..], index, true, toolUsed));
        if open {
          assert TokenOut(index, open, tok) == [BlockDelta(index, TextDelta(tok))];
          OneStep(p, BlockDelta(index, TextDelta(tok)));
        } else {
          assert TokenOut(index, open, tok) == [BlockStart(index, TextBlock), BlockDelta(index, TextDelta(tok))];
          TwoSteps(p, BlockStart(index, TextBlock), BlockDelta(index, TextDelta(tok)));
        }
      case OneCall(call) =>
        FromIsWellFormed(events[1..], next + 1, false, true);
        CallsThen(index, open, [call], From(events[1..], next + 1, false, true));
      case ManyCalls(calls) =>
        FromIsWellFormed(events[1..], next + |calls|, false, true);
        CallsThen(index, open, calls, From(events[1..], next + |calls|, false, true));
      case Notice(text) =>
        FromIsWellFormed(events[1..], index, open, toolUsed);
        ReadConcat(p, [Comment(text)], From(events[1..], index, open, toolUsed));
        OneStep(p, Comment(text));
      case Done(usage, finish) =>
        FinishEnds(index, open, MessageDelta(StopReason(finish, toolUsed), usage.completion));
      case Error(code, message) =>
        FinishEnds(index, open, ErrorEvent(code + ": " + message));
      case Other =>
        FromIsWellFormed(events[1..], index, open, toolUsed);
    }
  }

  lemma {:induction false} CallsThen(index: nat, open: bool, calls: seq<ToolCall>, rest: seq<Sse>)
    ensures var next := if open then index + 1 else index;
            ReadPhase(PhaseAt(index, open), Close(index, open) + CallsOut(next, calls) + rest) ==
            ReadPhase(Between(next + |calls|), rest)
  {
    hide ReadPhase, CallsOut, Close;
    var next := if open then index + 1 else index;
    CloseEnds(index, open);
    CallsAreBlocks(next, calls);
    ReadConcat(PhaseAt(index, open), Close(index, open), CallsOut(next, calls));
    ReadConcat(PhaseAt(index, open), Close(index, open) + CallsOut(next, calls), rest);
  }

  /** Every stream is well formed: blocks numbered in order, each closed before the next, `message_stop` last. */
  lemma {:induction false} StreamIsWellFormed(events: seq<Event>)
    ensures ReadPhase(Before, Stream(events)) == Ended
  {
    FromIsWellFormed(events, 0, false, false);
    ReadConcat(Before, [MessageStart], From(events, 0, false, false));
    OneStep(Before, MessageStart);
  }

  // ----- the non-streaming relay -----

  /** What the events of a turn come to. */
  datatype Outcome =
    | Message(text: string, calls: seq<ToolCall>, stop: string, usage: Usage)
    | Failure(status: nat, kind: string, message: string)

  function FailureOf(code: string, message: string): Outcome
  {
    if code == "policy-denied" then Failure(403, "permission_error", message)
    else if code == "rate-limited" then Failure(429, "rate_limit_error", message)
    else Failure(400, "invalid_request_error", message)
  }

  /** The outcome of the events from here on, given what was collected. */
  function Collected(events: seq<Event>, text: string, calls: seq<ToolCall>, toolUsed: bool): Outcome
    decreases |events|
  {
    if events == [] then Message(text, calls, StopReason(None, toolUsed), Usage(0, 0))
    else match events[0]
      case Token(tok) => Collected(events[1..], text + tok, calls, toolUsed)
      case OneCall(call) => Collected(events[1..], text, calls + [call], true)
      case ManyCalls(more) => Collected(events[1..], text, calls + more, true)
      case Done(usage, finish) => Message(text, calls, StopReason(finish, toolUsed), usage)
      case Error(code, message) => FailureOf(code, message)
      case Notice(_) => Collected(events[1..], text, calls, toolUsed)
      case Other => Collected(events[1..], text, calls, toolUsed)
  }

  /** A JSON reader, and the empty object. */
  datatype Reader<V> = Reader(parse: string -> Option<V>, empty: V)

  /** One entry of a reply's content; a tool call has its arguments as an object, not as text. */
  datatype Content<V> = Prose(text: string) | ToolUse(id: string, name: string, input: V)

  datatype Reply<V> =
    | Answer(content: seq<Content<V>>, stop: string, usage: Usage)
    | Refusal(status: nat, kind: string, message: string)

  /** Arguments that do not parse become the empty object. */
  function ToolUseBlock<V>(rd: Reader<V>, call: ToolCall): Content<V>
  {
    var parsed := rd.parse(call.arguments);
    ToolUse(call.id, call.name, if parsed.Some? then parsed.value else rd.empty)
  }

  function Blocks<V>(rd: Reader<V>, calls: seq<ToolCall>): (r: seq<Content<V>>)
    ensures |r| == |calls| && forall i :: 0 <= i < |calls| ==> r[i] == ToolUseBlock(rd, calls[i])
  {
    seq(|calls|, i requires 0 <= i < |calls| => ToolUseBlock(rd, calls[i]))
  }

  /** Text first, left out when there is none, then the tool calls. */
  function ContentOf<V>(rd: Reader<V>, text: string, calls: seq<ToolCall>): seq<Content<V>>
  {
    (if text == "" then [] else [Prose(text)]) + Blocks(rd, calls)
  }

  function Rendered<V>(rd: Reader<V>, o: Outcome): Reply<V>
  {
    match o
    case Message(text, calls, stop, usage) => Answer(ContentOf(rd, text, calls), stop, usage)
    case Failure(status, kind, message) => Refusal(status, kind, message)
  }

  method RelayJson<V>(rd: Reader<V>, events: seq<Event>) returns (r: Reply<V>)
    ensures r == Rendered(rd, Collected(events, "", [], false))
  {
    var text: string := "";
    var blocks: seq<Content<V>> := [];
    ghost var calls: seq<ToolCall> := [];
    var usage, finish, toolUsed := Usage(0, 0), None, false;
    var i := 0;
    assert events[0..] == events;
    while i < |events|
      invariant i <= |events| && blocks == Blocks(rd, calls)
      invariant Collected(events[i..], text, calls, toolUsed) == Collected(events, "", [], false)
      decreases |events| - i
    {
      assert events[i..][0] == events[i] && events[i..][1..] == events[i + 1..];
      match events[i] {
        case Token(tok) => text := text + tok;
        case OneCall(call) =>
          toolUsed := true;
          blocks := blocks + [ToolUseBlock(rd, call)];
          calls := calls + [call];
        case ManyCalls(more) =>
          toolUsed := true;
          blocks := blocks + Blocks(rd, more);
          calls := calls + more;
        case Done(u, f) =>
          usage, finish := u, f;
          break;
        case Error(code, message) => return Rendered(rd, FailureOf(code, message));
        case Notice(_) =>
        case Other =>
      }
      i := i + 1;
    }
    assert i == |events| ==> events[i..] == [];
    var content: seq<Content<V>> := [];
    if text != "" {
      content := content + [Prose(text)];
    }
    content := content + blocks;
    r := Answer(content, StopReason(finish, toolUsed), usage);
  }

  // ----- the two relays tell the client the same -----

  /** A block as a client of the stream has it, the arguments still as text. */
  datatype Piece = Words(text: string) | Call(call: ToolCall)

  /** What a client has put together from a stream. */
  datatype View = View(blocks: seq<Piece>, stop: Option<string>, outputTokens: nat, failed: bool)

  const NOTHING := View([], None, 0, false)

  /** A delta goes to the block that it names. */
  function Extend(blocks: seq<Piece>, index: nat, d: Delta): seq<Piece>
  {
    if index >= |blocks| then blocks
    else match (blocks[index], d)
      case (Words(text), TextDelta(t)) => blocks[index := Words(text + t)]
      case (Call(c), JsonDelta(j)) => blocks[index := Call(c.(arguments := c.arguments + j))]
      case _ => blocks
  }

  function Absorb(v: View, e: Sse): View
  {
    match e
    case BlockStart(_, TextBlock) => v.(blocks := v.blocks + [Words("")])
    case BlockStart(_, ToolBlock(id, name)) => v.(blocks := v.blocks + [Call(ToolCall(id, name, ""))])
    case BlockDelta(i, d) => v.(blocks := Extend(v.blocks, i, d))
    case MessageDelta(stop, n) => v.(stop := Some(stop), outputTokens := n)
    case ErrorEvent(_) => v.(failed := true)
    case _ => v
  }

  function AbsorbAll(v: View, out: seq<Sse>): View
    decreases |out|
  {
    if out == [] then v else AbsorbAll(Absorb(v, out[0]), out[1..])
  }

  lemma {:induction false} AbsorbConcat(v: View, a: seq<Sse>, b: seq<Sse>)
    ensures AbsorbAll(v, a + b) == AbsorbAll(AbsorbAll(v, a), b)
    decreases |a|
  {
    if a == [] {
      assert a + b == b;
    } else {
      assert (a + b)[1..] == a[1..] + b;
      AbsorbConcat(Absorb(v, a[0]), a[1..], b);
    }
  }

  lemma {:induction false} AbsorbOne(v: View, a: Sse)
    ensures AbsorbAll(v, [a]) == Absorb(v, a)
  {
    assert [a][1..] == [];
  }

  lemma {:induction false} AbsorbTwo(v: View, a: Sse, b: Sse)
    ensures AbsorbAll(v, [a, b]) == Absorb(Absorb(v, a), b)
  {
    assert [a, b] == [a] + [b];
    AbsorbConcat(v, [a], [b]);
    AbsorbOne(v, a);
    AbsorbOne(Absorb(v, a), b);
  }

  function CallPieces(calls: seq<ToolCall>): (r: seq<Piece>)
    ensures |r| == |calls| && forall i :: 0 <= i < |calls| ==> r[i] == Call(calls[i])
  {
    seq(|calls|, i requires 0 <= i < |calls| => Call(calls[i]))
  }

  lemma {:induction false} AbsorbToolUse(v: View, c: ToolCall)
    ensures AbsorbAll(v, StreamToolUse(|v.blocks|, c)) == v.(blocks := v.blocks + [Call(c)])
  {
    hide AbsorbAll;
    var one := StreamToolUse(|v.blocks|, c);
    assert one == [one[0], one[1]] + [one[2]];
    AbsorbConcat(v, [one[0], one[1]], [one[2]]);
    AbsorbTwo(v, one[0], one[1]);
    AbsorbOne(Absorb(Absorb(v, one[0]), one[1]), one[2]);
    assert "" + c.arguments == c.arguments;
    assert Absorb(Absorb(v, one[0]), one[1]).blocks == v.blocks + [Call(c)];
  }

  lemma {:induction false} AbsorbCalls(v: View, calls: seq<ToolCall>)
    ensures AbsorbAll(v, CallsOut(|v.blocks|, calls)) == v.(blocks := v.blocks + CallPieces(calls))
    decreases |calls|
  {
    if calls == [] {
      assert v.blocks + CallPieces(calls) == v.blocks;
    } else {
      hide AbsorbAll;
      var index, c := |v.blocks|, calls[0];
      var v1 := v.(blocks := v.blocks + [Call(c)]);
      AbsorbToolUse(v, c);
      AbsorbConcat(v, StreamToolUse(index, c), CallsOut(index + 1, calls[1..]));
      AbsorbCalls(v1, calls[1..]);
      assert v.blocks + [Call(c)] + CallPieces(calls[1..]) == v.blocks + CallPieces(calls);
    }
  }

  lemma {:induction false} AbsorbClose(v: View, index: nat, open: bool)
    ensures AbsorbAll(v, Close(index, open)) == v
  {
    if open { AbsorbOne(v, BlockStop(index)); }
  }

  lemma {:induction false} AbsorbFinish(v: View, index: nat, open: bool, stop: Sse)
    requires stop.MessageDelta? || stop.ErrorEvent?
    ensures AbsorbAll(v, Close(index, open) + [stop, MessageStop]) == Absorb(v, stop)
  {
    hide AbsorbAll, Close;
    AbsorbClose(v, index, open);
    AbsorbConcat(v, Close(index, open), [stop, MessageStop]);
    AbsorbTwo(v, stop, MessageStop);
  }

  lemma {:induction false} CallsThenAbsorb(v: View, index: nat, open: bool, calls: seq<ToolCall>, rest: seq<Sse>)
    ensures AbsorbAll(v, Close(index, open) + CallsOut(|v.blocks|, calls) + rest) ==
            AbsorbAll(v.(blocks := v.blocks + CallPieces(calls)), rest)
  {
    hide AbsorbAll, Close, CallsOut;
    AbsorbClose(v, index, open);
    AbsorbCalls(v, calls);
    AbsorbConcat(v, Close(index, open), CallsOut(|v.blocks|, calls));
    AbsorbConcat(v, Close(index, open) + CallsOut(|v.blocks|, calls), rest);
  }

  /** A token goes on with the open text block or begins one. */
  function AddToken(blocks: seq<Piece>, open: bool, tok: string): seq<Piece>
    requires open ==> Speaking(blocks)
  {
    if open then blocks[|blocks| - 1 := Words(blocks[|blocks| - 1].text + tok)] else blocks + [Words(tok)]
  }

  predicate Speaking(blocks: seq<Piece>)
  {
    blocks != [] && blocks[|blocks| - 1].Words?
  }

  /** The calls of an event. */
  function CallsIn(e: Event): seq<ToolCall>
  {
    match e
    case OneCall(call) => [call]
    case ManyCalls(calls) => calls
    case _ => []
  }

  predicate IsCall(e: Event)
  {
    e.OneCall? || e.ManyCalls?
  }

  predicate Ends(events: seq<Event>)
  {
    events == [] || events[0].Done? || events[0].Error?
  }

  /** The blocks that the events of a turn make, in the order of the events. */
  function Pieces(events: seq<Event>, blocks: seq<Piece>, open: bool): seq<Piece>
    requires open ==> Speaking(blocks)
    decreases |events|
  {
    if Ends(events) then blocks
    else if events[0].Token? then Pieces(events[1..], AddToken(blocks, open, events[0].tok), true)
    else if IsCall(events[0]) then Pieces(events[1..], blocks + CallPieces(CallsIn(events[0])), false)
    else Pieces(events[1..], blocks, open)
  }

  lemma {:induction false} AbsorbToken(v: View, index: nat, open: bool, tok: string, rest: seq<Sse>)
    requires (open ==> Speaking(v.blocks)) && |v.blocks| == if open then index + 1 else index
    ensures AbsorbAll(v, TokenOut(index, open, tok) + rest) ==
            AbsorbAll(v.(blocks := AddToken(v.blocks, open, tok)), rest)
  {
    hide AbsorbAll;
    AbsorbConcat(v, TokenOut(index, open, tok), rest);
    var delta := BlockDelta(index, TextDelta(tok));
    if open {
      assert TokenOut(index, open, tok) == [delta];
      AbsorbOne(v, delta);
    } else {
      assert TokenOut(index, open, tok) == [BlockStart(index, TextBlock), delta];
      AbsorbTwo(v, BlockStart(index, TextBlock), delta);
      assert "" + tok == tok;
      assert (v.blocks + [Words("")])[index := Words(tok)] == v.blocks + [Words(tok)];
    }
  }

  /** What the client has at the end: these blocks and the summary of the outcome, or a failure. */
  ghost predicate Matches(v: View, blocks: seq<Piece>, o: Outcome)
  {
    match o
    case Message(_, _, stop, usage) => v == View(blocks, Some(stop), usage.completion, false)
    case Failure(_, _, _) => v.failed && v.stop.None?
  }

  lemma {:induction false} FromAgrees(events: seq<Event>, index: nat, open: bool, toolUsed: bool, v: View, text: string,
                                      calls: seq<ToolCall>)
    requires v.stop.None? && !v.failed && (open ==> Speaking(v.blocks))
    requires |v.blocks| == if open then index + 1 else index
    ensures Matches(AbsorbAll(v, From(events, index, open, toolUsed)), Pieces(events, v.blocks, open),
              Collected(events, text, calls, toolUsed))
    decreases |events|
  {
    hide AbsorbAll, StopReason, CallsOut, Close, FailureOf, TokenOut, AddToken;
    if events == [] {
      AbsorbFinish(v, index, open, MessageDelta(StopReason(None, toolUsed), 0));
    } else {
      var next := if open then index + 1 else index;
      match events[0]
      case Token(tok) =>
        AddTokenSpeaks(v.blocks, open, tok);
        FromAgrees(events[1..], index, true, toolUsed, v.(blocks := AddToken(v.blocks, open, tok)), text + tok, calls);
        AbsorbToken(v, index, open, tok, From(events[1..], index, true, toolUsed));
      case OneCall(call) =>
        var more := CallPieces([call]);
        FromAgrees(events[1..], next + 1, false, true, v.(blocks := v.blocks + more), text, calls + [call]);
        CallsThenAbsorb(v, index, open, [call], From(events[1..], next + 1, false, true));
      case ManyCalls(cs) =>
        var more := CallPieces(cs);
        FromAgrees(events[1..], next + |cs|, false, true, v.(blocks := v.blocks + more), text, calls + cs);
        CallsThenAbsorb(v, index, open, cs, From(events[1..], next + |cs|, false, true));
      case Notice(note) =>
        FromAgrees(events[1..], index, open, toolUsed, v, text, calls);
        AbsorbConcat(v, [Comment(note)], From(events[1..], index, open, toolUsed));
        AbsorbOne(v, Comment(note));
      case Done(usage, finish) =>
        AbsorbFinish(v, index, open, MessageDelta(StopReason(finish, toolUsed), usage.completion));
      case Error(code, message) =>
        AbsorbFinish(v, index, open, ErrorEvent(code + ": " + message));
        FailuresFail(code, message);
      case Other =>
        FromAgrees(events[1..], index, open, toolUsed, v, text, calls);
    }
  }

  lemma {:induction false} AddTokenSpeaks(blocks: seq<Piece>, open: bool, tok: string)
    requires open ==> Speaking(blocks)
    ensures var r := AddToken(blocks, open, tok); Speaking(r) && |r| == if open then |blocks| else |blocks| + 1
  {
  }

  lemma {:induction false} FailuresFail(code: string, message: string)
    ensures FailureOf(code, message).Failure?
  {
  }

  // ----- what was said and which calls were made -----

  /** The text that reaches the client: the tokens before the turn is done or fails. */
  function Said(events: seq<Event>): string
  {
    if Ends(events) then "" else (if events[0].Token? then events[0].tok else "") + Said(events[1..])
  }

  /** The calls that reach the client. */
  function Delivered(events: seq<Event>): seq<ToolCall>
  {
    if Ends(events) then [] else CallsIn(events[0]) + Delivered(events[1..])
  }

  predicate Speaks(events: seq<Event>)
  {
    !Ends(events) && (events[0].Token? || Speaks(events[1..]))
  }

  lemma {:induction false} CollectedParts(events: seq<Event>, text: string, calls: seq<ToolCall>, toolUsed: bool)
    ensures var o := Collected(events, text, calls, toolUsed);
            o.Message? ==> o.text == text + Said(events) && o.calls == calls + Delivered(events)
    decreases |events|
  {
    hide StopReason, FailureOf;
    if events != [] {
      match events[0]
      case Token(tok) => CollectedParts(events[1..], text + tok, calls, toolUsed);
      case OneCall(call) => CollectedParts(events[1..], text, calls + [call], true);
      case ManyCalls(more) => CollectedParts(events[1..], text, calls + more, true);
      case Done(usage, finish) =>
      case Error(code, message) => FailuresFail(code, message);
      case Notice(_) => CollectedParts(events[1..], text, calls, toolUsed);
      case Other => CollectedParts(events[1..], text, calls, toolUsed);
    }
  }

  function TextOf(blocks: seq<Piece>): string
  {
    if blocks == [] then ""
    else
      var n := |blocks| - 1;
      TextOf(blocks[..n]) + if blocks[n].Words? then blocks[n].text else ""
  }

  function CallsOf(blocks: seq<Piece>): seq<ToolCall>
  {
    if blocks == [] then []
    else
      var n := |blocks| - 1;
      CallsOf(blocks[..n]) + if blocks[n].Call? then [blocks[n].call] else []
  }

  lemma {:induction false} AddTokenParts(blocks: seq<Piece>, open: bool, tok: string)
    requires open ==> Speaking(blocks)
    ensures var r := AddToken(blocks, open, tok); TextOf(r) == TextOf(blocks) + tok && CallsOf(r) == CallsOf(blocks)
  {
    var r := AddToken(blocks, open, tok);
    if open {
      assert r[..|r| - 1] == blocks[..|blocks| - 1];
    } else {
      assert r[..|r| - 1] == blocks;
    }
  }

  lemma {:induction false} AddCallsParts(blocks: seq<Piece>, calls: seq<ToolCall>)
    ensures var r := blocks + CallPieces(calls); TextOf(r) == TextOf(blocks) && CallsOf(r) == CallsOf(blocks) + calls
    decreases |calls|
  {
    var r := blocks + CallPieces(calls);
    if calls == [] {
      assert r == blocks;
    } else {
      var n := |calls| - 1;
      assert r[..|r| - 1] == blocks + CallPieces(calls[..n]);
      AddCallsParts(blocks, calls[..n]);
      assert calls[..n] + [calls[n]] == calls;
    }
  }

  lemma {:induction false} PiecesParts(events: seq<Event>, blocks: seq<Piece>, open: bool)
    requires open ==> Speaking(blocks)
    ensures var r := Pieces(events, blocks, open);
            TextOf(r) == TextOf(blocks) + Said(events) && CallsOf(r) == CallsOf(blocks) + Delivered(events)
    decreases |events|
  {
    hide TextOf, CallsOf, AddToken, Speaking, CallPieces;
    if !Ends(events) {
      if events[0].Token? {
        AddTokenSpeaks(blocks, open, events[0].tok);
        AddTokenParts(blocks, open, events[0].tok);
        PiecesParts(events[1..], AddToken(blocks, open, events[0].tok), true);
      } else if IsCall(events[0]) {
        AddCallsParts(blocks, CallsIn(events[0]));
        PiecesParts(events[1..], blocks + CallPieces(CallsIn(events[0])), false);
      } else {
        PiecesParts(events[1..], blocks, open);
      }
    }
  }

  /** The folded stream has the text, tool calls, stop reason and output tokens of the events, and its blocks are in the
      order of the events; a daemon error fails it. */
  lemma {:induction false} StreamCarriesOutcome(events: seq<Event>)
    ensures var o, v := Collected(events, "", [], false), AbsorbAll(NOTHING, Stream(events));
            && Matches(v, Pieces(events, [], false), o)
            && (o.Message? ==> TextOf(v.blocks) == o.text == Said(events))
            && (o.Message? ==> CallsOf(v.blocks) == o.calls == Delivered(events))
  {
    hide AbsorbAll, From, Collected, Pieces, Said, Delivered;
    AbsorbConcat(NOTHING, [MessageStart], From(events, 0, false, false));
    AbsorbOne(NOTHING, MessageStart);
    FromAgrees(events, 0, false, false, NOTHING, "", []);
    PiecesParts(events, [], false);
    CollectedParts(events, "", [], false);
    assert "" + Said(events) == Said(events) && [] + Delivered(events) == Delivered(events);
  }

  // ----- how a turn is said to have ended -----

  /** Some event of the turn brought tool calls. */
  predicate UsesTools(events: seq<Event>)
  {
    !Ends(events) && (IsCall(events[0]) || UsesTools(events[1..]))
  }

  /** The event that ended the turn, if it came. */
  function Ending(events: seq<Event>): Option<Event>
  {
    if events == [] then None else if Ends(events) then Some(events[0]) else Ending(events[1..])
  }

  lemma {:induction false} CollectedEnding(events: seq<Event>, text: string, calls: seq<ToolCall>, toolUsed: bool)
    ensures var o, used, end := Collected(events, text, calls, toolUsed), toolUsed || UsesTools(events), Ending(events);
            && (end.None? ==> o.Message? && o.stop == StopReason(None, used) && o.usage == Usage(0, 0))
            && (end.Some? && end.value.Done? ==>
                  o.Message? && o.stop == StopReason(end.value.finish, used) && o.usage == end.value.usage)
            && (end.Some? && end.value.Error? ==> o == FailureOf(end.value.code, end.value.message))
            && (end.Some? ==> end.value.Done? || end.value.Error?)
    decreases |events|
  {
    hide StopReason, FailureOf;
    if events != [] {
      match events[0]
      case Token(tok) => CollectedEnding(events[1..], text + tok, calls, toolUsed);
      case OneCall(call) => CollectedEnding(events[1..], text, calls + [call], true);
      case ManyCalls(more) => CollectedEnding(events[1..], text, calls + more, true);
      case Done(_, _) =>
      case Error(_, _) =>
      case Notice(_) => CollectedEnding(events[1..], text, calls, toolUsed);
      case Other => CollectedEnding(events[1..], text, calls, toolUsed);
    }
  }

  /** The stop reason and the usage that both relays tell, and the status and kind of a refusal, by what the events
      were:
      a turn that brought tool calls stops for tool use, else the daemon's word decides; no ending counts as a plain
      one. */
  lemma {:induction false} EndingTold(events: seq<Event>)
    ensures var o, end := Collected(events, "", [], false), Ending(events);
            var finish := if end.Some? && end.value.Done? then end.value.finish else None;
            && (o.Failure? <==> end.Some? && end.value.Error?)
            && (o.Message? && UsesTools(events) ==> o.stop == "tool_use")
            && (o.Message? && !UsesTools(events) ==>
                  && (finish == Some("length") ==> o.stop == "max_tokens")
                  && (finish == Some("stop_sequence") ==> o.stop == "stop_sequence")
                  && (finish != Some("length") && finish != Some("stop_sequence") ==> o.stop == "end_turn"))
            && (o.Message? ==> o.usage == if end.Some? && end.value.Done? then end.value.usage else Usage(0, 0))
            && (o.Failure? ==>
                  && o.message == end.value.message
                  && (o.status == 403 <==> end.value.code == "policy-denied")
                  && (o.status == 429 <==> end.value.code == "rate-limited")
                  && (o.kind == "permission_error" <==> o.status == 403)
                  && (o.kind == "rate_limit_error" <==> o.status == 429)
                  && (o.status !in {403, 429} ==> o.status == 400 && o.kind == "invalid_request_error"))
  {
    hide Collected, Ending, UsesTools;
    CollectedEnding(events, "", [], false);
  }

  // ----- the order of the blocks -----

  /** Every block but the first is a tool call. */
  predicate Settled(blocks: seq<Piece>)
  {
    forall k :: 1 <= k < |blocks| ==> blocks[k].Call?
  }

  /** How far a turn is: nothing yet, in its text, or past it. */
  datatype Stage = Silent | Talking | Calling

  /** Every token comes before the first call, and none after the text was broken off. */
  predicate TextFirst(events: seq<Event>, stage: Stage)
  {
    if Ends(events) then true
    else if events[0].Token? then stage != Calling && TextFirst(events[1..], Talking)
    else if IsCall(events[0]) then
      TextFirst(events[1..], if stage == Silent && CallsIn(events[0]) == [] then Silent else Calling)
    else TextFirst(events[1..], stage)
  }

  function StageOf(blocks: seq<Piece>, open: bool): Stage
  {
    if blocks == [] then Silent else if open then Talking else Calling
  }

  lemma {:induction false} UnsettledStays(events: seq<Event>, blocks: seq<Piece>, open: bool)
    requires (open ==> Speaking(blocks)) && !Settled(blocks)
    ensures !Settled(Pieces(events, blocks, open))
    decreases |events|
  {
    if !Ends(events) {
      var k :| 1 <= k < |blocks| && !blocks[k].Call?;
      if events[0].Token? {
        var next := AddToken(blocks, open, events[0].tok);
        assert !next[k].Call?;
        UnsettledStays(events[1..], next, true);
      } else if IsCall(events[0]) {
        var next := blocks + CallPieces(CallsIn(events[0]));
        assert !next[k].Call?;
        UnsettledStays(events[1..], next, false);
      } else {
        UnsettledStays(events[1..], blocks, open);
      }
    }
  }

  lemma {:induction false} SettledExact(events: seq<Event>, blocks: seq<Piece>, open: bool)
    requires (open ==> Speaking(blocks)) && Settled(blocks)
    ensures Settled(Pieces(events, blocks, open)) <==> TextFirst(events, StageOf(blocks, open))
    decreases |events|
  {
    if !Ends(events) {
      if events[0].Token? {
        var next := AddToken(blocks, open, events[0].tok);
        if StageOf(blocks, open) == Calling {
          assert !next[|next| - 1].Call?;
          UnsettledStays(events[1..], next, true);
        } else {
          SettledExact(events[1..], next, true);
        }
      } else if IsCall(events[0]) {
        SettledExact(events[1..], blocks + CallPieces(CallsIn(events[0])), false);
      } else {
        SettledExact(events[1..], blocks, open);
      }
    }
  }

  ghost predicate HasWords(blocks: seq<Piece>)
  {
    exists k :: 0 <= k < |blocks| && blocks[k].Words?
  }

  lemma {:induction false} WordsExact(events: seq<Event>, blocks: seq<Piece>, open: bool)
    requires open ==> Speaking(blocks)
    ensures HasWords(Pieces(events, blocks, open)) <==> HasWords(blocks) || Speaks(events)
    decreases |events|
  {
    if !Ends(events) {
      if events[0].Token? {
        var next := AddToken(blocks, open, events[0].tok);
        assert next[|next| - 1].Words?;
        WordsExact(events[1..], next, true);
      } else if IsCall(events[0]) {
        var next := blocks + CallPieces(CallsIn(events[0]));
        assert forall k :: 0 <= k < |blocks| ==> next[k] == blocks[k];
        WordsExact(events[1..], next, false);
      } else {
        WordsExact(events[1..], blocks, open);
      }
    }
  }

  /** The text, unless it is empty, and then the calls. */
  function Arranged(text: string, calls: seq<ToolCall>): seq<Piece>
  {
    (if text == "" then [] else [Words(text)]) + CallPieces(calls)
  }

  lemma {:induction false} OnlyCalls(blocks: seq<Piece>)
    requires !HasWords(blocks)
    ensures TextOf(blocks) == "" && blocks == CallPieces(CallsOf(blocks))
  {
    if blocks != [] {
      OnlyCalls(blocks[..|blocks| - 1]);
    }
  }

  lemma {:induction false} WordsThenCalls(blocks: seq<Piece>)
    requires Settled(blocks) && blocks != [] && blocks[0].Words?
    ensures TextOf(blocks) == blocks[0].text && blocks == [blocks[0]] + CallPieces(CallsOf(blocks))
    decreases |blocks|
  {
    var n := |blocks| - 1;
    if n == 0 {
      assert blocks[..0] == [];
    } else {
      WordsThenCalls(blocks[..n]);
      assert blocks == blocks[..n] + [blocks[n]];
    }
  }

  /** Blocks are their text and then their calls if and only if no text comes later and the first is not empty. */
  lemma {:induction false} ArrangedExact(blocks: seq<Piece>)
    ensures blocks == Arranged(TextOf(blocks), CallsOf(blocks)) <==>
            Settled(blocks) && (HasWords(blocks) ==> TextOf(blocks) != "")
  {
    hide TextOf, CallsOf;
    if Settled(blocks) {
      if HasWords(blocks) {
        WordsThenCalls(blocks);
      } else {
        OnlyCalls(blocks);
      }
    }
  }

  // ----- the two relays, compared -----

  /** A streaming client parses a call's arguments itself. */
  ghost predicate Same<V>(rd: Reader<V>, p: Piece, c: Content<V>)
  {
    match p
    case Words(text) => c == Prose(text)
    case Call(call) => c.ToolUse? && c.id == call.id && c.name == call.name && rd.parse(call.arguments) == Some(c.input)
  }

  /** Block by block the client has the reply's content; a failed stream agrees with a refusal. */
  ghost predicate Agrees<V>(rd: Reader<V>, v: View, r: Reply<V>)
  {
    match r
    case Answer(content, stop, usage) =>
      && v.stop == Some(stop) && v.outputTokens == usage.completion && !v.failed
      && SameAll(rd, v.blocks, content)
    case Refusal(_, _, _) => v.failed && v.stop.None?
  }

  predicate AllParse<V>(rd: Reader<V>, calls: seq<ToolCall>)
  {
    forall i :: 0 <= i < |calls| ==> rd.parse(calls[i].arguments).Some?
  }

  lemma {:induction false} ContentShape<V>(rd: Reader<V>, text: string, calls: seq<ToolCall>, n: nat)
    requires n == if text == "" then 0 else 1
    ensures var content := ContentOf(rd, text, calls);
            && |content| == n + |calls| && (n == 1 ==> content[0] == Prose(text))
            && (forall k :: n <= k < |content| ==> content[k] == ToolUseBlock(rd, calls[k - n]))
  {
    hide ToolUseBlock;
  }

  lemma {:induction false} ArrangedShape(text: string, calls: seq<ToolCall>, n: nat)
    requires n == if text == "" then 0 else 1
    ensures var pieces := Arranged(text, calls);
            && |pieces| == n + |calls| && (n == 1 ==> pieces[0] == Words(text))
            && (forall k :: n <= k < |pieces| ==> pieces[k] == Call(calls[k - n]))
  {
  }

  ghost predicate SameAll<V>(rd: Reader<V>, blocks: seq<Piece>, content: seq<Content<V>>)
  {
    |blocks| == |content| && forall i :: 0 <= i < |content| ==> Same(rd, blocks[i], content[i])
  }

  lemma {:induction false} SameIsArranged<V>(rd: Reader<V>, blocks: seq<Piece>)
    requires SameAll(rd, blocks, ContentOf(rd, TextOf(blocks), CallsOf(blocks)))
    ensures blocks == Arranged(TextOf(blocks), CallsOf(blocks))
  {
    hide TextOf, CallsOf, ContentOf, Arranged;
    var n := if TextOf(blocks) == "" then 0 else 1;
    var content := ContentOf(rd, TextOf(blocks), CallsOf(blocks));
    ContentShape(rd, TextOf(blocks), CallsOf(blocks), n);
    assert forall i :: n <= i < |blocks| ==> Same(rd, blocks[i], content[i]) && content[i].ToolUse?;
    ArrangedExact(blocks);
  }

  lemma {:induction false} ArrangedIsSame<V>(rd: Reader<V>, text: string, calls: seq<ToolCall>)
    ensures SameAll(rd, Arranged(text, calls), ContentOf(rd, text, calls)) <==> AllParse(rd, calls)
  {
    hide ContentOf, Arranged;
    var n := if text == "" then 0 else 1;
    ContentShape(rd, text, calls, n);
    ArrangedShape(text, calls, n);
    var pieces, content := Arranged(text, calls), ContentOf(rd, text, calls);
    forall k | n <= k < |content|
      ensures Same(rd, pieces[k], content[k]) <==> rd.parse(calls[k - n].arguments).Some?
    {
      assert pieces[k] == Call(calls[k - n]) && content[k] == ToolUseBlock(rd, calls[k - n]);
    }
    if SameAll(rd, pieces, content) {
      forall i | 0 <= i < |calls|
        ensures rd.parse(calls[i].arguments).Some?
      {
        assert Same(rd, pieces[n + i], content[n + i]);
      }
    }
  }

  lemma {:induction false} SameExact<V>(rd: Reader<V>, blocks: seq<Piece>)
    ensures var text, calls := TextOf(blocks), CallsOf(blocks);
            SameAll(rd, blocks, ContentOf(rd, text, calls)) <==> blocks == Arranged(text, calls) && AllParse(rd, calls)
  {
    hide TextOf, CallsOf, ContentOf, Arranged, SameAll, AllParse;
    if SameAll(rd, blocks, ContentOf(rd, TextOf(blocks), CallsOf(blocks))) {
      SameIsArranged(rd, blocks);
    }
    ArrangedIsSame(rd, TextOf(blocks), CallsOf(blocks));
  }

  /** The twins tell the client the same, block by block, if and only if the daemon failed the turn or all of this
      holds:
      every call it delivered has arguments that parse, no token comes after a call, and a turn with tokens has text. */
  lemma {:induction false} TwinsAgree<V>(rd: Reader<V>, events: seq<Event>)
    ensures var o := Collected(events, "", [], false);
            Agrees(rd, AbsorbAll(NOTHING, Stream(events)), Rendered(rd, o)) <==>
            || o.Failure?
            || (AllParse(rd, Delivered(events)) && TextFirst(events, Silent) && (Speaks(events) ==> Said(events) != ""))
  {
    hide AbsorbAll, Stream, Collected, Delivered, Said, Speaks, TextFirst, Pieces, TextOf, CallsOf, ContentOf;
    StreamCarriesOutcome(events);
    var blocks := Pieces(events, [], false);
    SameExact(rd, blocks);
    ArrangedExact(blocks);
    SettledExact(events, [], false);
    WordsExact(events, [], false);
  }
}
