/** The hash-chained audit log: writing it, verifying it, and what an edit cannot hide. */
module Audit {
  import opened Bytes

  /** What the log takes from outside: the line hash, the JSON printer and the JSON reader. */
  datatype Format<!Body> = Format(
    hash: string -> string,
    print_: (Body, Option<string>) -> string,
    parse: string -> Option<Option<string>>,
    blank: string -> bool)

  /** The reader finds the link the printer wrote, and no record looks blank. */
  ghost predicate Readable<Body(!new)>(f: Format<Body>)
  {
    forall b, prev :: f.parse(f.print_(b, prev)) == Some(prev) && !f.blank(f.print_(b, prev))
  }

  ghost predicate Injective<Body>(f: Format<Body>)
  {
    forall a, b :: f.hash(a) == f.hash(b) ==> a == b
  }

  datatype Reason = NotARecord | MissingBeginning | NoLink | WrongLink
  datatype Break = Break(line: nat, reason: Reason)

  // ----- verify -----

  /** Why a record carrying `carried` may not follow one that hashes to `expected`. */
  function LinkFault(expected: Option<string>, carried: Option<string>): Option<Reason>
  {
    match (expected, carried)
    case (None, None) => None
    case (None, Some(_)) => Some(MissingBeginning)
    case (Some(_), None) => Some(NoLink)
    case (Some(want), Some(got)) => if want != got then Some(WrongLink) else None
  }

  function VerifyFrom<Body>(f: Format<Body>, lines: seq<string>, index: nat, expected: Option<string>,
                            checked: nat): Result<nat, Break>
    requires index <= |lines|
    decreases |lines| - index
  {
    if index == |lines| then Ok(checked)
    else if f.blank(lines[index]) then VerifyFrom(f, lines, index + 1, expected, checked)
    else
      var record := f.parse(lines[index]);
      if record.None? then Err(Break(index + 1, NotARecord))
      else if LinkFault(expected, record.value).Some? then
        Err(Break(index + 1, LinkFault(expected, record.value).value))
      else VerifyFrom(f, lines, index + 1, Some(f.hash(lines[index])), checked + 1)
  }

  method Verify<Body>(f: Format<Body>, lines: seq<string>) returns (r: Result<nat, Break>)
    ensures r == VerifyFrom(f, lines, 0, None, 0)
  {
    var expected: Option<string> := None;
    var checked := 0;
    for index := 0 to |lines|
      invariant VerifyFrom(f, lines, index, expected, checked) == VerifyFrom(f, lines, 0, None, 0)
    {
      var number := index + 1;
      if !f.blank(lines[index]) {
        var record := f.parse(lines[index]);
        if record.None? {
          return Err(Break(number, NotARecord));
        }
        match (expected, record.value) {
          case (None, None) =>
          case (None, Some(_)) => return Err(Break(number, MissingBeginning));
          case (Some(_), None) => return Err(Break(number, NoLink));
          case (Some(want), Some(got)) =>
            if want != got {
              return Err(Break(number, WrongLink));
            }
        }
        expected := Some(f.hash(lines[index]));
        checked := checked + 1;
      }
    }
    r := Ok(checked);
  }

  // ----- what a verified log is -----

  /** The lines that are not blank. */
  function Records<Body>(f: Format<Body>, lines: seq<string>): (r: seq<string>)
    ensures |r| <= |lines|
  {
    if lines == [] then []
    else
      var n := |lines| - 1;
      Records(f, lines[..n]) + if f.blank(lines[n]) then [] else [lines[n]]
  }

  /** Each record carries the hash of the one before it, and the first carries nothing. */
  ghost predicate Chained<Body>(f: Format<Body>, rs: seq<string>)
  {
    rs == [] ||
    var n := |rs| - 1;
    Chained(f, rs[..n]) && f.parse(rs[n]) == Some(Head(f, rs[..n]))
  }

  function Head<Body>(f: Format<Body>, rs: seq<string>): Option<string>
  {
    if rs == [] then None else Some(f.hash(rs[|rs| - 1]))
  }

  lemma {:induction false} ChainedSnoc<Body>(f: Format<Body>, rs: seq<string>, line: string)
    ensures Chained(f, rs + [line]) <==> Chained(f, rs) && f.parse(line) == Some(Head(f, rs))
  {
    assert (rs + [line])[..|rs|] == rs;
  }

  lemma {:induction false} RecordsStep<Body>(f: Format<Body>, lines: seq<string>, i: nat)
    requires i < |lines|
    ensures var done := Records(f, lines[..i]);
            Records(f, lines[..i + 1]) == if f.blank(lines[i]) then done else done + [lines[i]]
  {
    assert lines[..i + 1][..i] == lines[..i];
    assert Records(f, lines[..i]) + [] == Records(f, lines[..i]);
  }

  lemma {:induction false} VerifyIsChain<Body>(f: Format<Body>, lines: seq<string>, index: nat)
    requires index <= |lines| && Chained(f, Records(f, lines[..index]))
    ensures var done := Records(f, lines[..index]);
            var r := VerifyFrom(f, lines, index, Head(f, done), |done|);
            if Chained(f, Records(f, lines)) then r == Ok(|Records(f, lines)|) else r.Err?
    decreases |lines| - index
  {
    hide Chained, Records;
    if index == |lines| {
      assert lines[..index] == lines;
    } else {
      var done := Records(f, lines[..index]);
      RecordsStep(f, lines, index);
      if f.blank(lines[index]) {
        VerifyIsChain(f, lines, index + 1);
      } else {
        ChainedSnoc(f, done, lines[index]);
        if f.parse(lines[index]) == Some(Head(f, done)) {
          VerifyIsChain(f, lines, index + 1);
        } else {
          BrokenStays(f, lines, index + 1);
        }
      }
    }
  }

  lemma {:induction false} BrokenStays<Body>(f: Format<Body>, lines: seq<string>, index: nat)
    requires index <= |lines| && !Chained(f, Records(f, lines[..index]))
    ensures !Chained(f, Records(f, lines))
    decreases |lines| - index
  {
    if index == |lines| {
      assert lines[..index] == lines;
    } else {
      hide Chained;
      var done := Records(f, lines[..index]);
      assert lines[..index + 1][..index] == lines[..index];
      ChainedSnoc(f, done, lines[index]);
      assert done + [] == done;
      BrokenStays(f, lines, index + 1);
    }
  }

  /** Verification succeeds exactly on chains, and then with the exact number of records. */
  lemma {:induction false} VerifyExact<Body>(f: Format<Body>, lines: seq<string>)
    ensures VerifyFrom(f, lines, 0, None, 0).Ok? <==> Chained(f, Records(f, lines))
    ensures Chained(f, Records(f, lines)) ==> VerifyFrom(f, lines, 0, None, 0) == Ok(|Records(f, lines)|)
  {
    assert lines[..0] == [];
    assert Chained(f, Records(f, lines[..0]));
    VerifyIsChain(f, lines, 0);
  }

  /** What is wrong with line `i`, the lines before it being a chain. */
  ghost predicate BreaksAt<Body>(f: Format<Body>, lines: seq<string>, i: int, reason: Reason)
  {
    && 0 <= i < |lines| && !f.blank(lines[i])
    && var before, record := Records(f, lines[..i]), f.parse(lines[i]);
       && Chained(f, before)
       && match reason
          case NotARecord => record.None?
          case MissingBeginning => before == [] && record.Some? && record.value.Some?
          case NoLink => before != [] && record == Some(None)
          case WrongLink =>
            && before != [] && record.Some? && record.value.Some?
            && record.value.value != f.hash(before[|before| - 1])
  }

  lemma {:induction false} BreakFrom<Body>(f: Format<Body>, lines: seq<string>, index: nat)
    requires index <= |lines| && Chained(f, Records(f, lines[..index]))
    ensures var done := Records(f, lines[..index]);
            var r := VerifyFrom(f, lines, index, Head(f, done), |done|);
            r.Err? ==> BreaksAt(f, lines, r.error.line - 1, r.error.reason)
    decreases |lines| - index
  {
    hide Chained, Records;
    if index < |lines| {
      var done := Records(f, lines[..index]);
      RecordsStep(f, lines, index);
      if f.blank(lines[index]) {
        BreakFrom(f, lines, index + 1);
      } else {
        ChainedSnoc(f, done, lines[index]);
        if f.parse(lines[index]) == Some(Head(f, done)) {
          BreakFrom(f, lines, index + 1);
        }
      }
    }
  }

  /** A log that does not verify is reported at the first line that breaks the chain, counted from one, with what is
      wrong with that line. */
  lemma {:induction false} BreakIsNamed<Body>(f: Format<Body>, lines: seq<string>)
    ensures var r := VerifyFrom(f, lines, 0, None, 0);
            r.Err? ==> BreaksAt(f, lines, r.error.line - 1, r.error.reason)
  {
    assert lines[..0] == [];
    assert Chained(f, Records(f, lines[..0]));
    BreakFrom(f, lines, 0);
  }

  /** Two different lines with the same hash, one from each log. */
  ghost predicate Collides<Body>(f: Format<Body>, a: seq<string>, b: seq<string>, x: string, y: string)
  {
    x in a && y in b && x != y && f.hash(x) == f.hash(y)
  }

  lemma {:induction false} SameLastSameChain<Body>(f: Format<Body>, a: seq<string>, b: seq<string>)
    returns (x: string, y: string)
    requires Chained(f, a) && Chained(f, b)
    requires a != [] && b != [] && a[|a| - 1] == b[|b| - 1]
    ensures a == b || Collides(f, a, b, x, y)
    decreases |a|
  {
    x, y := "", "";
    var n, m := |a| - 1, |b| - 1;
    var p, q := a[..n], b[..m];
    assert Head(f, p) == Head(f, q);
    assert p == [] <==> q == [];
    if p != [] {
      assert f.hash(p[n - 1]) == f.hash(q[m - 1]);
      if p[n - 1] != q[m - 1] {
        x, y := p[n - 1], q[m - 1];
        assert a[n - 1] == x && b[m - 1] == y;
      } else {
        x, y := SameLastSameChain(f, p, q);
        assert forall z :: z in p ==> z in a;
        assert forall z :: z in q ==> z in b;
      }
    }
    assert a == p + [a[n]] && b == q + [b[m]];
  }

  /** Two logs that both verify and end in the same record hold the same records, or show two different lines with the
      same hash: every edit, deletion, insertion or reorder before the last record needs a collision, and an injective
      hash has none. */
  lemma {:induction false} TamperEvident<Body>(f: Format<Body>, a: seq<string>, b: seq<string>)
    returns (x: string, y: string)
    requires VerifyFrom(f, a, 0, None, 0).Ok? && VerifyFrom(f, b, 0, None, 0).Ok?
    requires var ra, rb := Records(f, a), Records(f, b);
             ra != [] && rb != [] && ra[|ra| - 1] == rb[|rb| - 1]
    ensures Records(f, a) == Records(f, b) || Collides(f, Records(f, a), Records(f, b), x, y)
    ensures Injective(f) ==> Records(f, a) == Records(f, b)
  {
    VerifyExact(f, a);
    VerifyExact(f, b);
    x, y := SameLastSameChain(f, Records(f, a), Records(f, b));
  }

  /** What the chain alone cannot show: a log cut after any record still verifies. */
  lemma {:induction false} TruncationVerifies<Body>(f: Format<Body>, lines: seq<string>, n: nat)
    requires VerifyFrom(f, lines, 0, None, 0).Ok? && n <= |lines|
    ensures VerifyFrom(f, lines[..n], 0, None, 0) == Ok(|Records(f, lines[..n])|)
  {
    VerifyExact(f, lines);
    VerifyExact(f, lines[..n]);
    if !Chained(f, Records(f, lines[..n])) {
      BrokenStays(f, lines, n);
    }
  }

  // ----- writing -----

  /** The last non-blank line's hash, if that line is a record. */
  function HeadOf<Body>(f: Format<Body>, lines: seq<string>): Option<string>
  {
    var rs := Records(f, lines);
    if rs == [] || f.parse(rs[|rs| - 1]).None? then None else Some(f.hash(rs[|rs| - 1]))
  }

  class Log<Body(!new)> {
    const format: Format<Body>
    var lines: seq<string>
    var head: Option<string>

    ghost predicate Valid()
      reads this
    {
      Readable(format) && head == HeadOf(format, lines)
    }

    /** Opening the log, at first or after a restart: the head is read back from whatever the file holds. */
    constructor (format: Format<Body>, lines: seq<string>)
      requires Readable(format)
      ensures Valid() && this.lines == lines && this.format == format
    {
      this.format := format;
      this.lines := lines;
      this.head := HeadOf(format, lines);
    }

    /** One more record, chained onto the last one: a sound log stays sound, and no append mends a broken one. */
    method Append(body: Body)
      requires Valid()
      modifies this
      ensures Valid()
      ensures lines == old(lines) + [format.print_(body, old(head))]
      ensures Records(format, lines) == Records(format, old(lines)) + [format.print_(body, old(head))]
      ensures VerifyFrom(format, lines, 0, None, 0).Ok? <==> VerifyFrom(format, old(lines), 0, None, 0).Ok?
      ensures VerifyFrom(format, lines, 0, None, 0).Ok? ==>
                VerifyFrom(format, lines, 0, None, 0).value == VerifyFrom(format, old(lines), 0, None, 0).value + 1
    {
      var line := format.print_(body, head);
      ChainedSnoc(format, Records(format, lines), line);
      if Chained(format, Records(format, lines)) {
        HeadOfChain(format, lines);
      }
      head := Some(format.hash(line));
      lines := lines + [line];
      assert lines[..|lines| - 1] == old(lines);
      VerifyExact(format, old(lines));
      VerifyExact(format, lines);
    }
  }

  lemma {:induction false} HeadOfChain<Body>(f: Format<Body>, lines: seq<string>)
    requires Chained(f, Records(f, lines))
    ensures HeadOf(f, lines) == Head(f, Records(f, lines))
  {
  }

  // ----- runs of appends and restarts -----

  datatype Op<Body> = Write(body: Body) | Restart

  function Writes<Body>(ops: seq<Op<Body>>): nat
  {
    if ops == [] then 0 else Writes(ops[1..]) + if ops[0].Write? then 1 else 0
  }

  /** The file after a run; a restart forgets the head and reads it back. */
  function File<Body>(f: Format<Body>, lines: seq<string>, head: Option<string>, ops: seq<Op<Body>>): seq<string>
    decreases |ops|
  {
    if ops == [] then lines
    else match ops[0]
      case Write(b) =>
        var line := f.print_(b, head);
        File(f, lines + [line], Some(f.hash(line)), ops[1..])
      case Restart => File(f, lines, HeadOf(f, lines), ops[1..])
  }

  lemma {:induction false} RunVerifies<Body(!new)>(f: Format<Body>, lines: seq<string>, head: Option<string>,
                                                   ops: seq<Op<Body>>)
    requires Readable(f) && Chained(f, Records(f, lines)) && head == Head(f, Records(f, lines))
    ensures Chained(f, Records(f, File(f, lines, head, ops)))
    ensures |Records(f, File(f, lines, head, ops))| == |Records(f, lines)| + Writes(ops)
    decreases |ops|
  {
    if ops != [] {
      match ops[0]
      case Write(b) =>
        var line := f.print_(b, head);
        var more := lines + [line];
        assert more[..|lines|] == lines;
        ChainedSnoc(f, Records(f, lines), line);
        RunVerifies(f, more, Some(f.hash(line)), ops[1..]);
      case Restart =>
        HeadOfChain(f, lines);
        RunVerifies(f, lines, HeadOf(f, lines), ops[1..]);
    }
  }

  /** Every run of appends and clean restarts from an empty file verifies, with one record per append. */
  lemma {:induction false} EveryRunVerifies<Body(!new)>(f: Format<Body>, ops: seq<Op<Body>>)
    requires Readable(f)
    ensures VerifyFrom(f, File(f, [], None, ops), 0, None, 0) == Ok(Writes(ops))
  {
    RunVerifies(f, [], None, ops);
    VerifyExact(f, File(f, [], None, ops));
  }
}
