# Verified model of the AI daemon

A Dafny model of the parts of the AI daemon where a mistake is hard to see: the sandboxed image decoder, the
compiler from tool schemas to grammars, the decode scheduler, and the accounting and protocol machines around
them. Imperative code is modelled as classes and methods with loops, each proved against a function that says
what it computes; the promises are theorems about those functions.

* `Bytes`, `Huffman`, `Inflate`, `Decoder`: the DEFLATE decoder of RFC 1951, bit by bit and table by table.
  `DeflateFormat`, `DeflateBlocks` and `DeflateFacts` give the format from the writer's side (tokens, headers,
  blocks, streams) and prove that the decoder accepts exactly what can be written and returns what was meant;
  `DeflateErrors` says what is refused and how.
* `Png`, `PngRoundTrip`, `PngExact`: the chunk reader, the zlib header and the row filters, against a printer that may
  choose any chunking, any DEFLATE stream and any filter per row, and the exact set of files that are accepted.
* `Lexemes`: numbers and strings character by character. `Json`, `JsonPrinting`: trees and their tokens.
  `GrammarMeaning`, `GrammarObjects`, `GrammarPrelude`: grammar expressions over JSON tokens with a derivation
  relation. `Schema` says which trees a tool schema admits, `SchemaTrees` says it again on the schema's own keys,
  `GrammarCompiler` is the compiler, and `GrammarNames` shows that the names it writes are distinct.
* `Slots`, `SlotSafety`, `SlotMessages`, `Fairness`: admission and preemption as a state machine, its invariant over
  every run, when the messages sent agree with it, and the bound on overtaking. `KvBudget`, `Scheduler`: the shared
  cache budget and the scheduler object itself.
* `Audit`: the hash-chained log. `Frames`: the framed stream over a reader that returns what it likes.
* `TokenBuckets`, `SpendLedger`: the rate limit and the rolling spend window.
* `AnthropicStream`: the Messages stream and its non-streaming twin.
* `Provenance`, `Defanging`, `Framing`: removing the nonce and the marker names from content, what is kept, and the
  marked prompt.
* `ToolCalls`: called, answered and pending tool calls over every run of a session.

`dafny verify dfyconfig.toml` checks the project.

## Model

| member | source | states |
|---|---|---|
| `Huffman.DecodeInvertsCode` | crates/ai-daemon-decode/src/main.rs:578-593 | For every length table, over-subscribed or not, the decoder returns a symbol if and only if the canonical code of section 3.2.2 of RFC 1951 for that symbol is the next thing in the stream, and it then consumes exactly the code's length. |
| `Huffman.NotOversubscribed` | crates/ai-daemon-decode/src/main.rs:557-576 | When the Kraft sum of the lengths does not exceed one, every symbol with a length has a code that fits its length, so the inversion above covers all of them. |
| `Huffman.KraftIsLastLevel` | crates/ai-daemon-decode/src/main.rs:582-591 | The running `first + count` of the decoder, taken to length 15, is the Kraft sum of the table. |
| `Huffman.NthOfRank` | crates/ai-daemon-decode/src/main.rs:568-574 | The symbol stored at a rank within its length is the symbol that has that rank: the table order and the canonical order agree. |
| `Huffman.DecodeFromSound` | crates/ai-daemon-decode/src/main.rs:582-591 | From any length reached with `code >= first`, what is returned is the code of the returned symbol at the start position. |
| `Huffman.NoEarlyStop` | crates/ai-daemon-decode/src/main.rs:585-590 | A proper prefix of a code never falls into the range of a shorter length, so the loop reads on. |
| `DeflateFacts.CanonicalFirst` | crates/ai-daemon-decode/src/main.rs:557-576 | The rules of section 3.2.2 of RFC 1951 for any lengths: in the order of length and then symbol, the first code is zero. |
| `DeflateFacts.CanonicalNext` | crates/ai-daemon-decode/src/main.rs:557-576 | And each next code is the one before plus one, with zeros added where the codes get longer; together with the first this fixes every code. |
| `Decoder.Bits.Bit` | crates/ai-daemon-decode/src/main.rs:529-537 | The bit at the position, lowest bit of each byte first, and one step forward; at the end an error and no step. |
| `Decoder.Bits.Read` | crates/ai-daemon-decode/src/main.rs:539-545 | The little-endian value of the next bits, or an error when the stream is too short; the position never passes eight times the input length. |
| `Decoder.Bits.Align` | crates/ai-daemon-decode/src/main.rs:547-549 | The position rounded up to a whole byte. |
| `Decoder.NewTable` | crates/ai-daemon-decode/src/main.rs:558-576 | The counts are the number of symbols of each length, and each used symbol sits at its canonical place in the symbol table. |
| `Decoder.TableLookup` | crates/ai-daemon-decode/src/main.rs:585-587 | For any table at all the symbol index stays in range, and what is found there is the symbol of that length and rank. |
| `Decoder.Decode` | crates/ai-daemon-decode/src/main.rs:578-593 | The loop over arrays agrees with the canonical decoding function, in the value, the position and the error. |
| `Decoder.CopyMatch` | crates/ai-daemon-decode/src/main.rs:735-739 | The byte-by-byte copy, overlapping or not, is the LZ77 copy. |
| `Decoder.ReadReference` | crates/ai-daemon-decode/src/main.rs:723-734 | Length, distance and the check against the output so far, as section 3.2.5 of RFC 1951 reads them. |
| `Decoder.DecodeBlock` | crates/ai-daemon-decode/src/main.rs:707-744 | The loop of one compressed block agrees with the recursive block function on every bit string. |
| `Decoder.ReadCodeLengths` | crates/ai-daemon-decode/src/main.rs:658-661 | The code length code lengths, scattered in the order of section 3.2.7 of RFC 1951. |
| `Decoder.Fill` | crates/ai-daemon-decode/src/main.rs:678-684 | A repeated length is written from the index on, and refused exactly when it overruns the table. |
| `Decoder.ReadRunLengths` | crates/ai-daemon-decode/src/main.rs:663-693 | Run-length coded lengths, with the errors for nothing to repeat, an overrun and a bad symbol. |
| `Decoder.ReadTables` | crates/ai-daemon-decode/src/main.rs:652-695 | The literal and distance lengths of a dynamic block. |
| `Decoder.FixedTables` | crates/ai-daemon-decode/src/main.rs:638-648 | The tables of a fixed block hold the fixed code lengths. |
| `Decoder.ReadStored` | crates/ai-daemon-decode/src/main.rs:618-636 | A stored block, its complement check and its truncation errors. |
| `Decoder.ReadBlock` | crates/ai-daemon-decode/src/main.rs:617-699 | One block of any type appended to the output. |
| `Decoder.InflateBytes` | crates/ai-daemon-decode/src/main.rs:612-705 | `inflate` is total: on every byte string it terminates with the specified result, and any accepted output is at most the limit plus the input length. |
| `DeflateFormat.BlockInverts` | crates/ai-daemon-decode/src/main.rs:707-744 | Printed tokens of any printable literal/match list decode to their LZ77 expansion and consume exactly the printed bits; over the limit the block is refused. |
| `DeflateFormat.BlockSound` | crates/ai-daemon-decode/src/main.rs:707-744 | Conversely, every accepted block is the printing of some token list with that expansion. |
| `DeflateFormat.ReferenceInverts` | crates/ai-daemon-decode/src/main.rs:723-734 | A printed length/distance pair is read back as that length and distance. |
| `DeflateFormat.TokenStep` | crates/ai-daemon-decode/src/main.rs:714-743 | One printed token takes the decoder from its start to its end with the output extended by what the token stands for. |
| `DeflateBlocks.TablesInvert` | crates/ai-daemon-decode/src/main.rs:652-695 | A printed dynamic header is read back as the tables it was printed from. |
| `DeflateBlocks.TablesSound` | crates/ai-daemon-decode/src/main.rs:652-695 | Every accepted dynamic header is the printing of some header. |
| `DeflateBlocks.OneBlockInverts` | crates/ai-daemon-decode/src/main.rs:617-699 | Stored, fixed and dynamic blocks are inverted, with output already written visible to distances. |
| `DeflateBlocks.OneBlockSound` | crates/ai-daemon-decode/src/main.rs:617-699 | Every accepted block is the printing of one of the three kinds. |
| `DeflateBlocks.InflateInverts` | crates/ai-daemon-decode/src/main.rs:612-705 | A printed stream of any blocks inflates to its meaning if every compressed block stays within the limit, and is refused with the limit error otherwise; stored blocks do not consult the limit. |
| `DeflateBlocks.InflateReturnsExpansion` | crates/ai-daemon-decode/src/main.rs:612-705 | Whenever the expansion fits the limit, `inflate` returns exactly the expansion, distances reaching into earlier blocks included. |
| `DeflateBlocks.InflateExact` | crates/ai-daemon-decode/src/main.rs:612-705 | `inflate` accepts a byte string with an output if and only if the string starts with some DEFLATE stream of that output within the limit. |
| `DeflateFacts.FixedCodes` | crates/ai-daemon-decode/src/main.rs:638-647 | The canonical codes of the fixed lengths are the codes listed in section 3.2.6 of RFC 1951, all 288 of them. |
| `DeflateFacts.FixedDistanceCodes` | crates/ai-daemon-decode/src/main.rs:648 | The thirty fixed distance codes are the five-bit numbers. |
| `DeflateFacts.LengthTable` | crates/ai-daemon-decode/src/main.rs:596-602 | The length table of section 3.2.5 of RFC 1951 in closed form: symbol i has no extra bits up to 7, then (i - 4) / 4 of them, and none for 258; each base follows from that. |
| `DeflateFacts.DistanceTable` | crates/ai-daemon-decode/src/main.rs:603-610 | The distance table in closed form: no extra bits up to 3, then (i - 2) / 2. |
| `DeflateFacts.EveryLength` | crates/ai-daemon-decode/src/main.rs:596-602 | Every match length from 3 to 258 has a length symbol and extra bits. |
| `DeflateFacts.LengthRange` | crates/ai-daemon-decode/src/main.rs:721-724 | Conversely every symbol with extra bits gives a length of 3 to 258, and only 258 has two spellings. |
| `DeflateFacts.EveryDistance` | crates/ai-daemon-decode/src/main.rs:603-610 | Every distance from 1 to 32768 has a distance symbol and extra bits. |
| `DeflateFacts.DistanceRange` | crates/ai-daemon-decode/src/main.rs:729-730 | Conversely every distance symbol with extra bits gives a distance of 1 to 32768, each in one way only. |
| `DeflateFacts.FixedPrintsEverything` | crates/ai-daemon-decode/src/main.rs:637-650 | A fixed block can print every literal and every match of DEFLATE's ranges that stays inside the output. |
| `DeflateFacts.CopyBackPeriodic` | crates/ai-daemon-decode/src/main.rs:735-739 | A copy longer than its distance repeats the last `distance` bytes periodically. |
| `DeflateFacts.PackedStreamInflates` | crates/ai-daemon-decode/src/main.rs:612-705 | Printed bits packed into bytes, with any bytes after them, inflate to their meaning. |
| `DeflateFacts.EveryCodeTable` | crates/ai-daemon-decode/src/main.rs:655-661 | Every table of nineteen code length code lengths can be printed in the permuted order. |
| `DeflateFacts.OrderTable` | crates/ai-daemon-decode/src/main.rs:655-657 | The permuted order in closed form: 16, 17, 18, 0, then 8 + k and 7 - k in turn. |
| `DeflateErrors.TooFarBack` | crates/ai-daemon-decode/src/main.rs:731-733 | A printed match that reaches before the start of the output is refused as that. |
| `DeflateErrors.NoSuchLength` | crates/ai-daemon-decode/src/main.rs:741 | A literal/length symbol above 285 is refused as that. |
| `DeflateErrors.NoSuchDistance` | crates/ai-daemon-decode/src/main.rs:725-728 | A printed length followed by a distance symbol above 29 is refused as that. |
| `DeflateErrors.NothingBefore` | crates/ai-daemon-decode/src/main.rs:672-675 | A repeat of the previous code length at the start of the table is refused as that. |
| `DeflateErrors.RunPastEnd` | crates/ai-daemon-decode/src/main.rs:676-692 | A printed run of code lengths past the end of the table is refused as an overrun. |
| `DeflateErrors.ReservedType` | crates/ai-daemon-decode/src/main.rs:699 | Block type three is refused as reserved. |
| `DeflateErrors.StoredRefused` | crates/ai-daemon-decode/src/main.rs:618-634 | A stored block is refused for its length exactly when some byte of the second field is not the complement of the first, and as truncated exactly when its fields or data pass the end. |
| `Png.Scan` | crates/ai-daemon-decode/src/main.rs:368-389 | The chunk loop, with unknown chunks skipped and truncation refused, collects the header and the joined image data. |
| `Png.Zlib` | crates/ai-daemon-decode/src/main.rs:506-521 | The zlib header checks of section 2.2 of RFC 1950, then `inflate`. |
| `Png.Paeth` | crates/ai-daemon-decode/src/main.rs:481-493 | The predictor is one of the three neighbours, nearest to `a + b - c`, with ties going to a, then b, then c. |
| `Png.UnfilterRow` | crates/ai-daemon-decode/src/main.rs:454-477 | One row undone in place, as the byte-by-byte function whose values PngExact.PixelLaw gives; an unknown filter stops with its error. |
| `Png.Unfilter` | crates/ai-daemon-decode/src/main.rs:447-479 | The row and column loops agree with undoing the filters byte by byte over the whole image. |
| `PngExact.PixelLaw` | crates/ai-daemon-decode/src/main.rs:447-479 | In every accepted image, each byte is its data byte plus, by the filter of its row: nothing; the byte one pixel back in the row; the byte above; half the sum of those two, rounded down; or the Paeth choice among them and the byte above and one pixel back, with zero outside the image, modulo 256. |
| `PngExact.UnfilterRefuses` | crates/ai-daemon-decode/src/main.rs:447-479 | Filtered data is refused exactly when it is too short, or long enough with a filter above 4 in some row. |
| `Png.DecodePng` | crates/ai-daemon-decode/src/main.rs:363-405 | The decoder agrees with its specification on every byte string, errors included. |
| `PngRoundTrip.DefilterInverts` | crates/ai-daemon-decode/src/main.rs:894-915 | Undoing filters inverts applying them, whatever filter each row chose. |
| `PngRoundTrip.UnfilterInverts` | crates/ai-daemon-decode/src/main.rs:447-479 | `unfilter` returns the pixels that were filtered. |
| `PngRoundTrip.ScanInverts` | crates/ai-daemon-decode/src/main.rs:372-387 | Printed chunks, in any number and with unknown ones between, are collected back up to the end chunk. |
| `PngRoundTrip.HeaderInverts` | crates/ai-daemon-decode/src/main.rs:414-436 | A printed IHDR is parsed back as its width, height and colour type. |
| `PngExact.HeaderExact` | crates/ai-daemon-decode/src/main.rs:414-436 | A header is accepted exactly when it is printed so: sizes of at least one, eight bits, colour type 2 or 6, no interlace. |
| `PngExact.HeaderRefuses` | crates/ai-daemon-decode/src/main.rs:414-436 | A refused header has the defect that its error names. |
| `PngExact.ChunkNames` | crates/ai-daemon-decode/src/main.rs:363-389 | The signature and the chunk names as the W3C PNG specification spells them. |
| `PngExact.ZlibHeaderExact` | crates/ai-daemon-decode/src/main.rs:506-519 | A zlib header is accepted exactly when it has method 8 under any window size, any level, no dictionary bit, and check bits that make it a multiple of 31. |
| `PngRoundTrip.ZlibInverts` | crates/ai-daemon-decode/src/main.rs:506-521 | A zlib header before any DEFLATE stream of the data gives the data back. |
| `PngRoundTrip.PngRoundTrips` | crates/ai-daemon-decode/src/main.rs:363-405 | Every PNG of an image (any split of the data into chunks, any DEFLATE stream, any filter per row) decodes to that image, or is refused when its pixels exceed the limit. |
| `PngExact.UnfilterSound` | crates/ai-daemon-decode/src/main.rs:447-479 | Whatever `unfilter` accepts starts with the pixels it returns, filtered by the filters it read. |
| `PngExact.ScanExact` | crates/ai-daemon-decode/src/main.rs:368-389 | The chunk loop accepts exactly a list of whole chunks, with an IEND or with no chunk header left, and collects the last header and all image data. |
| `PngExact.DecodeExact` | crates/ai-daemon-decode/src/main.rs:363-405 | The decoder accepts a byte string as an image if and only if its pixels fit the limit and the file consists of chunks whose last header has that size and whose image data is a zlib stream, within the limit, that starts with some filtering of those pixels. |
| `PngRoundTrip.ZlibStored` | packaging/verify/make-png.rs:69-83 | The printer's loop writes the stored-block stream of the data. |
| `PngRoundTrip.StoredIsZlib` | packaging/verify/make-png.rs:69-83 | What it writes is a zlib stream of the data, for every non-empty data, split into blocks of at most 65535 bytes. |
| `PngRoundTrip.PrintedPngDecodes` | crates/ai-daemon-decode/src/main.rs:886-926 | Signature, IHDR, one stored-zlib IDAT and IEND decode to the same dimensions and pixels for every width and height of at least 1, 3 or 4 channels, any pixels and any filter 0 to 4 per row. |
| `Json.ExtensionKeepsMeaning` | crates/ai-daemon/src/grammar.rs:118-121 | Pushing rules with new names onto the shared list changes nothing that a closed expression derives. |
| `GrammarMeaning.MeansIsExact` | crates/ai-daemon/src/grammar.rs:33-72 | An expression that means a language derives exactly the printed trees of that language. |
| `GrammarMeaning.ArrayMeans` | crates/ai-daemon/src/grammar.rs:109-122 | The array rule derives exactly the arrays whose items the item rule admits. |
| `GrammarObjects.ObjectBodyMeans` | crates/ai-daemon/src/grammar.rs:183-221 | `object_body` derives exactly the required properties in order, then any subsequence of the optional ones in order. |
| `Lexemes.StringExact` | crates/ai-daemon/src/grammar.rs:232-234 | The character rules of `string`, `char` and `hex` accept exactly a quote, an inside that scans as plain characters and escapes, and a quote. |
| `Lexemes.EverythingSpellable` | crates/ai-daemon/src/grammar.rs:232-234 | Every string has a spelling that the rules accept, that is a JSON string by section 7 of RFC 8259, and that reads back as it. |
| `Lexemes.AcceptedIsJson` | crates/ai-daemon/src/grammar.rs:232-234 | A text is a JSON string by section 7 of RFC 8259 if and only if the rules accept it and no character below U+0020 stands in it as itself. |
| `Lexemes.RawLineFeed` | crates/ai-daemon/src/grammar.rs:233 | An input that shows the difference: a line feed between quotes is accepted and is not JSON. |
| `Lexemes.IntegerExact` | crates/ai-daemon/src/grammar.rs:235 | The character rule of `integer` accepts exactly the integers without leading zeros. |
| `Lexemes.NumberExact` | crates/ai-daemon/src/grammar.rs:236 | The character rule of `number` accepts exactly an integer with an optional fraction and an optional exponent. |
| `GrammarPrelude.StringMeans` | crates/ai-daemon/src/grammar.rs:232-234 | The `string` terminal derives exactly the strings: each has a spelling its characters accept. |
| `GrammarPrelude.IntegerMeans` | crates/ai-daemon/src/grammar.rs:235 | The `integer` terminal, a rule over characters, derives exactly the integer trees. |
| `GrammarPrelude.NumberMeans` | crates/ai-daemon/src/grammar.rs:236 | The `number` terminal, a rule over characters, derives exactly the number trees. |
| `GrammarPrelude.BooleanMeans` | crates/ai-daemon/src/grammar.rs:237 | The `boolean` terminal derives exactly the two booleans. |
| `GrammarPrelude.JsonMeans` | crates/ai-daemon/src/grammar.rs:238-240 | The mutually recursive `json`, `object` and `array` rules derive exactly the well-formed trees, and exactly the objects among them. |
| `Schema.WideningKeeps` | crates/ai-daemon/src/grammar.rs:88-91 | Whatever an unsupported part of a schema means, every tree that conforms is still admitted after widening. |
| `Schema.UnwidenedIsExact` | crates/ai-daemon/src/grammar.rs:103-128 | A schema that needs no widening has the same meaning whatever the unsupported schemas mean. |
| `SchemaTrees.WidensExact` | crates/ai-daemon/src/grammar.rs:87-136 | A schema counts as widened if and only if what lies outside the supported subset makes a difference to the trees it admits. |
| `SchemaTrees.EnumAdmits` | crates/ai-daemon/src/grammar.rs:93-101 | A schema with a non-empty `enum` array admits exactly its items. |
| `SchemaTrees.TypeAdmits` | crates/ai-daemon/src/grammar.rs:103-128 | Without one, each scalar type admits exactly the trees of its kind, and an unknown type whatever it means outside the subset. |
| `SchemaTrees.ArrayAdmits` | crates/ai-daemon/src/grammar.rs:109-122 | An array schema admits exactly the arrays whose items its `items` schema admits. |
| `SchemaTrees.RequiredExact` | crates/ai-daemon/src/grammar.rs:136-140 | A name is required if and only if it is a string among the items of the array under `required`. |
| `SchemaTrees.ObjectAdmits` | crates/ai-daemon/src/grammar.rs:131-157 | An object schema admits exactly the objects whose fields are declared properties with admitted values, every required one present, the required ones first, and each group in the order of the schema; stated on indices of the properties. |
| `SchemaTrees.RequiredArePresent` | crates/ai-daemon/src/grammar.rs:147-151 | Every admitted object has a field, with an admitted value, for each declared property that is required. |
| `GrammarCompiler.Alternative` | crates/ai-daemon/src/grammar.rs:193-203 | The alternative that starts with one optional property, followed by each later one optionally. |
| `GrammarCompiler.ObjectBody` | crates/ai-daemon/src/grammar.rs:183-221 | The loops build the body expression whose meaning is stated above. |
| `GrammarCompiler.SubCompiler.FreshName` | crates/ai-daemon/src/grammar.rs:82-85 | Each generated name is new to the rule list. |
| `GrammarCompiler.SubCompiler.Define` | crates/ai-daemon/src/grammar.rs:117-121 | A pushed rule keeps all earlier meanings, and a reference to it means what its body means. |
| `GrammarCompiler.SubCompiler.Value` | crates/ai-daemon/src/grammar.rs:87-129 | The returned expression means the schema's language after widening, every name it uses is defined, earlier rules are untouched, and the widened flag is set exactly when something was widened. |
| `GrammarCompiler.SubCompiler.ArrayRuleFor` | crates/ai-daemon/src/grammar.rs:109-122 | The same for array schemas, with and without `items`. |
| `GrammarCompiler.SubCompiler.Object` | crates/ai-daemon/src/grammar.rs:131-157 | The same for object schemas: declared keys only, required ones among the declared, as SchemaTrees.ObjectAdmits spells out. |
| `GrammarCompiler.SubCompiler.Properties` | crates/ai-daemon/src/grammar.rs:142-152 | The properties are split into required and optional parts in map order, each meaning its own schema. |
| `GrammarCompiler.CompileTool` | crates/ai-daemon/src/grammar.rs:46-57 | The call rule of a tool derives exactly the call objects with that tool's name and admissible arguments. |
| `GrammarCompiler.Compile` | crates/ai-daemon/src/grammar.rs:33-72 | Compilation succeeds exactly for a non-empty list of plainly named tools, the error names the first tool that is not, and on success the root derives exactly one call to one of the tools, up to widening. |
| `GrammarCompiler.PlainNameExact` | crates/ai-daemon/src/grammar.rs:43-45 | A tool name is plain exactly when it is made of ASCII letters, digits, `_` and `-`, and such a name needs no escape in JSON. |
| `GrammarCompiler.CompiledGrammar` | crates/ai-daemon/src/grammar.rs:33-72 | Every conforming call is derivable; if `widened` is false, a token string is derivable if and only if it is the printing of a conforming call. |
| `GrammarCompiler.CompiledTrees` | crates/ai-daemon/src/grammar.rs:33-72 | The same on trees: if `widened` is false, the printing of a tree is derivable if and only if that tree is a conforming call. |
| `JsonPrinting.PrintInjective` | crates/ai-daemon/src/grammar.rs:33-72 | The tokens of a tree determine it, so a derivable token string is the call of one tree only. |
| `GrammarCompiler.DefinedOnce` | crates/ai-daemon/src/grammar.rs:60-66 | Rule names are pairwise distinct and distinct from the shared terminals, so every referenced rule is defined exactly once. |
| `GrammarNames.NameTextInjective` | crates/ai-daemon/src/grammar.rs:82-85 | The textual rule names (`args-N`, `call-N`, `tN-kind-M`, the root and all shared terminals, `ws`, `char` and `hex` included) are distinct for distinct rules. |
| `SlotSafety.StepKeeps` | crates/ai-daemon/src/sched.rs:118-300 | Every arrival, admission, attachment, release and charge, with no condition, keeps unique tickets, the class caps and the preemption rules. |
| `SlotSafety.EveryRunIsSafe` | crates/ai-daemon/src/sched.rs:118-300 | So after every run no class is over its cap, no interactive request is paused, one is paused only while an interactive one runs, and then every attached background one is. |
| `SlotSafety.OneEligible` | crates/ai-daemon/src/sched.rs:256-275 | In every state that a run reaches, at most one waiter is eligible. |
| `SlotSafety.SomeoneEligible` | crates/ai-daemon/src/sched.rs:256-275 | In every reachable state in which nothing runs and someone waits, exactly one waiter is eligible. |
| `SlotSafety.AdmissionOrder` | crates/ai-daemon/src/sched.rs:206-275 | In every reachable state a look admits a waiter if and only if its class has fewer running requests than slots, no interactive request waits behind it if it is background, and of its class it has been served least, or as little as another with the earlier ticket. |
| `SlotSafety.CapsHold` | crates/ai-daemon/src/sched.rs:254-275 | After every run, counted as a set, the running requests of each class are no more than its slots. |
| `SlotSafety.QueueIsInOrder` | crates/ai-daemon/src/sched.rs:206-210 | In every reachable state the queue is in ticket order, and an arrival joins it at the end. |
| `SlotSafety.ServedIsCharged` | crates/ai-daemon/src/sched.rs:159-165 | After every run the service of a session is the sum of all that was charged to it. |
| `SlotMessages.AttachExact` | crates/ai-daemon/src/sched.rs:118-140 | Counting for each attached request only the messages since its own attachment, attaching keeps the last one in agreement with its flag, for every request, if and only if the newcomer does not start paused under the pair of a running interactive request. |
| `SlotMessages.StepExact` | crates/ai-daemon/src/sched.rs:118-300 | From any safe state with messages and flags in agreement, a step keeps them so if and only if it is not such an attachment. |
| `SlotMessages.EveryRunInforms` | crates/ai-daemon/src/sched.rs:118-300 | Over every run, pairs reused or not, messages and flags agree in every state if and only if the run has no such attachment. |
| `SlotMessages.FreshRunsInform` | crates/ai-daemon/src/sched.rs:118-300 | Every run that attaches no pair twice (a backend counts its request ids up) is in agreement in every state, and at its end the last of all messages about each attached request is what its flag says. |
| `SlotMessages.SharedPair` | crates/ai-daemon/src/sched.rs:118-140 | Where the condition is needed: a background request attached beside a running interactive one under the same pair, whose pause names both. |
| `Fairness.BoundedOvertaking` | crates/ai-daemon/src/sched.rs:159-275 | Among sessions with one request at a time, each charged at least one token per slot, a waiter with service s is passed by session i of its class at most max(0, s - s_i + 1) times. |
| `Fairness.FairRunsReach` | crates/ai-daemon/src/sched.rs:159-275 | One request per session is kept along every such run, so the bound applies from every state it reaches. |
| `Fairness.NoLaterEqualPasses` | crates/ai-daemon/src/sched.rs:254-275 | In every reachable state, whoever is admitted past a waiter of its class has been served less, or as much with an earlier ticket. |
| `KvBudget.SortCandidates` | crates/ai-daemon/src/sched.rs:344-349 | The candidates of a pass are exactly the idle other sessions of that class, least recently used first. |
| `KvBudget.PlanPass` | crates/ai-daemon/src/sched.rs:340-357 | One pass extends the plan by the shortest prefix of its candidates that makes room, or by all of them. |
| `Scheduler.PlanIsRight` | crates/ai-daemon/src/sched.rs:338-367 | After both passes the plan makes room if and only if evicting every idle other session would, and then it is minimal and in order. |
| `KvBudget.PlanMakesRoom` | crates/ai-daemon/src/sched.rs:340-367 | In every plan the entries that stay and the new bytes are within the budget, and with the last victim kept they would not be. |
| `KvBudget.BackgroundFirst` | crates/ai-daemon/src/sched.rs:340-357 | In every plan, the victims are idle and of other sessions, background ones come before interactive ones, each class by last use, and an interactive cache is only given up when every idle background one of another session is. |
| `Scheduler.Scheduler.constructor` | crates/ai-daemon/src/sched.rs:175-191 | Starts empty, with caps of at least one. |
| `Scheduler.Scheduler.Enqueue` | crates/ai-daemon/src/sched.rs:206-210 | Takes the next ticket and joins the queue. |
| `Scheduler.Scheduler.SetPausedFlags` | crates/ai-daemon/src/sched.rs:224-239 | Flips the flags and reports exactly the attached requests it flipped. |
| `Scheduler.Scheduler.TryAdmit` | crates/ai-daemon/src/sched.rs:212-242 | One look of the admission loop: admits exactly when it is the ticket's turn, pausing the background requests for an interactive one and telling each attached one. |
| `Scheduler.Scheduler.AttachSlot` | crates/ai-daemon/src/sched.rs:118-140 | Attaches, paused from the start when another interactive request runs; for any pair, and the agreement of messages and flags is kept exactly when no running interactive request holds the pair of one that starts paused. |
| `Scheduler.Scheduler.ReleaseSlot` | crates/ai-daemon/src/sched.rs:277-300 | Gives the slot back and resumes the paused requests when no interactive one is left. |
| `Scheduler.Scheduler.ChargeSlot` | crates/ai-daemon/src/sched.rs:159-165 | Adds to the session's service and touches its cache entry. |
| `Scheduler.Scheduler.Plan` | crates/ai-daemon/src/sched.rs:335-367 | Says whether evicting idle sessions is enough, and gives the minimal ordered plan when it is; changes nothing. |
| `Scheduler.Scheduler.Evict` | crates/ai-daemon/src/sched.rs:371-377 | Removes exactly the planned entries, subtracts their bytes and reports each to its backend. |
| `Scheduler.Scheduler.ReserveKv` | crates/ai-daemon/src/sched.rs:314-403 | Fails if and only if the bytes of all entries but the idle ones of other sessions, with the new ones, exceed the budget, and failure changes nothing; on success the victims are exactly the entries removed and reported, idle and not the requester, background before interactive, least recently used first, and no shorter prefix would do. The used count stays the sum of the entries and within the budget. |
| `Scheduler.Scheduler.MarkIdle` | crates/ai-daemon/src/sched.rs:405-410 | Clears the flag and touches the entry; the accounting is kept. |
| `Scheduler.Scheduler.ReleaseKv` | crates/ai-daemon/src/sched.rs:412-417 | Removes the entry and gives back exactly its bytes. |
| `Audit.Verify` | crates/ai-daemon/src/audit.rs:365-407 | The verifier's loop agrees with walking the chain, with the line number and the reason of the first break. |
| `Audit.VerifyExact` | crates/ai-daemon/src/audit.rs:365-407 | It succeeds if and only if each record carries the hash of the one before and the first carries none, and then with the exact number of records. |
| `Audit.BreakIsNamed` | crates/ai-daemon/src/audit.rs:365-407 | A log that does not verify is reported at the first line that breaks the chain, with what is wrong with it: no record, a link where the beginning should be, no link, or the wrong one. |
| `Audit.TamperEvident` | crates/ai-daemon/src/audit.rs:365-407 | Two logs that verify and share their last record have the same records, or the proof names two different lines of theirs with the same hash; with an injective hash no edit, deletion, insertion or reordering before the last record goes unnoticed. |
| `Audit.TruncationVerifies` | crates/ai-daemon/src/audit.rs:365-407 | What the chain alone cannot show: a log cut after any line still verifies. |
| `Audit.Log.constructor` | crates/ai-daemon/src/audit.rs:101-124 | Opening reads the head back from whatever the file holds. |
| `Audit.Log.Append` | crates/ai-daemon/src/audit.rs:164-182 | The new record is linked to the last one; the log verifies after the append if and only if it did before, with one record more. |
| `Audit.EveryRunVerifies` | crates/ai-daemon/src/audit.rs:164-182 | Every run of appends and clean restarts from an empty file verifies with one record per append. |
| `Frames.Reader.Read` | crates/ai-daemon-proto/src/frame.rs:141-146 | What a byte source may do: any short read, any interruption, nothing only at the end. |
| `Frames.ReadExactOrEof` | crates/ai-daemon-proto/src/frame.rs:138-150 | However the bytes arrive, the buffer is filled, a clean end is told from a cut one, and interruptions are retried. |
| `Frames.ReadFrame` | crates/ai-daemon-proto/src/frame.rs:101-121 | One read returns what the front of the stream says, independent of how it is split. |
| `Frames.ReadStream` | crates/ai-daemon-proto/src/frame.rs:101-121 | Repeated reads return all frames up to the end or the first error, independent of how the stream is split. |
| `Frames.WriteRaw` | crates/ai-daemon-proto/src/frame.rs:86-98 | Header and payload, or an error above the limit. |
| `Frames.WriteBlob` | crates/ai-daemon-proto/src/frame.rs:79-84 | A payload is written as its chunks, and nothing at all when it is empty. |
| `Frames.WireFormat` | crates/ai-daemon-proto/src/frame.rs:23-41 | Four big-endian bytes of length, kind 1 or 2, the payload; 64 MiB and 8 MiB as the limits. |
| `Frames.NextExact` | crates/ai-daemon-proto/src/frame.rs:101-121 | A read returns a frame exactly when the stream starts with that frame as it is written. |
| `Frames.FailsExact` | crates/ai-daemon-proto/src/frame.rs:101-121 | A read fails exactly for a length past the limit, whatever follows it, for a cut frame, for an unknown kind, and for CBOR that does not parse. |
| `Frames.StreamRoundTrip` | crates/ai-daemon-proto/src/frame.rs:79-121 | Reading a written stream returns exactly the frames written, then a clean end. |
| `Frames.ReadBack` | crates/ai-daemon-proto/src/frame.rs:79-121 | The same with anything after the written frames. |
| `Frames.CutIsAnError` | crates/ai-daemon-proto/src/frame.rs:101-150 | A cut anywhere inside a frame is an end-of-file error after the frames before it. |
| `Frames.ChunksCarryAll` | crates/ai-daemon-proto/src/frame.rs:79-84 | The chunks carry the payload, none is over the frame limit, and all but the last are full. |
| `Frames.CollectAttachment` | crates/ai-daemon/src/session.rs:526-540 | The attachment loop, with its errors for an interrupting request, an overrun and a closed channel. |
| `Frames.CollectMatchesBlob` | crates/ai-daemon/src/session.rs:526-540 | The declared-length loop consumes exactly the blobs that were written for that payload, and none for length zero. |
| `Frames.CollectExact` | crates/ai-daemon/src/session.rs:526-540 | On every list of frames the loop takes blobs while they bring less than the declared length, and ends with exactly that length, past it, at a request, or at the end of the channel. |
| `TokenBuckets.Bucket.TakeTokens` | crates/ai-daemon/src/policy.rs:166-177 | Refills, then grants or refuses; the balance stays between zero and the capacity. |
| `TokenBuckets.BucketBound` | crates/ai-daemon/src/policy.rs:153-178 | Over any run at non-decreasing times the total granted is at most capacity + rate * elapsed. |
| `TokenBuckets.BoundBetween` | crates/ai-daemon/src/policy.rs:153-178 | The same between any two instants of a run. |
| `TokenBuckets.TakeExact` | crates/ai-daemon/src/policy.rs:166-177 | A take is granted exactly when it is within the capacity and within the balance plus rate times elapsed; what is left is the smaller of the two, less the grant. |
| `TokenBuckets.GrantedExact` | crates/ai-daemon/src/policy.rs:153-178 | After any run a request is granted if and only if it is within the capacity and, counted from the start and from every earlier request, it and the grants so far are within what the bucket held and what flowed in. |
| `TokenBuckets.MinuteFills` | crates/ai-daemon/src/policy.rs:161-164 | Sixty seconds fill a bucket from any balance, and its allowance is the configured one or one. |
| `TokenBuckets.ReserveExact` | crates/ai-daemon/src/session.rs:976-1008 | A charge is granted exactly when every bucket it asks grants it; a refusal by the identity still uses up the own allowance, and a refusal by the allowance leaves the identity untouched. |
| `TokenBuckets.BothBoundsHold` | crates/ai-daemon/src/session.rs:976-1008 | For any number of sibling sessions, everything granted by the four places that charge the identity (turns, embeddings, media, overruns) obeys the identity's bound, and the turns of a narrowed session obey its own. |
| `TokenBuckets.OwnBoundCoversTurns` | crates/ai-daemon/src/session.rs:976-1008 | A session's own bound covers all that it is granted, on every run, if and only if it charges only for turns: the other three places do not ask its allowance. |
| `TokenBuckets.EmbedPassesOwnBound` | crates/ai-daemon/src/session.rs:1454-1461 | An input past the own bound: a session narrowed to one token a minute is granted an embedding of five hundred. |
| `TokenBuckets.UseIsBounded` | crates/ai-daemon/src/session.rs:1209-1216 | What is used passes the identity's bound by no more than the overruns its bucket could not pay for, since their refusal is ignored. |
| `SpendLedger.Ledger.Prune` | crates/ai-daemon/src/policy.rs:565 | Pruning keeps exactly the fresh entries and loses nothing a later look would count. |
| `SpendLedger.Ledger.ChargeSpend` | crates/ai-daemon/src/policy.rs:561-570 | The reported total is the sum of all charges of the whole history younger than the window, the new one included. |
| `SpendLedger.Ledger.SpentBy` | crates/ai-daemon/src/policy.rs:670-676 | The same for a look without a charge. |
| `SpendLedger.WindowIsLastDay` | crates/ai-daemon/src/policy.rs:119 | What counts is every charge less than twenty-four hours old. |
| `SpendLedger.PriceExact` | crates/ai-daemon/src/policy.rs:530-551 | The price is the input rate on the prompt plus the output rate on the completion of the first entry for the model, or else of the first catch-all; with neither the model is free. |
| `SpendLedger.SpendPermits` | crates/ai-daemon/src/policy.rs:642-667 | No ceiling or a free model is permitted; otherwise the window's total must be below the ceiling. |
| `SpendLedger.PermitsExact` | crates/ai-daemon/src/policy.rs:642-667 | Permitted exactly when there is no ceiling, or no request to the model costs anything, or less than the ceiling was spent. |
| `SpendLedger.Micros` | crates/ai-daemon/src/policy.rs:540-548 | Rounded up: at least the exact cost and less than one more, at least one for a priced token, zero for a rate of at most zero. |
| `SpendLedger.FreeModelIsFree` | crates/ai-daemon/src/policy.rs:651-655 | A model that is free at one token of each is free at any number. |
| `SpendLedger.OvershootIsOneRequest` | crates/ai-daemon/src/policy.rs:642-667 | After a permitted request is charged the total is below its ceiling plus its price, for every priced model; a free request costs nothing and leaves the total no higher than when it was asked. |
| `SpendLedger.FreeModelPastCeiling` | crates/ai-daemon/src/policy.rs:653-655 | An input that shows the bound failing for a free model: it is permitted past the ceiling. |
| `SpendLedger.CeilingHolds` | crates/ai-daemon/src/policy.rs:561-667 | After any run of free and priced requests, one at a time under one ceiling, the total in the window is below the ceiling plus the largest single price. |
| `AnthropicStream.Relay` | crates/ai-daemon-shim/src/main.rs:1689-1812 | The event loop writes the specified stream of server-sent events for every event sequence. |
| `AnthropicStream.CloseTextBlock` | crates/ai-daemon-shim/src/main.rs:1816-1832 | Closes the text block if one is open and moves the index on. |
| `AnthropicStream.EmitCalls` | crates/ai-daemon-shim/src/main.rs:1757-1768 | The open text block is closed first, then each call is a block of its own with the next index. |
| `AnthropicStream.RelayJson` | crates/ai-daemon-shim/src/main.rs:1587-1667 | The non-streaming loop replies with one list of content, the text first and left out when empty, then the calls with their arguments parsed or replaced by the empty object, and the stop reason. |
| `AnthropicStream.StreamIsWellFormed` | crates/ai-daemon-shim/src/main.rs:1689-1867 | A reader that accepts only message_start, blocks numbered 0, 1, 2 and so on, each closed before the next, and message_stop last reaches its end on every event sequence, errors included. |
| `AnthropicStream.TwinsAgree` | crates/ai-daemon-shim/src/main.rs:1574-1867 | For every event sequence, a client that folds the stream by block index and parses each call's arguments has the content of the non-streaming reply, block by block, if and only if the daemon failed the turn or every delivered call has arguments that parse, the tokens come in one run before the first call, and their text is not empty when there are any. |
| `AnthropicStream.StreamCarriesOutcome` | crates/ai-daemon-shim/src/main.rs:1689-1867 | Whatever the order, folding the stream gives the text, the raw tool calls, the stop reason and the output tokens that the events came to, its blocks are in the order of the events, and it fails exactly when they failed. |
| `AnthropicStream.EndingTold` | crates/ai-daemon-shim/src/main.rs:1574-1667 | By the events alone: tool use if any event brought calls, else max_tokens, stop_sequence or end_turn by the word of the last event; its usage; and the status and kind of a refusal by its code. |
| `Provenance.RewriteLoop` | crates/ai-daemon/src/session.rs:1656-1681 | The scanning loop replaces the leftmost hits, skips past each and copies the rest, as Defanging.DefangExact says without it. |
| `Provenance.DefangText` | crates/ai-daemon/src/session.rs:1635-1645 | The nonce is replaced first, then the three marker names in order. |
| `Defanging.DefangExact` | crates/ai-daemon/src/session.rs:1635-1682 | The output is the defanged text if and only if it comes of four replacements in order, each of which cuts the text into pieces and hits, every hit a case variant of an opening or closing name (or the nonce), no hit starting inside a piece, and puts the mark for every hit and keeps every piece. |
| `Defanging.FoldsCapitals` | crates/ai-daemon/src/session.rs:1656-1681 | Case is folded for the twenty-six ASCII letters and nothing else. |
| `Provenance.NoMarkerSurvives` | crates/ai-daemon/src/session.rs:1635-1682 | No case variant of an opening or closing marker of any of the three names survives, for every text and nonce. |
| `Provenance.SafeNonces` | crates/ai-daemon/src/session.rs:1635-1645 | For a non-empty hexadecimal nonce, no text keeps the nonce if and only if the nonce occurs in neither replacement text; for the others the removal itself writes it back. |
| `Provenance.MintedNoncesAreSafe` | crates/ai-daemon/src/session.rs:1690-1704 | Every hexadecimal nonce of at least three digits meets that condition; the daemon mints thirty-two. |
| `Provenance.DefangTwice` | crates/ai-daemon/src/session.rs:1635-1682 | Defanged text is a fixed point for every such nonce. |
| `Provenance.CleanIsUntouched` | crates/ai-daemon/src/session.rs:1635-1682 | Text with neither the nonce nor a marker is returned as it is. |
| `Framing.MarkMessage` | crates/ai-daemon/src/session.rs:789-812 | A message as the backend sees it: assistant turns unchanged, others in one block. |
| `Framing.FramedMessages` | crates/ai-daemon/src/session.rs:755-815 | The prompt is the prelude, if any, then every message in order; without a nonce nothing is marked. |
| `Framing.BlockText` | crates/ai-daemon/src/session.rs:755-812 | The text of each framed message and of the prelude: the opening line with nonce and call id, the whole content, the closing line. |
| `Framing.OneBlock` | crates/ai-daemon/src/session.rs:799-812 | A block has one opening marker, at its start, and one closing marker, at its end, whatever the hexadecimal nonce. |
| `Framing.OneNonce` | crates/ai-daemon/src/session.rs:799-812 | A block around content without the nonce carries the nonce at one place only if and only if the nonce occurs in none of the fixed pieces of the block. |
| `Framing.PromptIsMarked` | crates/ai-daemon/src/session.rs:784-815 | Each non-assistant message of a marked prompt is such a block, with role, attachments and call id kept. |
| `Framing.FitNonces` | crates/ai-daemon/src/session.rs:784-815 | For a hexadecimal nonce, every message of others carries the nonce exactly once if and only if the nonce occurs in no text that defanging or framing writes. |
| `Framing.MintedNoncesFit` | crates/ai-daemon/src/session.rs:1690-1704 | Every hexadecimal nonce of at least three digits meets that condition; the daemon mints thirty-two. |
| `ToolCalls.Worker.TurnLoop` | crates/ai-daemon/src/session.rs:1133-1175 | The tool-call arms of a turn push each accepted call to the history and the pending list, and stop at the first refused one. |
| `ToolCalls.Worker.Push` | crates/ai-daemon/src/session.rs:1140-1151 | A batch of calls is pushed in order. |
| `ToolCalls.Worker.StartOver` | crates/ai-daemon/src/session.rs:417-424 | A generate request replaces the history, clears what was pending and runs a turn. |
| `ToolCalls.Worker.Answer` | crates/ai-daemon/src/session.rs:459-492 | Answers are taken until one names no pending call; the turn resumes when none is left. |
| `ToolCalls.EveryRunConserves` | crates/ai-daemon/src/session.rs:417-492 | After every run, since the last generate, the multiset of called ids is the answered ids plus the pending ids, with duplicates and on every error path. |
| `ToolCalls.TurnsStartAnswered` | crates/ai-daemon/src/session.rs:459-492 | A turn starts exactly when every earlier call has been answered, and otherwise the state is what the answers left. |
| `ToolCalls.TurnAddsItsCalls` | crates/ai-daemon/src/session.rs:1133-1175 | A turn adds exactly the calls before its first refused or final event, each to the log and to the pending list, in order. |
| `ToolCalls.AnswersAreLogged` | crates/ai-daemon/src/session.rs:459-492 | Answers are logged with their contents, in order, up to the first that names no outstanding call. |

## Left out

- Checksums: the CRC of a chunk and the Adler-32 of a zlib stream are parameters of the printers, since the decoder reads past them.
- Machine words: counters, sizes and indices are unbounded. PNG sizes beyond 64 bits, the 16- and 32-bit counters of the Huffman tables, `kv_used + extra` near 2^64 and saturating sums are not modelled; within the words they never reach their ends.
- PngRoundTrip.ZlibStored: models the loop of packaging/verify/make-png.rs; the printer in the decoder's own module differs only on empty data, where it writes one empty block, and filtered image data is never empty.
- PngRoundTrip.PrintedPngDecodes: the compressed data must fit the 32-bit length of its one chunk; PngRoundTrips has no such bound, since it splits the data.
- GBNF text: the grammar is over JSON tokens, so `ws`, the quoting of literals and the escaping of property names that need it in JSON are not modelled. A number token keeps its text; a string token is what its spelling stands for, and a spelling with an escaped surrogate is not read back.
- Property order: a JSON object is its list of fields, and `get` finds the first of a key; a map with unique keys is a special case.
- Threads: each scheduler call is one atomic step with the messages it sends. Delivery after the lock is released, the condition variable and the 250 ms wait are not modelled; every look of the waiting loop is one call of TryAdmit.
- Backends: a backend that dies and is started again under the same name is not an event of the model, and its counter (crates/ai-daemon/src/backend.rs:347-348) is the hypothesis of FreshRunsInform. A restart that hands out a pair again breaks the agreement only while an interactive request that still holds the pair runs.
- The order of a hash map and ties of `last_used`: left open, so the cache results hold for every order.
- The cache `active` flag is the scheduler's own; that it is set exactly while a request is in flight is not claimed.
- Clocks: times are parameters that do not go back. The bucket is over reals, without rounding; a bucket that `revoke` discards starts again, and the creation of an identity's bucket at its first charge is not modelled.
- How much a request charges (the estimates of prompts, inputs and media, and the actual use of a turn) is a parameter of each charge.
- Prices are reals: not-a-number, infinities and saturation are not modelled.
- Audit: the line hash, the JSON printer and the JSON reader are parameters, and runs assume writes that succeed.
- CBOR payloads are opaque: a parameter says which ones the reader accepts. The peek for a cancel request in the socket loop is not modelled.
- AnthropicStream.Relay: failing writes and a client that hangs up are not modelled, nor the input token count. The JSON reader of tool arguments is a parameter of AnthropicStream.RelayJson.
- Framing.FramedMessages: takes the prelude already trimmed; it is trusted and not defanged, as in the source, so a marker written in it stays. Text is characters, not UTF-8 bytes.
- Strings in calls: the grammar accepts raw characters below U+0020 inside a string (crates/ai-daemon/src/grammar.rs:233), which JSON forbids; a call spelled so is refused later, where its arguments are parsed (crates/ai-daemon/src/session.rs:674). The token language does not tell the two spellings of a string apart; Lexemes.AcceptedIsJson does.
- ToolCalls.TurnsStartAnswered: a batch with an unknown id after the last pending one returns without a turn, as in the source. Which calls a turn offers is a parameter, and the text of the logged messages is not kept.
- WAV decoding, seccomp, D-Bus, consent and grants, configuration, backends, model registry, media generation and the other request shapes of the shim: effects, plumbing or short rules that would add only easier members.
