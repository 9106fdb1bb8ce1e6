# Formal models of the vendored libraries

This project models, in Dafny, the parts of the repository whose behaviour is hard to see from the code, and proves
what they are for. `dafny verify dfyconfig.toml` checks everything.

- **Mock matching** (`Matching`, `BipartiteMatching`, `BinaryCounter`): Google Mock's `UnorderedElementsAre`. A
  recursive search for augmenting paths over two arrays and a set of marks, each element tried once. It is proved to
  give a maximum matching: the matchers that failed searches have marked form a dead region, which later paths never
  enter, and which yields a vertex cover of the size of the matching.
- **Mock expectations** (`SpecBuilders`): the acyclic graph of prerequisites, what a handled call retires, which
  expectation a call is given to, and the order that results in every run.
- **Coded streams** (`Wire`, `VarintGroups`, `WireFields`, `CodedInputStream`, `CodedOutputStream`, `ComputeSize`,
  `Loopback`): the Protocol Buffers reader with its chunk-wise refills and nested limits, the buffered writer, and the
  sizes. The reader refines one flat sequence of bytes with one position and one limit, for any chunking; the writer
  refines an appended sequence, for any buffer size; skipping accepts exactly the grammar of fields and groups. The
  formats are those of the Protocol Buffers Encoding guide, sections "Base 128 Varints", "Signed Integers",
  "Length-Delimited Records", "Packed Repeated Fields" and "Groups".
- **LitJson** (`JsonLexer`, `JsonGrammar`, `JsonNesting`, `JsonReader`, `JsonText`, `JsonSpelling`, `JsonLexemes`,
  `JsonDocument`, `JsonLayout`, `JsonWriter`, `JsonCalls`, `JsonData`, `JsonReading`; `Division` has the arithmetic): the
  lexer of 28 states, the table-driven parser, the validating writer, and the tree of `JsonData` nodes. The handlers run a
  reference automaton, which lexes exactly the tokens of RFC 4627, sections 2.2 to 2.5, in every spelling, with comments
  and single quotes besides; the parser accepts exactly the sentences of its table and reports the pre-order of the one
  tree; the writer accepts exactly the pre-orders of arrays and objects, and what it prints is, line by line, their page,
  which is a text of RFC 4627 that reads as them; printing a tree and reading it back gives the tree.
- **Generated messages** (`FormationWire`, `FormationParser`, `FormationMessages`, `FormationBuilder`, `NestedBuilder`,
  `FormationRoundTrip`): `PBOneFormation` and `PBFormation` with packed and single repeated fields, memoized sizes,
  merging, and builders that copy on write under a bit field. For every sequence of builder calls, no message that
  was built or merged from ever changes.

Code that updates state step by step is modelled by classes, arrays and loops with the fields and branches of the
original, and each method is proved against a function of the old state (`ReadVarint`, `SkipField`, `Lex`, `Parse`,
`AcceptAll`, `Merge` and so on). The laws are then lemmas about those functions.

## What is assumed

- Positions and sizes do not overflow an `int`: `Pos() + size` in the reader and the writer's positions are unbounded
  here. Where the original relies on wrap-around or truncation (varints, zigzag, casts) it is written out.
- The stream below the reader returns any positive number of the bytes it still has, and none only at its end
  (`InputSource.Read`); one that can seek accepts a position past its end, as .NET file and memory streams do.
- The stream below the writer appends what it is given (`OutputSink`).
- The Java runtime library is not part of the repository. `MessageInput` states what is assumed of its input stream:
  the wire format of the C# reader, limits that cut off what lies behind them, a depth counter around nested messages,
  and for unknown fields the C# skipper. That includes the reserved wire types 6 and 7, which the C# reader passes over
  as empty fields; whether the Java library refuses them is not known from this repository.
- `Double.TryParse` succeeds on what the lexer passes as a fraction or exponent exactly if it ends in a digit. The
  value of a double stays the text that would be converted. A magnitude beyond the range of a double, such as 1e999,
  counts as parsed, as an infinity; on a platform where the library refuses it, `NumberEvent` would be an `Int` of 0.
- A mock cardinality is an interval of call counts; it is satisfied within its bounds and saturated from the upper one on.
- The preconditions of private methods and constructors are those the original checks or its callers keep: arguments
  in range, no null where the original throws for null.

## What the proofs found

- `CodedInputStream.ReadRawBytes` never comes to an end over an empty array when a positive size within the limit is
  asked for: it appends empty chunks for ever, where a truncated message should be reported.
  `StallsExactlyOverEmptyArray` gives the exact condition, `StallingReader` reaches the state. For every other state and
  every size the method meets its contract.
- Over a source that can seek, skipping a length-delimited field that is cut off succeeds, where reading it reports a
  truncated message. `OvershootsExactly` gives the exact condition, `OvershootingReader` reaches the state.
- `IOrderedDictionary.Insert` of `JsonData` always leaves the key twice in the list, so that list and dictionary no
  longer agree. All other mutators keep them in step.
- `JsonReader` boxes integers between 2^63 and 2^64 as `ulong` under the token `Long`, so that building a tree from such
  a text throws, and reads integers beyond as 0. `ToObject` and `Readable` say exactly which texts can be read.
- The lexer takes a number whose exponent ends with its sign, such as `1e+`, and the reader reports it as the `Int` 0,
  where RFC 4627 has no such number. `NumberMeans` says when this happens, `TokensSpelled` that it is the only number
  beyond the RFC that is accepted.
- A `Long` that fits an `Int` comes back as an `Int` (`Normal`). Nothing else changes in a round trip.
- The order of mock expectations holds for every call, excessive or not, of an expectation that may be called at all
  (`PrerequisitesComeFirst`). For one with `Times(0)` it fails: its excessive calls retire nothing. After a call, all
  prerequisites have retired for good if and only if the upper bound is positive or they had retired before
  (`GetActionForArguments`); in every other case a prerequisite can still be called (`PrerequisiteComesLast`), and
  `NeverComesFirst` is such a run.

## Model

| member | source | states |
|---|---|---|
| Matching.CoverIsMaximum | conf/protobuf-3.1.0/gmock/src/gmock-matchers.cc:207-238 | a matching with as many pairs as some vertex cover has vertices is at least as large as every other matching |
| Matching.PerfectIffPairing | conf/protobuf-3.1.0/gmock/src/gmock-matchers.cc:328-333 | a maximum matching has one pair per matcher if and only if some assignment gives every matcher an adjacent element of its own |
| BipartiteMatching.MatchMatrix.constructor | conf/protobuf-3.1.0/gmock/include/gmock/gmock-matchers.h:3018-3022 | a new matrix of the given shape is valid and has no edge |
| BipartiteMatching.MatchMatrix.SetEdge | conf/protobuf-3.1.0/gmock/include/gmock/gmock-matchers.h:3029-3031 | exactly the one cell changes; every other edge is as before, because the row-major index is injective |
| BipartiteMatching.MatchMatrix.EdgeLookup | conf/protobuf-3.1.0/gmock/include/gmock/gmock-matchers.h:3026-3045 | a cell is set if and only if the pair is an edge of the graph that the matrix stands for |
| BipartiteMatching.MaxBipartiteMatchState.TryAugment | conf/protobuf-3.1.0/gmock/src/gmock-matchers.cc:259-285 | on success exactly one free matcher becomes used, no element but the given one changes between used and unused, and the links are mutual again but for the matcher that element gave up, if it had one; dead regions are not touched. On failure both arrays are unchanged, and every matcher newly marked is matched to an element whose neighbours are all marked. Terminates because the unmarked matchers decrease |
| BipartiteMatching.SettledNext | conf/protobuf-3.1.0/gmock/src/gmock-matchers.cc:225-226 | the next element has no flow when its turn comes, so the run-time check never fires |
| BipartiteMatching.SettledAfterSuccess | conf/protobuf-3.1.0/gmock/src/gmock-matchers.cc:210-221 | a success takes the flow of no earlier element away, and every earlier failure stays final |
| BipartiteMatching.SettledAfterFailure | conf/protobuf-3.1.0/gmock/src/gmock-matchers.cc:210-221 | what a failed search marked can be added to the dead region: no later path enters it |
| BipartiteMatching.SettledIsMaximum | conf/protobuf-3.1.0/gmock/src/gmock-matchers.cc:207-238 | once each element was visited once, the pairs held in the left array are a maximum matching: dead matchers and the elements matched outside them cover all edges |
| BipartiteMatching.MaxBipartiteMatchState.Visit | conf/protobuf-3.1.0/gmock/src/gmock-matchers.cc:222-230 | one turn of the outer loop settles one more element |
| BipartiteMatching.MaxBipartiteMatchState.Compute | conf/protobuf-3.1.0/gmock/src/gmock-matchers.cc:207-238 | for every graph the pairs returned are a matching at least as large as every other, each once and in element order |
| BipartiteMatching.FindMaxBipartiteMatching | conf/protobuf-3.1.0/gmock/src/gmock-matchers.cc:307-310 | the same for a matrix: a maximum matching of its graph |
| BipartiteMatching.FindPairing | conf/protobuf-3.1.0/gmock/src/gmock-matchers.cc:328-357 | true if and only if all matchers can be given pairwise different adjacent elements |
| BipartiteMatching.VerifyAllElementsAndMatchersAreMatched | conf/protobuf-3.1.0/gmock/src/gmock-matchers.cc:444-495 | true if and only if every element and every matcher has an edge |
| BipartiteMatching.FilterIsSound | conf/protobuf-3.1.0/gmock/include/gmock/gmock-matchers.h:3159-3161 | if a permutation satisfies all matchers, the filter lets it through, so that asking the filter first loses nothing |
| BipartiteMatching.MatchAndExplain | conf/protobuf-3.1.0/gmock/include/gmock/gmock-matchers.h:3135-3162 | the verdict of UnorderedElementsAre is true if and only if some permutation of the elements satisfies the matchers one by one, unequal counts and two empty sides included |
| BipartiteMatching.MatchMatrix.NextGraph | conf/protobuf-3.1.0/gmock/src/gmock-matchers.cc:359-371 | the cells, read as row-major bits, become their binary successor in place; the answer is true if and only if some cell was clear |
| BinaryCounter.IncrementAddsOne | conf/protobuf-3.1.0/gmock/include/gmock/gmock-matchers.h:3033-3036 | the successor adds one to the number the bits spell, or wraps to zero, and it wraps if and only if all bits are set |
| BinaryCounter.EnumeratesAll | conf/protobuf-3.1.0/gmock/src/gmock-matchers.cc:359-371 | from the empty matrix, each of the 2^n matrices is met at exactly one count below 2^n, and after 2^n steps the matrix is empty again |
| SpecBuilders.ExpectationBase.RetireAllPreRequisites | conf/protobuf-3.1.0/gmock/src/gmock-spec-builders.cc:95-111 | on an acyclic graph in which a retired expectation has retired prerequisites, retires all transitive prerequisites and nothing else, in spite of the short cut, and keeps that property |
| SpecBuilders.ExpectationBase.AllPrerequisitesAreSatisfied | conf/protobuf-3.1.0/gmock/src/gmock-spec-builders.cc:115-125 | true if and only if every transitive prerequisite is satisfied |
| SpecBuilders.ExpectationBase.FindUnsatisfiedPrerequisites | conf/protobuf-3.1.0/gmock/src/gmock-spec-builders.cc:128-146 | adds exactly the unsatisfied prerequisites that can be reached through satisfied ones that were never called |
| SpecBuilders.SoundIsCalledSatisfied | conf/protobuf-3.1.0/gmock/src/gmock-spec-builders.cc:131-138 | in every run, a satisfied expectation that was called has all its prerequisites satisfied, which is what the search relies on when it stops there |
| SpecBuilders.NothingBlocksIffSatisfied | conf/protobuf-3.1.0/gmock/src/gmock-spec-builders.cc:115-146 | when every called and satisfied expectation has its prerequisites satisfied, the search adds nothing if and only if all prerequisites are satisfied, and all it adds are unsatisfied transitive prerequisites |
| SpecBuilders.ExpectationBase.Handle | conf/protobuf-3.1.0/gmock/include/gmock/gmock-spec-builders.h:1195-1213 | a handled call keeps the graph sound; an excessive one only counts, any other retires exactly the transitive prerequisites, and the expectation itself if it retires on saturation |
| SpecBuilders.MockRun.EnterSequence | conf/protobuf-3.1.0/gmock/src/gmock-spec-builders.cc:795-802 | opens an implicit sequence exactly if there is none, and says whether it did |
| SpecBuilders.MockRun.LeaveSequence | conf/protobuf-3.1.0/gmock/src/gmock-spec-builders.cc:806-811 | closes the implicit sequence exactly if this object has opened it |
| SpecBuilders.MockRun.AddNewExpectation | conf/protobuf-3.1.0/gmock/include/gmock/gmock-spec-builders.h:1545-1564 | a new expectation is nobody's prerequisite, has the last one of the implicit sequence as its only prerequisite if there is one, and becomes the last; the run stays valid |
| SpecBuilders.MockRun.After | conf/protobuf-3.1.0/gmock/include/gmock/gmock-spec-builders.h:964-976 | adds all the given prerequisites; the graph stays acyclic while the expectation is unused |
| SpecBuilders.MockRun.AddExpectation | conf/protobuf-3.1.0/gmock/src/gmock-spec-builders.cc:784-792 | the expectation that was last in the sequence becomes a prerequisite, unless there was none or it is the same; the graph stays acyclic |
| SpecBuilders.MockRun.FindMatchingExpectation | conf/protobuf-3.1.0/gmock/include/gmock/gmock-spec-builders.h:1658-1672 | the youngest expectation that is not retired, matches, and all of whose transitive prerequisites have a number of calls from their lower to their upper bound; null if and only if there is none |
| SpecBuilders.MockRun.GetActionForArguments | conf/protobuf-3.1.0/gmock/include/gmock/gmock-spec-builders.h:1188-1218 | keeps the invariant of every run, appends the call to its history, and retires what Handle says; afterwards all prerequisites have retired if and only if the upper bound is positive or they had retired before |
| SpecBuilders.PrerequisiteComesLast | conf/protobuf-3.1.0/gmock/include/gmock/gmock-spec-builders.h:1195-1206 | in any run, after a call of an expectation whose upper bound is not positive, every prerequisite that had not retired can be called next, which puts it behind its dependant |
| SpecBuilders.NeverComesFirst | conf/protobuf-3.1.0/gmock/include/gmock/gmock-spec-builders.h:1195-1206 | a reachable run in which a call of an expectation with upper bound zero comes before a call of its prerequisite |
| SpecBuilders.PrerequisitesComeFirst | conf/protobuf-3.1.0/gmock/include/gmock/gmock-spec-builders.h:1092-1102 | in every run, every call, excessive or not, of an expectation with a positive upper bound comes after every call of any of its transitive prerequisites |
| SpecBuilders.Play | conf/protobuf-3.1.0/gmock/include/gmock/gmock-spec-builders.h:1188-1218 | of any sequence of calls on any graph, told by the history alone: at every handled call each transitive prerequisite has been called at least its lower bound and at most its upper bound of times; the call is excessive if and only if its expectation had been called its upper bound of times; one that retires on saturation is never called more often; a call is handled or unexpected |
| SpecBuilders.BeforeIffChain | conf/protobuf-3.1.0/gmock/include/gmock/gmock-spec-builders.h:964-976 | a transitive prerequisite is one that a chain of direct prerequisites leads to |
| SpecBuilders.BlocksIffChain | conf/protobuf-3.1.0/gmock/src/gmock-spec-builders.cc:128-146 | what blocks an expectation is what is out of its bounds and can be reached by a chain of satisfied prerequisites that were never called |
| Wire.VarintRoundTrip | godsg/Assets/Plugins/Protobuf/CodedOutputStream.cs:477-526 | a shortest varint, whatever follows it, is read back modulo any modulus with exactly its own length consumed |
| Wire.VarintLength | godsg/Assets/Plugins/Protobuf/CodedOutputStream.cs:477-526 | a varint has at most k bytes if and only if the number is below 128^k |
| Wire.Int32RoundTrip | godsg/Assets/Plugins/Protobuf/CodedOutputStream.cs:222-233 | a negative int32 takes ten bytes, and a 32-bit reader that drops the upper half gets every int32 back |
| Wire.LittleEndianRoundTrip | godsg/Assets/Plugins/Protobuf/CodedOutputStream.cs:528-570 | the fixed-width bytes of every number that fits give the number back |
| Wire.VarintBytes | godsg/Assets/Plugins/Protobuf/CodedOutputStream.cs:477-526 | byte i of the varint of any number holds its digit i to the base of 128, and the upper bit of every byte but the last is set |
| Wire.LittleEndianBytes | godsg/Assets/Plugins/Protobuf/CodedOutputStream.cs:528-570 | byte i of the fixed-width form is digit i to the base of 256 |
| Wire.EncodingExamples | godsg/Assets/Plugins/Protobuf/CodedOutputStream.cs:222-233 | the bytes of 1, 150, 300 and -2 are those of the Protocol Buffers Encoding guide |
| Wire.ZigZagInverse32 | godsg/Assets/Plugins/Protobuf/CodedOutputStream.cs:645-649 | zigzag encoding and decoding of 32 bits undo each other in both directions, and n is mapped to 2n or -2n-1 |
| Wire.ZigZagInverse64 | godsg/Assets/Plugins/Protobuf/CodedInputStream.cs:914-917 | the same for 64 bits |
| VarintGroups.Groups32 | godsg/Assets/Plugins/Protobuf/CodedInputStream.cs:690-736 | modulo 2^32 each byte of a varint counts with its weight, the fifth with its low bits only and no later one at all: the 32-bit readers may discard up to five more bytes |
| CodedInputStream.CodedInputStream.FromArray | godsg/Assets/Plugins/Protobuf/CodedInputStream.cs:131-142 | a reader over a slice of an array stands at its start, with exactly the slice left to read and the default limits |
| CodedInputStream.CodedInputStream.FromStream | godsg/Assets/Plugins/Protobuf/CodedInputStream.cs:188-201 | a reader over a stream stands at position zero with everything that the stream still has as its flat sequence |
| CodedInputStream.CodedInputStream.RecomputeBufferSizeAfterLimit | godsg/Assets/Plugins/Protobuf/CodedInputStream.cs:947-961 | no physical byte is lost: visible and hidden bytes add up as before, and bytes are hidden only if the visible part ends exactly at the limit |
| CodedInputStream.CodedInputStream.PushLimit | godsg/Assets/Plugins/Protobuf/CodedInputStream.cs:928-945 | changes nothing but the limit, to position plus length; a negative length and one beyond the enclosing limit are refused with nothing changed; the old limit is returned |
| CodedInputStream.CodedInputStream.PopLimit | godsg/Assets/Plugins/Protobuf/CodedInputStream.cs:966-970 | changes nothing but the limit, so that every byte hidden since the matching push can be read again |
| CodedInputStream.CodedInputStream.IsAtEnd | godsg/Assets/Plugins/Protobuf/CodedInputStream.cs:994-997 | true if and only if nothing is left within limit and source, with the position unchanged |
| CodedInputStream.CodedInputStream.RefillBuffer | godsg/Assets/Plugins/Protobuf/CodedInputStream.cs:1008-1058 | leaves position, limit and what is left unchanged however the source cuts its chunks; answers false or reports truncation only if nothing is left; refuses a buffer that is not exhausted |
| CodedInputStream.CodedInputStream.ReadRawByte | godsg/Assets/Plugins/Protobuf/CodedInputStream.cs:1066-1073 | the next byte of the flat sequence, or truncation exactly if there is none |
| CodedInputStream.CodedInputStream.SlowReadRawVarint32 | godsg/Assets/Plugins/Protobuf/CodedInputStream.cs:690-736 | agrees with the one reference reader of varints, errors and consumption included |
| CodedInputStream.CodedInputStream.FastReadRawVarint32 | godsg/Assets/Plugins/Protobuf/CodedInputStream.cs:744-798 | with five bytes in the buffer, agrees with the same reference reader |
| CodedInputStream.CodedInputStream.ReadRawVarint32 | godsg/Assets/Plugins/Protobuf/CodedInputStream.cs:744-798 | the varint that comes next modulo 2^32, however it is spread over chunks; truncated and malformed varints are told apart |
| CodedInputStream.CodedInputStream.ReadRawVarint64 | godsg/Assets/Plugins/Protobuf/CodedInputStream.cs:845-860 | the varint that comes next modulo 2^64, by the same reference reader |
| CodedInputStream.CodedInputStream.ReadRawVarint32FromStream | godsg/Assets/Plugins/Protobuf/CodedInputStream.cs:809-840 | the static reader agrees with the same reference reader on a bare stream and leaves the stream right behind the varint |
| CodedInputStream.CodedInputStream.ReadRawLittleEndian32 | godsg/Assets/Plugins/Protobuf/CodedInputStream.cs:865-872 | the number spelled by the next four bytes, across refills |
| CodedInputStream.CodedInputStream.ReadRawLittleEndian64 | godsg/Assets/Plugins/Protobuf/CodedInputStream.cs:877-889 | the number spelled by the next eight bytes, across refills |
| CodedInputStream.CodedInputStream.ReadRawBytes | godsg/Assets/Plugins/Protobuf/CodedInputStream.cs:1081-1192 | on all three paths exactly the next n bytes of the flat sequence, with the position advanced by n; negative sizes, sizes beyond the limit and missing bytes are reported as the original does |
| CodedInputStream.StallsExactlyOverEmptyArray | godsg/Assets/Plugins/Protobuf/CodedInputStream.cs:1141-1192 | ReadRawBytes fails to come to an end exactly if a positive number of bytes within the limit is asked of a reader over an empty array; there, with nothing left to read, it should have reported truncation |
| CodedInputStream.ChunksEnd | godsg/Assets/Plugins/Protobuf/CodedInputStream.cs:1153-1172 | the chunk loop comes to an end if and only if nothing is wanted or the buffer array is not empty |
| CodedInputStream.StallingReader | godsg/Assets/Plugins/Protobuf/CodedInputStream.cs:472-488 | the reader over an empty array is reachable through the constructor, and asking it for a float is such a request |
| CodedInputStream.CodedInputStream.SkipRawBytes | godsg/Assets/Plugins/Protobuf/CodedInputStream.cs:1199-1242 | lands where ReadRawBytes of the same size would land; a size beyond the limit is refused; it succeeds past the end of the source if and only if the source can seek |
| CodedInputStream.CodedInputStream.SkipImpl | godsg/Assets/Plugins/Protobuf/CodedInputStream.cs:1247-1271 | moves the source by the amount, and reports truncation exactly if the source cannot seek and is too short |
| CodedInputStream.CodedInputStream.ReadTag | godsg/Assets/Plugins/Protobuf/CodedInputStream.cs:331-381 | the cached tag if there is one, else the tag that comes next, by the two-byte path or the general one alike; zero exactly at the end, and a tag of zero is an error |
| CodedInputStream.CodedInputStream.ShortTag | godsg/Assets/Plugins/Protobuf/CodedInputStream.cs:342-366 | the two-byte fast path gives the tag, the errors and the consumption of the general varint reader |
| CodedInputStream.CodedInputStream.PeekTag | godsg/Assets/Plugins/Protobuf/CodedInputStream.cs:308-320 | the tag that the next ReadTag will return, with nothing changed but the cache |
| CodedInputStream.CodedInputStream.SkipLastField | godsg/Assets/Plugins/Protobuf/CodedInputStream.cs:396-424 | consumes what the reference skipper consumes and fails as it fails, by the wire type of the last tag; without a last tag it is an invalid operation; the recursion depth is as before |
| CodedInputStream.CodedInputStream.SkipGroup | godsg/Assets/Plugins/Protobuf/CodedInputStream.cs:426-459 | consumes the fields up to the end tag of the same number, one level deeper; a deeper nesting than the recursion limit, another end tag and the end of the input are the three errors |
| WireFields.SkipsEncoded | godsg/Assets/Plugins/Protobuf/CodedInputStream.cs:396-459 | every well-formed field within the recursion limit, whatever follows it, is skipped with exactly its own bytes consumed |
| WireFields.SkippedIsEncoded | godsg/Assets/Plugins/Protobuf/CodedInputStream.cs:396-459 | whatever is skipped within the bytes that are there is the encoding of a well-formed field |
| CodedInputStream.OvershootingReader | godsg/Assets/Plugins/Protobuf/CodedInputStream.cs:1247-1254 | the reader over the bytes 10, 5 of a seekable source reads the tag and then skips, with success, to position seven of two, where reading reports truncation |
| WireFields.SkipsExactlyFields | godsg/Assets/Plugins/Protobuf/CodedInputStream.cs:396-459 | skipping consumes n of the bytes that are there if and only if those n bytes are one well-formed field, groups nested up to the recursion limit included |
| WireFields.SkipsExactlyWhenField | godsg/Assets/Plugins/Protobuf/CodedInputStream.cs:396-459 | over a source that cannot seek, skipping succeeds if and only if a well-formed field comes first |
| WireFields.OvershootsExactly | godsg/Assets/Plugins/Protobuf/CodedInputStream.cs:1247-1254 | skipping succeeds past the end of the data if and only if the source can seek and a length-delimited field is cut off within the limit |
| CodedOutputStream.CodedOutputStream.FromArray | godsg/Assets/Plugins/Protobuf/CodedOutputStream.cs:89-96 | nothing is written yet; the slice is the room |
| CodedOutputStream.CodedOutputStream.FromStream | godsg/Assets/Plugins/Protobuf/CodedOutputStream.cs:98-105 | what has been written is what the stream already holds |
| CodedOutputStream.CodedOutputStream.RefreshBuffer | godsg/Assets/Plugins/Protobuf/CodedOutputStream.cs:665-677 | a flush moves bytes from the buffer to the stream, so that what has been written is the same; over a flat array it is the out-of-space error |
| CodedOutputStream.CodedOutputStream.Flush | godsg/Assets/Plugins/Protobuf/CodedOutputStream.cs:718-724 | what has been written is the same, and over a stream all of it has arrived there |
| CodedOutputStream.CodedOutputStream.WriteRawByte | godsg/Assets/Plugins/Protobuf/CodedOutputStream.cs:572-580 | appends the byte, or reports that there is no space exactly if there is none |
| CodedOutputStream.CodedOutputStream.WriteRawVarint32 | godsg/Assets/Plugins/Protobuf/CodedOutputStream.cs:477-504 | appends the shortest varint of every uint32, in the fast path for small numbers, within the buffer, and across a flush; over a flat array that is too small, the prefix that fits |
| CodedOutputStream.CodedOutputStream.WriteRawVarint64 | godsg/Assets/Plugins/Protobuf/CodedOutputStream.cs:506-526 | the same for every uint64 |
| CodedOutputStream.CodedOutputStream.WriteInt32 | godsg/Assets/Plugins/Protobuf/CodedOutputStream.cs:222-233 | appends the varint of the number, negative numbers sign-extended to 64 bits |
| CodedOutputStream.CodedOutputStream.WriteRawLittleEndian32 | godsg/Assets/Plugins/Protobuf/CodedOutputStream.cs:528-544 | appends the four bytes, least significant first, wherever a flush falls |
| CodedOutputStream.CodedOutputStream.WriteRawLittleEndian64 | godsg/Assets/Plugins/Protobuf/CodedOutputStream.cs:546-570 | appends the eight bytes, least significant first, wherever a flush falls |
| CodedOutputStream.CodedOutputStream.WriteRawBytes | godsg/Assets/Plugins/Protobuf/CodedOutputStream.cs:598-632 | appends exactly the bytes of the slice on all paths: into the buffer, filling and flushing it, and past it for an oversized value |
| Loopback.RoundTrip | godsg/Assets/Plugins/Protobuf/CodedOutputStream.cs:222-233 | the encoding of every value of the nine kinds, whatever follows it, decodes to that value with exactly its bytes consumed |
| Loopback.WriteDatum | godsg/Assets/Plugins/Protobuf/CodedOutputStream.cs:204-380 | over a stream, each write appends exactly the encoding of its value |
| Loopback.ReadDatum | godsg/Assets/Plugins/Protobuf/CodedInputStream.cs:494-655 | each read refines the decoder of its kind on the flat sequence |
| Loopback.WriteThenRead | godsg/Assets/Plugins/Protobuf/CodedInputStream.cs:1008-1058 | every sequence of values written through any buffer size and flushed is read back value by value, for any chunking by the source and any buffer size of the reader |
| Loopback.WrittenIsSkipped | godsg/Assets/Plugins/Protobuf/CodedInputStream.cs:396-424 | what is written of a value of any of the nine kinds, behind a tag of its wire type, is skipped with exactly its own bytes |
| Loopback.ReadFromArray | godsg/Assets/Plugins/Protobuf/CodedInputStream.cs:131-142 | the same out of a slice of an array, whatever surrounds the slice |
| ComputeSize.Varint32SizeIsLength | godsg/Assets/Plugins/Protobuf/CodedOutputStream.ComputeSize.cs:231-250 | the cascade of masks gives the number of bytes that the varint loop writes, for every uint32 |
| ComputeSize.Varint64SizeIsLength | godsg/Assets/Plugins/Protobuf/CodedOutputStream.ComputeSize.cs:255-294 | the same for every uint64 |
| ComputeSize.Int32SizeIsLength | godsg/Assets/Plugins/Protobuf/CodedOutputStream.ComputeSize.cs:85-96 | the size of every int32 is the number of bytes that WriteInt32 writes |
| ComputeSize.SInt32Reach | godsg/Assets/Plugins/Protobuf/CodedOutputStream.ComputeSize.cs:205-208 | an sint32 takes at most k bytes if and only if -2^(7k-1) <= n < 2^(7k-1), for k up to four |
| ComputeSize.SInt64Reach | godsg/Assets/Plugins/Protobuf/CodedOutputStream.ComputeSize.cs:214-217 | the same for an sint64, for k up to nine |
| JsonLexer.Lexer.GetChar | godsg/Assets/Plugins/LitJson/Lexer.cs:855-862 | the next character, a pushed-back one first; the end of the input is reported once and for all |
| JsonLexer.Lexer.UngetChar | godsg/Assets/Plugins/LitJson/Lexer.cs:907-910 | the character comes next again; it is never zero, the value that means that nothing is pushed back |
| JsonLexer.Lexer.State1 | godsg/Assets/Plugins/LitJson/Lexer.cs:230-303 | between tokens: skips blanks, starts a literal, a string or a number, or yields a punctuation, as the transition function says |
| JsonLexer.Lexer.State3 | godsg/Assets/Plugins/LitJson/Lexer.cs:326-366 | the integral digits of a number; the character that ends it is pushed back unless it is a blank |
| JsonLexer.Lexer.State7 | godsg/Assets/Plugins/LitJson/Lexer.cs:455-475 | behind the e of an exponent: a digit or a sign, nothing else |
| JsonLexer.Lexer.State8 | godsg/Assets/Plugins/LitJson/Lexer.cs:477-507 | the digits of an exponent; the character that ends it is pushed back unless it is a blank |
| JsonLexer.Lexer.State22 | godsg/Assets/Plugins/LitJson/Lexer.cs:719-751 | the four digits of an escaped unit, whose value never leaves sixteen bits |
| JsonLexer.Lexer.Handler | godsg/Assets/Plugins/LitJson/Lexer.cs:133-198 | the handler that the table holds for the current state makes the move of the transition function, or fails where it fails; the state it leads to is one of the twenty-eight of the table again |
| JsonLexer.Lexer.NextToken | godsg/Assets/Plugins/LitJson/Lexer.cs:876-905 | one token, the end of the input or an exception, exactly as the reference automaton says of the characters that are left; the lexer stands right behind the token |
| JsonText.HexInverse | godsg/Assets/Plugins/LitJson/JsonWriter.cs:175-189 | the four hexadecimal digits of every 16-bit unit spell it again |
| JsonSpelling.HexEscapeRead | godsg/Assets/Plugins/LitJson/Lexer.cs:719-751 | inside a string, an escape of four hexadecimal digits, each in either case, appends exactly the number to the base of 16 that they spell by their offsets |
| JsonSpelling.ShortEscapeRead | godsg/Assets/Plugins/LitJson/Lexer.cs:691-717 | inside a string, a backslash and one character append the unit that the table of literal results gives, the slash included; any other character but u is rejected |
| JsonSpelling.BadHexDigit | godsg/Assets/Plugins/LitJson/Lexer.cs:719-751 | anything but a hexadecimal digit breaks off an escape of four |
| JsonSpelling.NumberRead | godsg/Assets/Plugins/LitJson/Lexer.cs:305-507 | minus, digits, fraction and exponent, given separately, in front of a delimiter are one number token with exactly that text |
| JsonSpelling.TokensSpelled | godsg/Assets/Plugins/LitJson/Lexer.cs:305-507 | every number token of any text is such a number, or one whose exponent ends with its sign |
| JsonSpelling.DecimalPlace | godsg/Assets/Plugins/LitJson/JsonWriter.cs:335-353 | digit by digit from the right, the decimal form of a number is the remainder of its quotient by a power of ten |
| JsonSpelling.WholeIsDecimal | godsg/Assets/Plugins/LitJson/JsonReader.cs:286-300 | digits without a leading zero are the decimal form of the number that they spell |
| JsonSpelling.NumberMeans | godsg/Assets/Plugins/LitJson/JsonReader.cs:262-305 | a number token is a double with its text if and only if it has a fraction or an exponent, else the Int, Long, ULong or zero by the range of what its digits spell; an exponent without digits makes it the Int zero |
| JsonSpelling.QuotedRead | godsg/Assets/Plugins/LitJson/Lexer.cs:652-791 | every spelling of a string, each unit by itself, in short or in hexadecimal form, in quotes of either kind, is read as its units |
| JsonLexemes.FillersRead | godsg/Assets/Plugins/LitJson/Lexer.cs:793-853 | blanks and comments of both forms, in any number, are skipped |
| JsonLexemes.WordExactly | godsg/Assets/Plugins/LitJson/Lexer.cs:509-650 | behind their first letters the literals are read letter by letter, and anything else is rejected |
| JsonLexemes.LexesExactly | godsg/Assets/Plugins/LitJson/Lexer.cs:876-905 | a token is lexed, with this remainder, if and only if the text begins with blanks and comments and then exactly the characters of that token: punctuation, literal, number in front of a delimiter, quote, or the spelled units of a string up to its quote |
| JsonLexemes.OnlyFillersLeft | godsg/Assets/Plugins/LitJson/Lexer.cs:876-905 | a text of nothing but blanks and comments is at its end |
| JsonLexemes.OnlyFirstDiffers | godsg/Assets/Plugins/LitJson/Lexer.cs:230-303 | without comments and single quotes the automaton rejects the characters that would begin them between tokens, and is otherwise the same |
| JsonDocument.TextRead | godsg/Assets/Plugins/LitJson/JsonReader.cs:141-246 | every text of RFC 4627, section 2, with any spelling of numbers and strings and any blanks, lexes to the sentence of the tree that it spells, and to nothing behind it |
| JsonText.IntegerComesBack | godsg/Assets/Plugins/LitJson/JsonReader.cs:262-305 | every int64 that was printed is read as an Int if it is in the range of one, else as a Long, with the same value |
| JsonGrammar.ParseText | godsg/Assets/Plugins/LitJson/JsonReader.cs:141-246 | the machine reports the pre-order events of every sentence of the grammar and stops right behind it |
| JsonGrammar.SplitText | godsg/Assets/Plugins/LitJson/JsonReader.cs:141-246 | whatever the machine accepts is the sentence of some parse tree and a remainder |
| JsonGrammar.AcceptsExactlyTexts | godsg/Assets/Plugins/LitJson/JsonReader.cs:141-246 | the pushdown machine over the table succeeds if and only if the tokens begin with an array or object of the grammar |
| JsonGrammar.Unambiguous | godsg/Assets/Plugins/LitJson/JsonReader.cs:141-246 | two parse trees that spell the same tokens are the same tree with the same remainder |
| JsonNesting.EveryRunNests | godsg/Assets/Plugins/LitJson/JsonReader.cs:400-470 | of any tokens, broken ones included, the events are well nested, and a run gets outside of the outermost array or object exactly if it reaches its end |
| JsonReader.JsonReader.constructor | godsg/Assets/Plugins/LitJson/JsonReader.cs:114-137 | a new reader has the whole text ahead, with the start symbol on the end marker |
| JsonReader.JsonReader.ReadToken | godsg/Assets/Plugins/LitJson/JsonReader.cs:366-382 | fetches the next token; throws, or reports the end, exactly if the lexer does |
| JsonReader.JsonReader.ProcessSymbol | godsg/Assets/Plugins/LitJson/JsonReader.cs:307-364 | makes the step of the register that gathers one event: kind, value, inside a string, and whether to return |
| JsonReader.JsonReader.Read | godsg/Assets/Plugins/LitJson/JsonReader.cs:400-470 | reports the first event of what the machine has ahead, or throws only if the run breaks there or right behind; nothing pops an empty stack; terminates by tokens left and stack rank |
| JsonReader.ReadToEnd | godsg/Assets/Plugins/LitJson/JsonReader.cs:400-470 | read to the end of a text, the first or a later one of the reader, it returns with events if and only if a sentence of the grammar comes first; they are the pre-order of its tree and the reader stands right behind it. Without any token it returns empty-handed, and of anything else there is an exception |
| JsonLayout.QuotedProperly | godsg/Assets/Plugins/LitJson/JsonWriter.cs:222-270 | of every string, all printed units lie between 32 and 126, the closing quote is behind an even number of backslashes, and every quote inside behind an odd one |
| JsonLayout.OneUnit | godsg/Assets/Plugins/LitJson/JsonWriter.cs:222-270 | the seven units with a short form are printed as exactly that, other printable ASCII as it is, and every other unit as backslash, u and the four upper-case digits that spell it |
| JsonLayout.UnitByUnit | godsg/Assets/Plugins/LitJson/JsonWriter.cs:222-270 | strings are printed unit by unit |
| JsonLayout.StringLexed | godsg/Assets/Plugins/LitJson/JsonWriter.cs:222-270 | for every string of 16-bit units, what is printed lexes to a quote, exactly that string, and a quote, whatever follows |
| JsonLayout.NumberLexed | godsg/Assets/Plugins/LitJson/JsonWriter.cs:335-353 | for every integer, its decimal form in front of a delimiter lexes to one number with exactly that text |
| JsonLayout.PageIsDocument | godsg/Assets/Plugins/LitJson/JsonWriter.cs:191-220 | every page, indented or compact, is a text of RFC 4627 and no more than that, which spells its tree and lexes to it |
| JsonLayout.PageExample | godsg/Assets/Plugins/LitJson/JsonWriter.cs:441-461 | an indented page, letter by letter: lines, commas, indentation, and keys whose colons are aligned with the longest key so far |
| JsonLayout.CompactExample | godsg/Assets/Plugins/LitJson/JsonWriter.cs:191-220 | the same in compact form |
| JsonWriter.JsonWriter.constructor | godsg/Assets/Plugins/LitJson/JsonWriter.cs:101-173 | a new writer is valid: it has written nothing, and is in no array and no object |
| JsonWriter.JsonWriter.DoValidation | godsg/Assets/Plugins/LitJson/JsonWriter.cs:114-159 | lets a call pass if and only if it fits into what is open, and counts it |
| JsonWriter.JsonWriter.IntToHex | godsg/Assets/Plugins/LitJson/JsonWriter.cs:175-189 | fills the four places with the hexadecimal digits of the unit, most significant first |
| JsonWriter.JsonWriter.PutString | godsg/Assets/Plugins/LitJson/JsonWriter.cs:222-270 | appends the indentation that is due and the quoted form of the string, which is printable ASCII with every inner quote escaped |
| JsonWriter.JsonWriter.WriteBoolean | godsg/Assets/Plugins/LitJson/JsonWriter.cs:300-308 | accepted exactly where a value may stand, else nothing is written; the open frames get the value, and the text is again exactly their page so far |
| JsonWriter.JsonWriter.WriteInteger | godsg/Assets/Plugins/LitJson/JsonWriter.cs:335-353 | the same for an int or a long, in decimal form |
| JsonWriter.JsonWriter.WriteString | godsg/Assets/Plugins/LitJson/JsonWriter.cs:355-366 | the same for a string, or null for none |
| JsonWriter.JsonWriter.WriteStart | godsg/Assets/Plugins/LitJson/JsonWriter.cs:396-439 | accepted exactly where an array or object may begin; one more frame is open, and the text is exactly the page so far, the next lines indented by one level more |
| JsonWriter.JsonWriter.WriteEnd | godsg/Assets/Plugins/LitJson/JsonWriter.cs:379-425 | accepted exactly if an array, or an object between members, is open; its frame closes into one value, on a line as deep as it began |
| JsonWriter.JsonWriter.WritePropertyName | godsg/Assets/Plugins/LitJson/JsonWriter.cs:441-461 | accepted exactly between the members of an object; the member waits for its value behind a colon, which is padded to the longest key so far |
| JsonWriter.Replay | godsg/Assets/Plugins/LitJson/JsonWriter.cs:114-159 | of every sequence of validated calls: there is an exception if and only if the calls do not build a partial text; when the end is reached, the text is the page of exactly one array or object, that of the calls, and lexes to it |
| JsonCalls.AcceptsExactlyDocuments | godsg/Assets/Plugins/LitJson/JsonWriter.cs:114-159 | a sequence of calls completes a document if and only if it is the pre-order of that array or object, in which every number is an integer |
| JsonWriter.ReplayBoth | godsg/Assets/Plugins/LitJson/JsonWriter.cs:191-220 | the same calls are accepted indented if and only if they are compact, and the two texts lex to the same tokens |
| JsonWriter.PrettyReadsTheSame | godsg/Assets/Plugins/LitJson/JsonWriter.cs:191-220 | any two writers that have completed the same document, however each of them indents, have texts that lex to the same tokens |
| JsonData.JsonData.SetItem | godsg/Assets/Plugins/LitJson/JsonData.cs:250-276 | setting a key replaces its entry in place or appends one; list and dictionary stay in step; anything but an object or a fresh node is refused unchanged |
| JsonData.JsonData.SetAt | godsg/Assets/Plugins/LitJson/JsonData.cs:278-304 | sets an element of an array, or the entry of an object at that place, in list and dictionary alike; refused exactly out of range or on another kind of node |
| JsonData.JsonData.AddEntry | godsg/Assets/Plugins/LitJson/JsonData.cs:466-477 | appends the entry, and refuses exactly a key that is there and a node that is neither object nor fresh, unchanged |
| JsonData.JsonData.Remove | godsg/Assets/Plugins/LitJson/JsonData.cs:496-508 | an absent key and another kind of node leave all unchanged; else exactly the entry of that key leaves list and dictionary, and the rest keeps its order |
| JsonData.JsonData.Clear | godsg/Assets/Plugins/LitJson/JsonData.cs:807-818 | empties an object, in list and dictionary, or an array, and leaves the kind; any other node is unchanged |
| JsonData.JsonData.Add | godsg/Assets/Plugins/LitJson/JsonData.cs:798-805 | appends to an array, turns a fresh node into one, refuses any other unchanged |
| JsonData.JsonData.SetJsonType | godsg/Assets/Plugins/LitJson/JsonData.cs:862-902 | changes the kind, each starting with its empty or default value; a node of that kind already is unchanged |
| JsonData.JsonData.EnsureDictionary | godsg/Assets/Plugins/LitJson/JsonData.cs:700-714 | turns a fresh node into an empty object, leaves an object, refuses any other unchanged |
| JsonData.JsonData.EnsureList | godsg/Assets/Plugins/LitJson/JsonData.cs:716-729 | turns a fresh node into an empty array, leaves an array, refuses any other unchanged |
| JsonData.JsonData.RemoveAt | godsg/Assets/Plugins/LitJson/JsonData.cs:677-683 | removes the entry at that place from list and dictionary, keeping the order of the rest; refused exactly out of range or on another kind of node |
| JsonData.JsonData.Insert | godsg/Assets/Plugins/LitJson/JsonData.cs:664-675 | after every insertion the key stands twice in the list, so that list and dictionary are never in step: the one mutator that breaks the invariant; an index out of range leaves the key set by the indexer |
| JsonData.WriteJson | godsg/Assets/Plugins/LitJson/JsonData.cs:742-794 | writes a tree of nodes wherever a value may stand; the open frames get exactly the tree |
| JsonData.ToJson | godsg/Assets/Plugins/LitJson/JsonData.cs:904-917 | the text of every array or object is the page of its tree, in the layout that was asked for, and lexes to exactly the tokens of that tree and then the end |
| JsonData.ReadValue | godsg/Assets/Plugins/LitJson/JsonMapper.cs:476-541 | reads the next value into a fresh tree that stands for it; an item that ends the array is null; an exception for numbers that cannot be unboxed; what is read off a broken text is still nested |
| JsonData.ToObject | godsg/Assets/Plugins/LitJson/JsonMapper.cs:856-860 | there is no exception if and only if the text begins with a sentence all of whose numbers can be unboxed; then what is read stands for the tree of that sentence; an empty text gives a node without a kind |
| JsonData.RoundTrip | godsg/Assets/Plugins/LitJson/JsonMapper.cs:476-541 | every tree over null, booleans, int, long and strings, printed indented or compact and read again, is the same tree with the same order of keys, except that a Long in the range of an Int comes back as an Int |
| JsonReading.ObjectGathers | godsg/Assets/Plugins/LitJson/JsonMapper.cs:523-537 | of the members of an object, in any number and with any keys: each key is there once, in the order of the first places, with the value that comes last |
| JsonReading.ArrayReadAs | godsg/Assets/Plugins/LitJson/JsonMapper.cs:512-522 | an array is read as its items in their order |
| JsonReading.StringReadAs | godsg/Assets/Plugins/LitJson/Lexer.cs:200-228 | a string is read unit by unit, each by its own spelling |
| JsonReading.LiteralsReadAs | godsg/Assets/Plugins/LitJson/JsonMapper.cs:479-510 | true, false and null, letter by letter, are reported and read as just these, and printed so again |
| JsonReading.NumberReadAs | godsg/Assets/Plugins/LitJson/JsonMapper.cs:492-505 | a number is read as a double with its text if it has a fraction or an exponent with digits, as zero if the exponent has none, else as an Int or Long by its value; exactly those beyond a long but not beyond a ulong are refused, and what is beyond that is zero |
| JsonReading.ReadDocument | godsg/Assets/Plugins/LitJson/JsonMapper.cs:856-860 | every text of RFC 4627, in whatever spelling, is read as the tree that it spells, or refused exactly for a number |
| FormationWire.RunsParsed | conf/protoc_tools/proto/Hero.java:1409-1450 | any mixture of packed and single elements of a repeated field, with any encoding of the varints, parses to the elements in wire order behind those that are there |
| FormationWire.OneExample | conf/protoc_tools/proto/Hero.java:2600-2622 | the bytes of a message with all five fields, one by one: the tags 8, 18, 24, 32 and 40 |
| FormationWire.FormationExample | conf/protoc_tools/proto/Hero.java:1574-1594 | the bytes of a message with a nested message and both packed lists, one by one |
| FormationWire.ParseWrite | conf/protoc_tools/proto/Hero.java:1574-1594 | parsing what a message writes gives the message and ends at the limit |
| FormationWire.ParseConcatenation | conf/protoc_tools/proto/Hero.java:1887-1937 | parsing what two messages write, end to end, gives the first merged with the second |
| FormationParser.ParseOneFormation | conf/protoc_tools/proto/Hero.java:2443-2517 | the loop refines the parse function: same message, same error, same closing tag, limit and depth as before |
| FormationParser.ReadOneFormation | conf/protoc_tools/proto/Hero.java:1400-1408 | a nested message: the limit is restored and the depth is as before, a message that does not end at its limit and one too deep are errors |
| FormationParser.ParseFormation | conf/protoc_tools/proto/Hero.java:1380-1470 | the loop refines the parse function, nested messages included |
| FormationParser.ReadPackedField | conf/protoc_tools/proto/Hero.java:2476-2488 | a packed run goes behind the elements that are there, and the limit is popped |
| FormationMessages.PBOneFormation.GetSerializedSize | conf/protoc_tools/proto/Hero.java:2624-2661 | the number of bytes that writeTo writes, computed or memoized; the memoized size of the packed payload is right as well |
| FormationMessages.PBOneFormation.WriteTo | conf/protoc_tools/proto/Hero.java:2600-2622 | appends exactly the wire form of the message, through any buffer, with the value unchanged |
| FormationMessages.PBFormation.GetSerializedSize | conf/protoc_tools/proto/Hero.java:1596-1635 | the same for a message with nested messages and two packed fields |
| FormationMessages.PBFormation.WriteTo | conf/protoc_tools/proto/Hero.java:1574-1594 | appends exactly the wire form, nested messages with their lengths included |
| FormationRoundTrip.RoundTripOne | conf/protoc_tools/proto/Hero.java:2600-2622 | written through a stream of any buffer size and parsed again, every message that fits gives its value |
| FormationRoundTrip.RoundTripFormation | conf/protoc_tools/proto/Hero.java:1574-1594 | the same for a message with nested messages |
| FormationRoundTrip.ParseBoth | conf/protoc_tools/proto/Hero.java:2912-2938 | the bytes of two PBOneFormations end to end parse to the first merged with the second |
| FormationRoundTrip.ParseBothFormations | conf/protoc_tools/proto/Hero.java:1887-1937 | the bytes of two PBFormations end to end parse to the first merged with the second |
| FormationRoundTrip.BuildBoth | conf/protoc_tools/proto/Hero.java:1887-1937 | a builder that merges two messages builds the message that parsing their bytes end to end gives |
| FormationBuilder.Builder.EnsureEquipIsMutable | conf/protoc_tools/proto/Hero.java:2990-2995 | the builder gets a list of its own with the same elements, unless it has one |
| FormationBuilder.Builder.AddEquip | conf/protoc_tools/proto/Hero.java:3028-3033 | appends to the value of the builder, writing to its own list only |
| FormationBuilder.Builder.SetEquip | conf/protoc_tools/proto/Hero.java:3018-3024 | replaces one element of the value of the builder, writing to its own list only; an index out of range is refused with the value unchanged |
| FormationBuilder.Builder.AddAllEquip | conf/protoc_tools/proto/Hero.java:3037-3044 | appends all elements, writing to its own list only |
| FormationBuilder.Builder.ClearEquip | conf/protoc_tools/proto/Hero.java:3048-3053 | the list of the value is empty, and the builder owns none |
| FormationBuilder.Builder.Clear | conf/protoc_tools/proto/Hero.java:2827-2840 | the value is that of a new builder, and the builder owns no list |
| FormationBuilder.Builder.BuildPartial | conf/protoc_tools/proto/Hero.java:2859-2875 | the message and the builder have the value of the builder, share the list, and the builder no longer owns it |
| FormationBuilder.Builder.MergeFrom | conf/protoc_tools/proto/Hero.java:2912-2938 | the value becomes the merge of both values, with the list of the other shared or copied, and never written to |
| FormationBuilder.Run | conf/protoc_tools/proto/Hero.java:2827-2938 | for every sequence of calls, every message given or built keeps its value, and the builder has the value that the calls give when messages are values |
| FormationBuilder.BuildInOrder | conf/protoc_tools/proto/Hero.java:2973-3053 | setting the four numbers and adding the elements one by one builds a message with exactly these numbers and elements, in their order |
| NestedBuilder.Builder.EnsureFormationIsMutable | conf/protoc_tools/proto/Hero.java:1964-1969 | the builder gets a list of nested messages of its own, unless it has one |
| NestedBuilder.Builder.EnsurePartnerIsMutable | conf/protoc_tools/proto/Hero.java:2203-2208 | the builder gets a partner list of its own, which is no other list of the builder |
| NestedBuilder.Builder.EnsureBattleFormationIsMutable | conf/protoc_tools/proto/Hero.java:2269-2274 | the same for the battle formation |
| NestedBuilder.Builder.SetFormation | conf/protoc_tools/proto/Hero.java:2007-2022 | replaces the message at the index in a list that the builder owns; an index out of range is refused with the lists as before |
| NestedBuilder.Builder.AddFormation | conf/protoc_tools/proto/Hero.java:2038-2050 | appends one message, in a list that the builder owns |
| NestedBuilder.Builder.InsertFormation | conf/protoc_tools/proto/Hero.java:2054-2067 | puts the message at the index and moves the rest by one place; an index out of range is refused with the lists as before |
| NestedBuilder.Builder.AddAllFormation | conf/protoc_tools/proto/Hero.java:2099-2110 | appends all messages in their order, in a list that the builder owns |
| NestedBuilder.Builder.RemoveFormation | conf/protoc_tools/proto/Hero.java:2127-2136 | takes the message at the index out and moves the rest by one place; an index out of range is refused with the lists as before |
| NestedBuilder.Builder.SetNumber | conf/protoc_tools/proto/Hero.java:2231-2239 | replaces one element of one list of numbers, in a list that the builder owns, with the other list as before; an index out of range is refused |
| NestedBuilder.Builder.AddNumbers | conf/protoc_tools/proto/Hero.java:2241-2257 | appends to one list of numbers, in a list that the builder owns, with the other list as before |
| NestedBuilder.Builder.ClearNumbers | conf/protoc_tools/proto/Hero.java:2261-2266 | the one list of numbers is empty, and the builder does not own it; the other is as before |
| NestedBuilder.Builder.ClearFormation | conf/protoc_tools/proto/Hero.java:2114-2123 | the list of messages is empty, and the builder does not own it; the numbers are as before |
| NestedBuilder.Builder.Clear | conf/protoc_tools/proto/Hero.java:1794-1807 | the builder holds nothing and owns no list |
| NestedBuilder.Builder.BuildPartial | conf/protoc_tools/proto/Hero.java:1826-1850 | message and builder hold what the builder held, and the builder owns none of the three lists any more |
| NestedBuilder.Builder.MergeFrom | conf/protoc_tools/proto/Hero.java:1887-1937 | the lists of the other are appended one by one, each shared if there was none, and none of them is written to |
| NestedBuilder.MergeMeans | conf/protoc_tools/proto/Hero.java:1887-1937 | appending the three lists is the merge of the wire format |
| NestedBuilder.Run | conf/protoc_tools/proto/Hero.java:1794-2332 | for every sequence of calls, every message given or built holds what it held when it was built, nested messages by identity, and so does the builder |
| NestedBuilder.SetInPlace | conf/protoc_tools/proto/Hero.java:2007-2022 | in the runs, a set changes the element at the index and no other |
| NestedBuilder.InsertedInPlace | conf/protoc_tools/proto/Hero.java:2054-2067 | in the runs, an insertion puts the element at the index, and every other element keeps its place or moves by one |
| NestedBuilder.RemovedInPlace | conf/protoc_tools/proto/Hero.java:2127-2136 | in the runs, a removal takes the element at the index, and every other element keeps its place or moves by one |
| NestedBuilder.BuildInOrder | conf/protoc_tools/proto/Hero.java:2038-2050 | adding messages and numbers one by one and building gives a message that holds exactly these, in the order in which they were added |

## Left out

- CodedInputStream.CodedInputStream.ReadRawBytes: over an empty array its contract covers only the requests that come to an end; the others are the subject of `StallsExactlyOverEmptyArray`.
- CodedInputStream.CodedInputStream.RefillBuffer: when the flat sequence is longer than the size limit, every reading method may report `SizeLimitExceeded`; at which byte it does depends on how far the source happened to be read ahead, and is not specified.
- CodedInputStream.CodedInputStream.FromArray: arguments out of range, for which the original throws, are excluded.
- CodedInputStream.CodedInputStream.SlowReadRawVarint32: the hand-unrolled nests of conditions are written as loops with one turn per level.
- CodedInputStream.CodedInputStream.SkipLastField: a call while a peeked tag is cached; the field to be skipped is the one whose tag has just been read.
- CodedOutputStream.CodedOutputStream.WriteRawBytes: the value is another array than the buffer of the stream; copies within one array, which smear overlapping ranges of up to twelve bytes, are not modelled.
- Loopback.WriteDatum: bool, enum and the signed fixed-width kinds, which are casts of the kinds that are there, and floats, doubles, strings and messages.
- Loopback.ReadDatum: the same kinds.
- JsonReader.JsonReader.Read: which exception is thrown, and its text, are not modelled.
- JsonWriter.JsonWriter.DoValidation: with validation switched off, only the calls that validation would let through are covered; that is all `JsonData` needs.
- JsonWriter.JsonWriter.WriteEnd: the stack of contexts holds values, not references to shared context objects.
- JsonData.JsonData.SetItem: the cached text of a node and its invalidation are left out; serialization is always fresh.
- JsonData.JsonData.SetJsonType: a string node that was never set holds the empty string instead of null.
- JsonData.ToJson: roots that are scalars.
- JsonData.WriteJson: doubles, whose printing is a library conversion, and nodes that were never given a kind.
- JsonData.ReadValue: the factory and the interface that it fills through are the class `JsonData` itself.
- FormationParser.ParseOneFormation: the bit that tells whether the list is writable yet, and the unfinished message that an exception carries.
- FormationBuilder.Builder.MergeFrom: the short cut for the default instance, which merges nothing either way.
- NestedBuilder.Builder.AddFormation: the overloads that take a builder, and the mode with a nested field builder; this builder belongs to the runtime library and is not part of the repository.
- NestedBuilder.Builder.Clear: the mode with a nested field builder.
- NestedBuilder.Builder.BuildPartial: the mode with a nested field builder.
- NestedBuilder.Builder.MergeFrom: the mode with a nested field builder (`RepeatedFieldBuilderV3` of the runtime library).
- NestedBuilder.Run: the mode with a nested field builder; indices out of range, for which the lists throw, are calls that change nothing.
- SpecBuilders.ExpectationBase.FindUnsatisfiedPrerequisites: the set of handles is a set of expectations, returned instead of filled in place.
- ComputeSize.Varint32SizeIsLength: masks and shifts are written as arithmetic on unbounded integers.
- JsonDocument.TextRead: comments and single-quoted strings, which `LexesExactly` covers token by token.
- UTF-8 strings, floats and doubles, tags and messages by reflection, and disposing of the coded streams.
- The `ReadMessage` and `WriteMessage` callbacks of the C# streams; nesting of messages is covered by the Java code.
- The reflective `JsonMapper.ReadValue(Type, ...)`, `WriteValue`, exporters and importers.
- Explanations, logging, locking and the registry of Google Mock.
- The other generated messages, the beans, the enumerations and the game client, whose members would be easy ones.
