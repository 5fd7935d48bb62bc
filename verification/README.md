# Verified model of protoc-go's rewrites, walks and caches

protoc-go compiles `.proto` files the way protoc does. This project models the parts of
it that rewrite bytes, walk cyclic graphs or run in parallel, and proves what they are
for. `dafny verify dfyconfig.toml` checks everything.

Bytes are integers below 256, tokens are a sequence with a cursor. The wire library the
compiler imports is modelled in `Wire` from the wire format itself, with its limits (tags,
ten-byte varints, 64 bits) and the round trips of every consuming and appending function.
An algorithm that updates state is a method or a class, proved equal to a function
("specification" below); the promises are lemmas about that function. Every lemma turns
automatic induction off, so the proof is the one written.

## What is proved

**Option canonicalizer** (`Wire`, `WireEntries`, `Option*`, `Canon*`, `NormalForm`,
`ScalarMeaning`, `GroupTags`). Each option statement appends one fragment of bytes. `OptionValue.Msg`
is the value bytes carry; `OptionDecode.Decode` reads it using the schema and is written
against the wire grammar alone. Canonicalizing equals serializing the decoded value in
field-number order. From that follow: the meaning is kept, two inputs have one canonical
form exactly when they mean the same, a second pass changes nothing, the fixed points are
exactly the recursively sorted inputs, and the fragments of any list of statements become
the bytes of the value built statement by statement. This holds for clean input, with
every message in one of the two message encodings and group tags of one length. Beyond
it, what goes wrong is characterized exactly: the value is kept if and only if in no run
of a singular message a field without a body follows one with a body; a group faults if
and only if its start tag is longer than all that follows it, and otherwise comes out
whole if and only if its end tag is no longer and the cut meets a field boundary.

**Source-retention stripper** (`SourceRetention*`, `StripTheorems`, `Retention*`,
`DescriptorStrip`, `StripResult`). Stripping is said of the tree of fields the bytes
encode: exactly the source-retention fields go. It is also said field by field over the
two tables alone, and something can be stripped from a message if and only if a
source-retention field is reachable from it. The pruning loop computes the least fixpoint on any cyclic
type graph in any map order, and pruning changes neither what is reported nor what is
returned. Of a whole file the strip keeps every list and every known option, and takes
exactly the source-retention features, unknown fields and range declarations. The no-copy
path is the full strip: a file none of the three checks fires for
is left unchanged by it, locations included, though checks and strip visit different
nodes. The location of a stripped option goes with it, exactly when the option is not a
method's: the options of a method are field 4, and the strip records 3, which is the
output type, so the wrong location goes (`StripLocations`, `StripPaths`).

**Imports and the parallel cache** (`Import*`, `ParseCache*`). The depth-first walk is
given as a big-step specification, as a class, and as a small-step machine that takes
cache results one at a time. The cache is a transition system: goroutines, semaphore,
mutexed map, done channels, inline budget. After any schedule the consumer is where the
sequential compiler is after as many steps, and at most 16 KiB have been parsed inline;
every schedule is bounded and reaches every file there is to prefetch; a schedule that
cannot go on has ended with the sequential result. Without an error the list is a
duplicate-free dependency order of everything reachable and there is no cycle; there is
an error exactly when a reachable file fails to load or lies on a cycle.

**Names and visibility** (`VisibleTypes`, `NameResolution`). The table of visible types is
the declared types of the file, its imports and what they reach publicly, no more and no
less, on cyclic graphs. Resolution commits to the innermost enclosing scope holding the
name or its first component, and reports a shadow exactly when that scope has only the
first component.

**Message literals** (`MessageLiteral`, `Literal*`, `Aggregate*`). Every spelling of a
literal (either bracket, separators, optional colons, split strings, lists) reads back as
what it stands for with the cursor on its closer. Since the parser compares only the text
of a token, a string holding just `{`, `<`, `[`, `-` or `+` is read as punctuation (in a
list, `]` instead of `[`); the exact condition is a lemma. What the encoder accepts is a
well-formed field that decodes to the literal's value. The canonicalizer returns it
unchanged if and only if no singular message in the literal is set twice, which the
encoder's own check by name lets through for a group, since a group has two names.

**Raw wire data** (`RawProto*`). Validator and printer agree on one grammar: acceptance
means being a concatenation of accepted fields, accepted bytes print without an error, and
the braces balance. That grammar is the wire format and, beyond it, exactly the fields
holding a varint too large for 64 bits, in groups of any depth; each wire type prints as
what it encodes. The lenient varint reader returns the seven-bit groups modulo 2^64.

**Plugin output** (`PluginOutput`, `PluginTheorems`, `ZipArchive`, `ZipTheorems`). Replay is
grouping followed by applying. Insertions at one point leave the text alone and stand in
order above the marker's line, each line indented. The archive reads back from its end
record as the list that was written if and only if all lengths, the count and the sizes
fit their header fields.

**Smaller algorithms** (`FieldNumbers`, `LocationArena`, `EditionDefaults`). Suggested numbers
are the smallest free ones; free intervals show exactly the unused numbers, and are
disjoint if and only if no inverted range makes the sweep step back. Arena slices never overlap, and later writes, including those
to the reusable path buffer, never reach a stored location. Every edition resolves a
feature as the table entry that governs it does.

## Model

| member | source | states |
|---|---|---|
| OptionCanonicalizer.SplitEntries | compiler/cli/optioncanon.go:109-135 | the first loop cuts the input into exactly the fields of the wire grammar, or reports malformed input or a faulting slice |
| OptionCanonicalizer.CanonicalizeUnknown | compiler/cli/optioncanon.go:99-187 | the whole rewrite, including returning malformed input unchanged, is the specification Canon |
| OptionCanonicalizer.EmitEntries | compiler/cli/optioncanon.go:139-186 | the second loop writes the sorted entries, merging runs of one singular submessage |
| OptionCanonicalizer.MergeRun | compiler/cli/optioncanon.go:178-184 | the inner loop joins the bodies of exactly the run of one number |
| EntrySort.SortIsStable | compiler/cli/optioncanon.go:137 | sorted by number, a permutation, and entries of one number keep their order |
| EntrySort.StableSortIsUnique | compiler/cli/optioncanon.go:137 | any sort with those properties gives the same result |
| OptionCanon.MergedShrinks | compiler/cli/optioncanon.go:178-184 | merged bodies are strictly shorter than their entries, so the recursion ends |
| MessageSetItems.EmittedItem | compiler/cli/optioncanon.go:156-162 | a field of a MessageSet comes out as a group 1 holding its number in field 2 and its body in field 3, and nothing else |
| MessageSetItems.EmittedField | compiler/cli/optioncanon.go:164-172 | any other field comes out as one field of its number around its body, a group for a group field |
| OptionDecode.DecodeConcat | compiler/cli/optioncanon.go:90-98 | appending a fragment merges its value into the value so far |
| OptionDecode.SortDecodes | compiler/cli/optioncanon.go:137 | sorting entries changes neither their value nor their well-formedness |
| CanonicalForm.CanonSerializes | compiler/cli/optioncanon.go:90-98 | canonicalizing clean bytes is serializing, in number order, the value they decode to |
| CanonicalRoundTrip.SerializeDecodes | compiler/cli/optioncanon.go:90-98 | a serialized value is well-formed and decodes to itself |
| NormalForm.CanonPreservesMeaning | compiler/cli/optioncanon.go:90-98 | the output is clean and decodes to the same value |
| NormalForm.CanonIsNormalForm | compiler/cli/optioncanon.go:90-98 | two inputs have the same output exactly when they decode alike |
| NormalForm.CanonIdempotent | compiler/cli/optioncanon.go:99-187 | a second pass changes nothing |
| CanonicalShape.CanonFixedPoints | compiler/cli/optioncanon.go:99-187 | the input is returned unchanged exactly when it is in order, merged and shortest at every level |
| CanonicalShape.CanonIsCanonical | compiler/cli/optioncanon.go:99-187 | the output has that shape at every level |
| ScalarMeaning.SameMeaningSameBytes | compiler/cli/optioncanon.go:90-98 | with shortest scalar encodings, equal bytes out means equal numbers and contents in |
| CanonGrowth.CanonGrows | compiler/cli/optioncanon.go:99-187 | the output is at most ten times as long as the input, whatever the input |
| CanonLoss.CanonKeepsExactly | compiler/cli/optioncanon.go:139-186 | for well-formed input with aligned groups: the output carries the same value exactly when no field without a body follows one with a body in a singular message's run, at any level |
| CanonLoss.CleanLosesNothing | compiler/cli/optioncanon.go:90-98 | clean input is the special case where nothing is lost |
| CanonLimits.VarintFragmentLost | compiler/cli/optioncanon.go:178-184 | bytes for which such a field disappears |
| GroupTags.FaultsExactly | compiler/cli/optioncanon.go:128-131 | well-formed input faults exactly when the start tag of some group is longer than its body and end tag together |
| GroupTags.AlignedExactly | compiler/cli/optioncanon.go:128-131 | the body taken is the group's body exactly when both tags have one length |
| GroupTags.TakenSplits | compiler/cli/optioncanon.go:128-131 | what is taken is whole fields exactly when the end tag is no longer than the start tag and the shortened body ends at a field boundary |
| GroupTags.GroupWhole | compiler/cli/optioncanon.go:164-169 | a written group is one well-formed field exactly when what is inside is whole fields |
| GroupTags.GroupWholeExactly | compiler/cli/optioncanon.go:99-187 | a group comes out of the canonicalizer as one well-formed field exactly under that condition on its tags |
| CanonLimits.LongEndTagBreaksGroup | compiler/cli/optioncanon.go:128-131 | bytes with a longer end tag that come out malformed |
| CanonLimits.ShortEndTagFaults | compiler/cli/optioncanon.go:128-131 | bytes with a shorter end tag that fault |
| OptionStatements.CompileStatement | compiler/cli/cli.go:6402-6480 | a statement compiles exactly when its path and value resolve, to the leaf wrapped once per path element |
| OptionStatements.CheckSubPath | compiler/cli/cli.go:6409-6437 | the walk over the path finds the leaf field, or fails at the first unknown segment |
| OptionStatements.WrapSubPath | compiler/cli/cli.go:6459-6476 | wrapping from the inside out, looking each field up again, nests the path in its order |
| OptionStatements.ParentType | compiler/cli/cli.go:6461-6474 | the repeated lookup from the extension finds the field the forward walk found |
| OptionBuild.PlaceIsMerge | compiler/cli/cli.go:6478-6480 | setting a value in place equals merging the value of that statement alone |
| OptionBuild.WrapDecodes | compiler/cli/cli.go:6938-6950 | a wrapped leaf is clean and decodes to the path holding the leaf's value |
| OptionBuild.CanonicalFragments | compiler/cli/optioncanon.go:90-98 | fragments concatenated and canonicalized are the value built once and serialized |
| OptionBuild.CompiledOptionsCanonical | compiler/cli/optioncanon.go:90-98 | the same from statements as written, whatever their number, paths and order |
| StripTheorems.StripRemovesExactly | compiler/cli/cli.go:5300-5341 | exactly the source-retention fields at any depth are removed; the rest keeps its order with right enclosing lengths; changed and the dropped numbers are reported exactly |
| StripTheorems.StripIdempotent | compiler/cli/cli.go:5300-5341 | stripping the output finds nothing |
| StripTheorems.ChangedBytesDiffer | compiler/cli/cli.go:5300-5341 | a reported change is a change |
| RetentionExact.MarkedGoes | compiler/cli/cli.go:5315-5319 | a field marked source-retention is dropped and its number reported |
| RetentionExact.OtherStays | compiler/cli/cli.go:5320-5324 | a field that is neither marked nor a length-delimited message is kept |
| RetentionExact.MessageOpened | compiler/cli/cli.go:5320-5338 | a message field is rewritten around what stripping its content as its type gives, or kept when that changes nothing |
| RetentionExact.StripJoins | compiler/cli/cli.go:5308-5340 | stripping fields in a row is stripping each |
| RetentionExact.DirtyExactly | compiler/cli/cli.go:5427-5461 | some bytes of a message change exactly when a source-retention field is reachable from it |
| SourceRetentionFields.Fields.StripEncodedFields | compiler/cli/cli.go:5300-5341 | the loop over fields is that rewrite |
| SourceRetentionFields.Fields.StripOneField | compiler/cli/cli.go:5313-5338 | one field is dropped, kept, or rewritten around its stripped content |
| SourceRetentionFields.Fields.Record | compiler/cli/cli.go:5413-5426 | a field is noted under its owner and nothing else changes |
| SourceRetentionFields.Fields.FindDirty | compiler/cli/cli.go:5431-5449 | the fixpoint loop finds exactly the messages a source-retention field is reachable from, in any map order |
| SourceRetentionFields.Fields.SpreadOnce | compiler/cli/cli.go:5437-5449 | one pass adds only dirty messages, and an unchanged set is closed |
| SourceRetentionFields.Fields.PruneClean | compiler/cli/cli.go:5431-5461 | what is deleted is exactly the fields of clean types, and emptied owners |
| RetentionPrune.DirtyIsLeast | compiler/cli/cli.go:5427-5449 | dirty is contained in every closed set |
| RetentionPrune.CleanUnchanged | compiler/cli/cli.go:5427-5461 | nothing is stripped below a clean message |
| RetentionPrune.PruneKeepsStrip | compiler/cli/cli.go:5427-5461 | stripping with the pruned graph reports and returns the same |
| RetentionPrune.ShortcutSound | compiler/cli/cli.go:5300-5307 | the early return skips only rewrites without effect |
| DescriptorStrip.StripFileIsWalk | compiler/cli/cli.go:5489-5498 | the three strip walks together are one walk doing all three things at each node |
| StripResult.StripLeaves | compiler/cli/cli.go:5478-5511 | at every node: known options stay, features lose the source-retention ones, unknown fields are what sifting leaves, range options lose verification and declarations only, and options vanish exactly when nothing is left |
| StripResult.StripKeepsLists | compiler/cli/cli.go:5839-5935 | no list of the descriptor gets longer or shorter |
| DescriptorStrip.ChangesAreChecked | compiler/cli/cli.go:5753-5968 | every node the strip changes trips one of the three checks |
| DescriptorStrip.NoCopySound | compiler/cli/cli.go:5478-5511 | returning the file uncopied is the same as stripping it |
| StripLocations.NoCopyLocations | compiler/cli/cli.go:5478-5511 | the filter would have kept every location of a file returned uncopied, exactly when none points to a verification |
| StripLocations.FilterLocations | compiler/cli/cli.go:5500-5509 | exactly the locations of the collected paths and of verifications go; the others keep their order |
| StripLocations.IsVerificationPath | compiler/cli/cli.go:5730-5749 | the loop finds exactly the paths into an extension range's verification, at any nesting |
| StripLocations.OptionLocationGoes | compiler/cli/cli.go:5839-5968 | the location of a dropped option goes with it exactly when the option is not a method's |
| StripLocations.EmptiedLocationGoes | compiler/cli/cli.go:5839-5968 | so does that of emptied options; for a method the location of its output type goes instead |
| StripLocations.OutputTypeLocationLost | compiler/cli/cli.go:5866-5870 | a service with one method for which this happens |
| StripPaths.NodesStand | compiler/cli/cli.go:5595-5660 | following the path of an options message down the descriptor leads to it |
| StripPaths.FeatureLocationGoes | compiler/cli/cli.go:5556-5570 | the location of a source-retention feature goes with it, wherever it was set |
| DescriptorStrip.CopyNeeded | compiler/cli/cli.go:5829-5835 | a source-retention option or feature anywhere makes the copy differ |
| DescriptorStrip.CopyJustified | compiler/cli/cli.go:5478-5488 | a copy is made only when an extension range has options or the strip changes the file |
| Importer.Import.constructor | compiler/cli/compile.go:227-244 | descriptor-set files are listed once each in the order of their first descriptors, which are the ones taken |
| Importer.Import.ParseRecursive | compiler/cli/cli.go:1027-1169 | one visit of the depth-first walk: state, errors and result |
| Importer.Import.ParseDependencies | compiler/cli/cli.go:1112-1123 | all imports are visited, whatever became of the others, and the failed ones collected |
| Importer.Import.FinishFile | compiler/cli/cli.go:1125-1169 | a file is listed only when no import failed, and otherwise the failures are reported |
| Importer.Import.ParseAll | compiler/cli/compile.go:246-261 | the driver visits every requested file in order |
| Importer.OnStack | compiler/cli/cli.go:1029-1045 | a file is on the stack exactly when a cycle is reported |
| Importer.BuildChain | compiler/cli/cli.go:1029-1045 | the reported chain starts where the stack first has the file |
| ImportGraph.AllDependenciesExactly | compiler/cli/cli.go:1173-1182 | the files visited are the plain imports in order, then the option imports in order |
| ImportTheorems.NoErrorMeansOrdered | compiler/cli/cli.go:1027-1169 | without an error: duplicate-free, every reachable file, every file after its imports, no cycle |
| ImportCompleteness.ReportedCyclesReal | compiler/cli/cli.go:1029-1045 | every chain reported as a cycle is one |
| ImportCompleteness.ErrorFreeExactlyWhenGood | compiler/cli/cli.go:1027-1169 | no error exactly when every reachable file loads and none is on a cycle |
| ImportReports.FailureReported | compiler/cli/cli.go:1072-1099 | a file that cannot be opened is reported once, one that does not parse with all its messages in order |
| ImportReports.FailedImportsReported | compiler/cli/cli.go:1125-1160 | each failed import other than the file itself is reported, and then every name left undefined, given the imports that did not fail and the finished files |
| ImportMachine.MachineRunsWalk | compiler/cli/cli.go:1027-1169 | the machine that asks for one file at a time computes the walk |
| ParseCacheSafety.ScheduleKeeps | compiler/cli/cli.go:927-1025 | the invariant of entries, owners, semaphore and budget holds after every schedule |
| ParseCacheTheorems.ConsumerSeesSequential | compiler/cli/cli.go:927-1025 | after any schedule the consumer is where the sequential compiler is, at most cap goroutines work, and the inline budget is kept |
| ParseCacheBudget.AdmitExactly | compiler/cli/cli.go:980-988 | a file is parsed inline exactly when it cannot be opened or is small and fits what is left of the budget, and else handed to a goroutine |
| ParseCacheBudget.InlineWithinBudget | compiler/cli/cli.go:964-988 | under every schedule the files parsed inline have at most 16384 bytes together |
| ParseCachePrefetch.EverythingPrefetched | compiler/cli/cli.go:968-1007 | when the goroutines can do no more, every file reachable from the requested ones has a finished entry with the right result |
| ParseCacheTheorems.OneOwnerPerEntry | compiler/cli/cli.go:970-1007 | an unfinished entry belongs to exactly one goroutine, which has not closed it |
| ParseCacheTheorems.ReadBeforeClosed | compiler/cli/cli.go:993-1003 | a goroutine that reads a file's imports has not closed its entry, and queues exactly those imports |
| ParseCacheTheorems.DoneIsFrozen | compiler/cli/cli.go:993-1007 | nobody writes an entry after its channel is closed |
| ParseCacheTheorems.NoDeadlock | compiler/cli/cli.go:964-1025 | until the walk is done some step is enabled; for a waiting consumer it is one of the awaited file's owner, or of a holder of the semaphore that owner waits for |
| ParseCacheTheorems.WorkDecreases | compiler/cli/cli.go:970-1007 | every goroutine step uses up work |
| ParseCacheTheorems.ScheduleBounded | compiler/cli/cli.go:927-1025 | no schedule is longer than the work left |
| ParseCacheTheorems.EveryScheduleEndsSequential | compiler/cli/cli.go:927-1025 | every maximal schedule is finite and ends with the sequential result |
| VisibleTypes.FileTypesListed | compiler/parser/parser.go:6915-6962 | the table of one file holds exactly its messages and enums at any depth |
| VisibleTypes.TypeTable.CollectTypes | compiler/parser/parser.go:6953-6962 | messages, their enums and nested messages are added under their full names, and nothing else changes |
| VisibleTypes.TypeTable.CollectPublic | compiler/parser/parser.go:6929-6951 | everything newly visited is reached publicly and finished, and new types come from reached files |
| VisibleTypes.CollectVisible | compiler/parser/parser.go:6792-6817 | the table has exactly the types of the file, its imports and files they reach publicly |
| NameResolution.ScopesEnclose | compiler/parser/parser.go:7095-7128 | the scopes tried are exactly the enclosing ones |
| NameResolution.ScopesShrink | compiler/parser/parser.go:7095-7128 | inner scopes are tried first |
| NameResolution.FirstPartExactly | compiler/parser/parser.go:7089-7093 | the first component is the whole name, or what stands before its first dot |
| NameResolution.ResolveTypeName | compiler/parser/parser.go:7078-7137 | commits to the innermost scope with the name or its first component; shadow exactly when only the latter |
| LiteralParser.Parser.ConsumeAggregate | compiler/parser/parser.go:5218-5412 | the field loop of both copies, for either closer, is the specification on every token sequence |
| LiteralParser.Parser.ConsumeName | compiler/parser/parser.go:5223-5247 | a plain name, or a bracketed one of any number of parts |
| LiteralParser.Parser.ConsumeList | compiler/parser/parser.go:5291-5369 | one field per element, and a mark for a trailing comma |
| LiteralParser.Parser.ConsumeScalar | compiler/parser/parser.go:5370-5402 | a sign, a value and adjacent strings become one field |
| LiteralRoundTrip.EntriesRead | compiler/parser/parser.go:5218-5607 | any spelling reads as what it stands for and the cursor stops on its closer |
| LiteralTheorems.LiteralReadsBack | compiler/parser/parser.go:5218-5607 | the same for a literal anywhere in a file |
| LiteralTheorems.BracketsMakeNoDifference | compiler/parser/parser.go:5262-5290 | braces and angle brackets in any mixture give one tree |
| LiteralTheorems.ListReadsAsRepetition | compiler/parser/parser.go:5291-5369 | a list is the field repeated; a trailing comma adds its mark only |
| LiteralTheorems.StringReadsAsItself | compiler/parser/parser.go:5262-5402 | a string value of any number of pieces is read as their text exactly when the first is not one of five punctuation marks |
| LiteralTheorems.ElementReadsAsItself | compiler/parser/parser.go:5291-5369 | the same for a list element, where the closing bracket takes the place of the opening one |
| AggregateEncoder.EncodeAggregate | compiler/cli/cli.go:8981-9069 | the field loop, the sort and the wrapping are the specification, errors included |
| AggregateEncoder.EncodeOne | compiler/cli/cli.go:9088-9161 | one field: expansion, lookup, duplicate, trailing comma, nested message, sign, scalar, in that order |
| AggregateEncoder.PieceAccepted | compiler/cli/cli.go:9122-9159 | a field is accepted exactly when it is known, not set before when singular, without a trailing comma, and its message or unsigned or negative scalar is encoded |
| AggregateEncoder.ScalarEncoded | compiler/cli/cli.go:9148-9159 | a scalar is what the scalar encoder makes of its text, with a minus sign in front when negative |
| MessageSetItems.EncodedItem | compiler/cli/cli.go:6957-6970 | a MessageSet extension in a literal becomes one item with its number and its encoded body |
| MessageSetItems.UrlExpands | compiler/cli/cli.go:9089-9117 | in a nested Any a type URL becomes field 1 with the URL and field 2 with the message after its last slash |
| MessageSetItems.UrlElsewhere | compiler/cli/cli.go:9089-9126 | anywhere else it is looked up as an extension |
| AggregateTheorems.AcceptedExactlyWhen | compiler/cli/cli.go:9082-9161 | fields are accepted exactly when each is on its own and no two singular ones share a name |
| AggregateTheorems.SortPiecesValue | compiler/cli/cli.go:9163-9169 | sorting the encoded fields keeps the value they add up to |
| AggregateTheorems.SortedPiecesCanonical | compiler/cli/cli.go:9163-9169 | sorted fields in a row are canonical exactly when each is and singular messages occur once |
| AggregateTheorems.AcceptedLiteralEncoded | compiler/cli/cli.go:8981-9182 | whatever literal is accepted, the bytes are clean and decode to its value; they are that value's serialization, and a fixed point of the canonicalizer, exactly when no singular message is set twice at any depth |
| AggregateTheorems.GroupTwice | compiler/cli/cli.go:8914-8926 | a group given under both of its names is accepted and the canonicalizer changes the result |
| RawProto.ConsumeVarintTruncated | compiler/cli/cli.go:9403-9417 | the sum of the seven-bit groups modulo 2^64 of at most ten bytes, or -1 |
| RawProtoDecoder.ValidateRawProto | compiler/cli/cli.go:9488-9547 | returns whether the data is accepted |
| RawProtoDecoder.ValidateRawField | compiler/cli/cli.go:9550-9604 | returns the length of the first field, or -1 |
| RawProtoDecoder.DecodeRawProto | compiler/cli/cli.go:9419-9486 | accepted data prints without an error as its tree |
| RawProtoDecoder.DecodeRawField | compiler/cli/cli.go:9606-9673 | an accepted field prints without an error, consuming the validated length |
| RawProtoTheorems.AcceptedExactlyFields | compiler/cli/cli.go:9488-9604 | accepted means a concatenation of accepted fields |
| RawProtoTheorems.AcceptedConcat | compiler/cli/cli.go:9488-9547 | after accepted data, acceptance is that of the rest |
| RawProtoTheorems.TruncatedExtendsVarint | compiler/cli/cli.go:9403-9417 | on wire-format varints it is the ordinary reader |
| RawProtoTheorems.BeyondVarint | compiler/cli/cli.go:9403-9417 | beyond them it accepts exactly a tenth byte that does not fit |
| RawProtoTheorems.RawExtendsWire | compiler/cli/cli.go:9488-9604 | every field of the wire format, groups included, is a raw field of that length |
| RawProtoTheorems.BeyondWire | compiler/cli/cli.go:9488-9604 | the other raw fields are exactly those with an oversized varint in them |
| RawProtoPrint.TreeJoin | compiler/cli/cli.go:9419-9486 | data prints field by field |
| RawProtoPrint.NumberPrints | compiler/cli/cli.go:9428-9434 | wire type 0 prints as its number |
| RawProtoPrint.FixedPrints | compiler/cli/cli.go:9435-9448 | wire types 1 and 5 print as their eight and four bytes |
| RawProtoPrint.DelimitedPrints | compiler/cli/cli.go:9449-9462 | wire type 2 prints as a block when its content is non-empty data, and else as text |
| RawProtoPrint.GroupPrints | compiler/cli/cli.go:9463-9480 | a group prints as a block of what is inside |
| RawProtoTheorems.RenderBalanced | compiler/cli/cli.go:9419-9486 | every block opened is closed at its own indent |
| PluginOutput.OutputDir.Flush | compiler/plugin/plugin.go:184-219 | a write, an insertion, or one of three failures; the order stays the key set without duplicates |
| PluginOutput.InsertAt | compiler/plugin/plugin.go:224-250 | the data, terminated and indented, goes in before the marker's line |
| PluginOutput.CollectPluginOutput | compiler/plugin/plugin.go:253-271 | replay is applying the groups; only a nameless first entry is an error |
| PluginTheorems.OrderIsKeySet | compiler/plugin/plugin.go:184-219 | whatever entries do, the order lists every file once |
| PluginTheorems.SuccessWritesOnce | compiler/plugin/plugin.go:184-219 | without a failure every file is written exactly once, before insertions into it, and there is no other file |
| PluginTheorems.CutsMakeNoDifference | compiler/plugin/plugin.go:168-175 | content cut into nameless entries means the same |
| PluginTheorems.IndentComesOff | compiler/plugin/plugin.go:239-246 | taking the indent off every inserted line gives the data back |
| PluginTheorems.InsertionsStackAboveMarker | compiler/plugin/plugin.go:220-250 | any number of insertions leave the text intact with the blocks in order above the marker's line, indented by the spaces and tabs that line starts with |
| ZipArchive.WriteArchive | compiler/plugin/plugin.go:336-384 | the bytes are the local entries, the directory with their offsets, and the end record; a jar gets a manifest |
| ZipArchive.ListedIsComplete | compiler/plugin/plugin.go:337-345 | the name list is in order and complete; a jar has a manifest, its own if it has one, and all other files as they were |
| ZipArchive.BeforeExactly | compiler/plugin/plugin.go:343 | names are ordered by the first byte they differ in, prefixes first |
| ZipTheorems.SharedAt | compiler/plugin/plugin.go:385-396 | every shared header field stands at its offset, truncated to its width, with version 10 and date 33 |
| ZipTheorems.CentralAt | compiler/plugin/plugin.go:360-366 | so does every field of a central header |
| ZipTheorems.EndAt | compiler/plugin/plugin.go:370-378 | and of the end record |
| ZipTheorems.ArchiveReadsBack | compiler/plugin/plugin.go:336-396 | a reader from the end record recovers exactly the names and contents if and only if every length, the count and both sizes fit |
| FieldNumbers.UsedRanges | compiler/cli/cli.go:2424-2464 | the collected ranges cover exactly the taken numbers |
| FieldNumbers.SuggestFieldNumbers | compiler/cli/cli.go:2416-2490 | exactly the smallest free numbers, as many as wanted or available, increasing |
| FieldNumbers.FreeIntervals | compiler/cli/cli.go:6159-6177 | the sweep computes the gaps of the sorted ranges |
| FieldNumbers.FreeIntervalsExact | compiler/cli/cli.go:6128-6179 | a number is shown exactly when unused, for every message |
| FieldNumbers.FreeIntervalsApart | compiler/cli/cli.go:6128-6179 | the intervals are disjoint and increasing exactly when no inverted range makes the sweep step back |
| FieldNumbers.InvertedRangeOverlaps | compiler/cli/cli.go:6162-6174 | a message with one inverted reserved range, shown with overlapping intervals |
| LocationArena.Arena.Get | compiler/parser/parser.go:6660-6683 | the slice overlaps none handed out before |
| LocationArena.Arena.CopyOf | compiler/parser/parser.go:6685-6689 | the copy is right and every earlier slice keeps its content |
| LocationArena.LocationTable.SpanPath | compiler/parser/parser.go:6574-6583 | the buffer holds the path and no stored location changes |
| LocationArena.LocationTable.AddLocationSpan | compiler/parser/parser.go:6585-6598 | the location is added with a copied path and its span; the others keep theirs |
| LocationArena.LocationTable.MultiSpan | compiler/parser/parser.go:6734-6743 | three numbers on one line, four otherwise, and nothing else is written |
| LocationArena.BlockSize | compiler/parser/parser.go:6661-6669 | a block is big enough, and over the cap only when the request is |
| EditionDefaults.FeatureEditions | compiler/cli/editiondefaults.go:108-126 | exactly the mentioned editions up to the maximum, increasing |
| EditionDefaults.LatestDefault | compiler/cli/editiondefaults.go:150-162 | the loop computes the first of the newest defaults at or before the edition |
| EditionDefaults.LatestIsLatest | compiler/cli/editiondefaults.go:150-162 | that is what it computes, on every list of defaults |
| EditionDefaults.EntryGoverns | compiler/cli/editiondefaults.go:108-126 | an edition resolves every feature as the greatest listed edition at or below it |
| EditionDefaults.NothingBeforeFirstEntry | compiler/cli/editiondefaults.go:108-126 | before the first entry nothing has a default |
| EditionDefaults.FeatureSetsFor | compiler/cli/editiondefaults.go:128-147 | the two outputs are the encodings of the overridable and the fixed features; it fails exactly when one cannot be encoded |
| EditionDefaults.ChosenPartition | compiler/cli/editiondefaults.go:128-177 | every feature with a default is in exactly one of the two: fixed exactly when introduced after the edition or removed at it or before |

## Left out

- Float formatting, number parsing and enum lookup of single values: a scalar encoder is a parameter that yields one well-formed field or nothing.
- MessageSet items (`messageSetItem` and the item group of the canonicalizer) are modelled as written; decoding them and idempotence on them are not stated. A theorem that leaves them out asks of the decoded value that no message in it is one (`Plain`).
- Type URLs inside an Any literal are modelled as written; `AcceptedLiteralEncoded` leaves them out (`NoUrls`) because both fields of the expansion are sorted as field 1.
- Oneof semantics of canonicalization.
- The wire library's recursion limit of 10000 nested groups.
- Inputs of 2^60 bytes and more (2^56 for the canonicalizer), so that a length always fits a varint.
- Walking the descriptor tree to canonicalize every options message (`canonicalizeFDOptions`, `collectOptionFields`) and the nine `resolveCustom...Options` passes, of which one generic statement compiler is modelled.
- `lookupOptionSegment`, opening and parsing files, CRC-32, type-error messages and UTF-8 conversion are parameters.
- The descriptor tree in `DescriptorStrip` is a value, not a message updated in place.
- DescriptorStrip.StripFileIsWalk: is about the descriptors; the paths the three walks collect are stated in `StripLocations`, per node and without their order, which the filter does not depend on.
- DescriptorStrip.NoCopySound: is about the descriptors; `StripLocations.NoCopyLocations` is its counterpart for the source locations.
- DescriptorStrip.CopyNeeded: is stated for option bytes within the size limit only.
- Importer.Import.ParseRecursive: leaves out the mode without an error collector, which no caller uses, and the line and column text of errors.
- Importer.Import.ParseDependencies: leaves out the early return of that mode.
- Importer.Import.FinishFile: leaves out that mode and the positions in messages.
- Or-ing varint bits in the raw validators and printers is addition on disjoint bits.
- Both literal parsers are one method with the closer as parameter; token positions (`trackEnd`) are not modelled.
- `locArena` is the arena with blocks of locations and requests of one.
- PluginTheorems.InsertionsStackAboveMarker: needs a newline-free point and data without the marker; a plugin that inserts the marker itself moves the point.
- Negative positions in a file's public-dependency list, which fault.
- Reading plugin processes, directories, `..` warnings and file-system writes; formatting the free intervals; nested messages of the free-number listing.
- The text of a printed raw value: hexadecimal digits and escapes.
- The content of an error other than its kind and the names in it.
