# Verified models of the repository's exact tools

A Dafny model of the Python scripts that read, rewrite and check things exactly: the GGUF container
tools, the Windows portability scan, two printer and parser pairs, the exact statistics and stateful
hooks of the reference comparison, and the generated tables and process walks. Loops of the scripts
are methods proved against specification functions; what the scripts promise is proved about those
functions for all inputs.

| files | script |
|---|---|
| `Bytes`, `Align`, `Gguf`, `GgufReader`, `Layout`, `Names`, `WireFormat` | the container format shared by the four tools |
| `Fixture` | `scripts/gguf_fixture.py` |
| `DepthSlice`, `DepthSliceProofs`, `DepthSliceEntries` | `scripts/gguf-depth-slice.py` |
| `BlockOrder`, `BlockOrderFile`, `BlockOrderSizes` | `scripts/gguf-blockorder.py` |
| `Split`, `SplitEntries` | `scripts/gguf-split.py` |
| `Lexer`, `LexerTokens`, `Portability`, `PortabilityProofs`, `PortabilityElif`, `PortabilityCalls`, `PortabilityColumns` | `scripts/check-portability.py` |
| `Ptx`, `PtxProofs` | `scripts/embed-ptx.py`, `scripts/cuda-act-probe.py`, `scripts/check-ptx-source.py` |
| `DiffReader`, `DiffProofs`, `DiffText` | `scripts/check-content-hygiene.py` |
| `CastAtUse`, `CastAtUseProofs`, `CastInUse`, `Binomial`, `Wilcoxon` | `scripts/gold-logits.py` |
| `Calibration`, `Reliability` | `scripts/cl-calibration.py` |
| `RangeTables` | `scripts/gen-unicode-classes.py`, `scripts/gen-unicode-nfc.py` |
| `ProcessTree` | `scripts/idle_coexistence.py` |
| `Wrappers`, `PyText`, `Sorting`, `Sums` | shared: outcomes, Python text, `sorted`, sums |

`dafny verify dfyconfig.toml` checks the project.

## Where a promise does not hold as written

For each there is a theorem that says exactly when the code keeps the promise, and one with an input
on which it does not.

- `strip_comments` promises to keep the line count; a backslash right before a line break inside a
  literal loses a line (`Lexer.LexKeepsBreaks`; `Lexer.SplicedStringLosesItsBreak`).
- The scan looks for the escape on the raw line with the number of the stripped one, and reports that
  number; below such a literal both are those of an earlier line (`PortabilityCalls.LinesCorrespond`,
  `PortabilityCalls.EveryLiveCallIsReported`; `PortabilityCalls.SplicedLiteralHidesCall`).
- The portability scan takes `#if defined_WIN32` and the like for tests of a macro, and is then
  unsound (`PortabilityProofs.SpelledExactlyWhenSound`, `PortabilityElif.ElifExactlyWhenSound`;
  `PortabilityProofs.GluedNameIsMisread`).
- The diff reader takes an added line that begins with `++ ` for the name of a file, and drops white
  space at the end of a name (`DiffProofs.ReadsExactlyWhenPlain`; `DiffText.PlusPlusIsMissed`,
  `DiffText.SpacedNameIsMisread`).
- It cuts lines at a form feed and the like: of an added line it yields only the text in front, and a
  removed or kept line numbers what is added below it too high (`DiffText.TextReadsExactly`,
  `DiffText.BreaksInAddedLines`; `DiffText.AddedFormFeedIsMisread`,
  `DiffText.RemovedFormFeedIsMisread`).
- The `splitlines` reader of an embedded header refuses a source with another line break or a NUL
  (`PtxProofs.LiteralsCarryCleanSource`; `PtxProofs.FormFeedIsRefused`).
- A unit that runs inside itself keeps its tensors wide for good, and so does a block the module list
  holds twice (`CastAtUseProofs.RestoredExactlyWhenHarmless`, `CastAtUseProofs.HookedTwice`;
  `CastAtUseProofs.ReentryKeepsWide` for every narrow unit).
- What a block's child reads is narrow when the child runs outside its block
  (`CastInUse.ModelIsTransparent`, `CastInUse.WideInsideBlocks`; `CastInUse.ChildAloneIsNarrow`).
- Two depth cuts rewrite the metadata as the joint cut does unless an array that is not per-layer has
  the intermediate layer count as its length (`DepthSliceProofs.MetadataComposes`;
  `DepthSliceProofs.CutsDisagree`).
- A sparse shard is read at the default alignment, so its data is found only when that gives the same
  start (`Split.ShardHoldsItsGroup`; `Split.SparseShardIsMisread`).
- The two tails of the sign test sum to one exactly when there is a trial; for none both are one
  (`Binomial.TailsComplement`, which says both).
- The certificate's description starts with the lowest confidence whose slice meets the target; the
  code, as the description goes on to say, stops at the first slice that misses it
  (`Calibration.LowestExactlyWhen`; `Calibration.LowestIsMissed`).

## Model

| member | source | states |
|---|---|---|
| Align.RoundUpIs | scripts/gguf-depth-slice.py:147 | the rounded position is the next multiple of the alignment at or after the given one |
| Align.LeastMultiple | scripts/gguf-blockorder.py:105 | no smaller multiple of the alignment would do, and no other lies within one alignment of the position |
| Align.MaskUpRounds | scripts/gguf-split.py:102 | adding `a - 1` and masking its low bits rounds up, for every power of two `a` |
| Gguf.ParseOfPrint | scripts/gguf_fixture.py:100-142 | every well-typed header is read back from its own bytes, whatever follows, and both ends (metadata, directory) are found; for the reader of each of the four scripts |
| Gguf.PrintOfParse | scripts/gguf-depth-slice.py:80-147 | a header that parses printed again is the front of the file: no byte of the metadata or the directory is lost |
| Gguf.ForgivingAgrees | scripts/gguf-blockorder.py:58-111 | the reader that does not check for short reads gives what the checking one gives on every file where no read is short |
| GgufReader.Reader.Take | scripts/gguf-depth-slice.py:41-46 | the cursor moves by what was read, or the read is refused |
| GgufReader.Reader.Value | scripts/gguf-depth-slice.py:53-70 | the cursor reader of a value refines the parser on byte positions, nested arrays and refused ones included |
| GgufReader.Reader.Entries | scripts/gguf_fixture.py:132-136 | the metadata loop refines the parser |
| GgufReader.Reader.Infos | scripts/gguf_fixture.py:137-141 | the directory loop refines the parser |
| GgufReader.ReadHeader | scripts/gguf_fixture.py:100-142 | the imperative reader returns what the parser specifies, in each script's mode |
| WireFormat.FieldsAreLittleEndian | scripts/gguf_fixture.py:110-114 | counts and lengths are four and eight bytes, least significant first, written and read |
| WireFormat.HeaderWire | scripts/gguf_fixture.py:86-87 | a header starts with the bytes of GGUF, the version, the number of tensors and the number of entries |
| WireFormat.TensorWire | scripts/gguf_fixture.py:81-84 | a directory entry is the name's length and bytes, the number of dimensions, each dimension, the type and the offset, in this order |
| WireFormat.EntryWire | scripts/gguf_fixture.py:39-62 | the type codes and the bytes each encoder writes, spelled out: 4, 5, 6, 7, 8 for single values and 9 with the element's code for arrays, negative integers in two's complement |
| WireFormat.ScalarReads | scripts/gguf_fixture.py:96-126 | a scalar of each of the eleven types is read from its own bytes: width, sign, truth value or float, for every reader |
| WireFormat.UnknownTypes | scripts/gguf-depth-slice.py:69-70 | any other type code is refused |
| WireFormat.CutStrings | scripts/gguf-blockorder.py:58-62 | a string the file cuts off is taken as it is by two of the readers and refused by the other two |
| WireFormat.CutScalars | scripts/gguf-blockorder.py:65-76 | a scalar the file cuts off is skipped by one reader and refused by three |
| WireFormat.EmptyArrays | scripts/gguf-depth-slice.py:60-68 | arrays of arrays are followed by two readers and refused by two; an empty array of an unknown type is refused by the split tool alone |
| Layout.OffsetsFindPadded | scripts/gguf_fixture.py:78-93 | the offsets counted in the directory loop lead to the padded payloads appended in the data loop, at any starting position |
| Layout.PayloadsStandAtOffsets | scripts/gguf_fixture.py:74-93 | each payload sits exactly at the aligned directory end plus its recorded, aligned offset |
| Layout.WrittenFileReads | scripts/gguf_fixture.py:74-93 | a written file reads back to its header, and every directory entry finds its payload |
| Layout.WriteDirectory | scripts/gguf-depth-slice.py:172-182 | the directory loop with its running offset prints exactly the laid-out entries, and refuses the first that does not fit its fields |
| Layout.WritePayloads | scripts/gguf-depth-slice.py:184-190 | the data loop writes the payloads padded to the alignment |
| Fixture.EncodeIsEncKv | scripts/gguf_fixture.py:39-62 | each encoder prints one metadata entry of the format |
| Fixture.DecodeIsGiven | scripts/gguf_fixture.py:96-130 | each encoded value decodes to the value it was given, with its type: booleans normalised, signed integers restored |
| Fixture.WriteGguf | scripts/gguf_fixture.py:74-93 | the writer produces the file of its tensors and entries, or `struct.error` exactly when a field does not fit |
| Fixture.ReadHeaderTyped | scripts/gguf_fixture.py:100-142 | the reader returns the parsed dictionary, directory and end; the last of two equal keys wins |
| Fixture.WriteThenRead | scripts/gguf_fixture.py:39-142 | reading what was written gives the same keys, types, values, names, dims and types, and each payload at the 32-aligned directory end plus its offset |
| Fixture.GetU32Reads | scripts/gguf_fixture.py:152-170 | of a file's entries the last with the key is read: unsigned as it is, signed when not negative, a float when it is a whole number from 0 to 2^32 - 1 without a sign, and only then; anything else, or no entry, gives the default |
| Fixture.GetU32InRange | scripts/gguf_fixture.py:152-170 | whatever file is read, the result is the default or a u32 |
| Names.IntOfDec | scripts/gguf-depth-slice.py:163-168 | `int(str(n))` is `n` |
| Names.IntReads | scripts/gguf-depth-slice.py:162 | `int()` of a text between white space, signed or not: the number its digits write, single underscores between two of them skipped, and nothing for any other text |
| Names.DecReads | scripts/gguf-depth-slice.py:165 | `str(n)` writes the digits of n, without a zero in front |
| Names.BlkNameInjective | scripts/gguf-depth-slice.py:163-168 | two block names are equal exactly when their layer and their rest are |
| DepthSlice.RemapBijection | scripts/gguf-depth-slice.py:115-118 | remap is the strictly increasing bijection from kept layers to 0..len(keep)-1 |
| DepthSlice.KeepComposes | scripts/gguf-depth-slice.py:115-118 | keeping twice keeps what the joint cut keeps, seen through the first renumbering |
| DepthSlice.RemapComposes | scripts/gguf-depth-slice.py:115-118 | the two renumberings composed are the joint one |
| DepthSlice.RenameComposes | scripts/gguf-depth-slice.py:160-168 | renaming or dropping a tensor twice is doing it once with the joint cut, and the second cut never refuses a name the first wrote |
| DepthSlice.RenameInjective | scripts/gguf-depth-slice.py:160-168 | two survivors get one name exactly when they had one layer number and one rest, or were the same name; `blk.01.` and `blk.1.` meet |
| DepthSlice.SizeIsGap | scripts/gguf-depth-slice.py:150-158 | a tensor's size is the gap to the next offset in offset order, the end of the file for the last |
| DepthSlice.LayoutOfPadded | scripts/gguf-depth-slice.py:170-190 | payloads that carry their padding are laid out as the payloads themselves |
| DepthSlice.PlaceAscends | scripts/gguf-depth-slice.py:170-182 | recomputed offsets ascend by exactly the padded sizes and end where the data ends |
| DepthSlice.RewriteMetadata | scripts/gguf-depth-slice.py:120-136 | the metadata loop rewrites the layer count, filters the per-layer arrays, and stops at the first that cannot be packed |
| DepthSlice.GapSizes | scripts/gguf-depth-slice.py:150-158 | the loop over the sorted directory computes the gap sizes by name |
| DepthSlice.KeepTensors | scripts/gguf-depth-slice.py:160-170 | the loop over the directory keeps and renames the survivors in order |
| DepthSlice.SliceFile | scripts/gguf-depth-slice.py:73-192 | the script as a whole, its refusals included, refines the specification of a cut |
| DepthSliceProofs.MetadataComposes | scripts/gguf-depth-slice.py:120-136 | two cuts rewrite the metadata as the joint one does exactly when no array that is not per-layer has the intermediate count as its length, or the second cut drops nothing |
| DepthSliceProofs.NewKvComposes | scripts/gguf-depth-slice.py:120-136 | the same, entry by entry |
| DepthSliceProofs.HeaderAfterCut | scripts/gguf-depth-slice.py:99-118 | a cut file declares the same alignment and architecture, and the number of kept layers |
| DepthSliceProofs.CutReadsBack | scripts/gguf-depth-slice.py:80-192 | a cut file reads back to the new metadata, the recomputed directory and the padded blobs |
| DepthSliceProofs.SlicingComposes | scripts/gguf-depth-slice.py:73-192 | cutting D1, then D2 in the new numbering, of a file in which no two survivors spell one layer and one rest: one cut of both succeeds and gives the same directory and data; the files are equal exactly when the metadata is unambiguous |
| DepthSliceProofs.SecondCutSucceeds | scripts/gguf-depth-slice.py:73-192 | the second cut succeeds exactly when the joint cut does and every layer it names is there |
| DepthSliceProofs.NewNamesDistinct | scripts/gguf-depth-slice.py:160-168 | the names written are distinct exactly when no two survivors spell one layer and one rest |
| DepthSliceProofs.CutsDisagree | scripts/gguf-depth-slice.py:120-136 | a file of four layers and an array of three elements: cutting layer 3 and then layer 0 writes another file than cutting both |
| DepthSliceProofs.SurvivorsKeepTheirBytes | scripts/gguf-depth-slice.py:150-190 | each survivor's bytes, its gap included, stand at its recomputed offset in the cut file, in the old order and under its new name |
| DepthSliceProofs.FilteredArrays | scripts/gguf-depth-slice.py:127-136 | an array under `<arch>.` of any element type but strings, with one element per layer: `new[remap[i]] == old[i]` for every kept layer, key and types kept; every other entry but the layer count stays as it was |
| DepthSliceEntries.EntryCut | scripts/gguf-depth-slice.py:120-136 | entry by entry of the five number encoders and the others: the given values through the kept layers when the key starts with `<arch>.` and there are as many as layers, and otherwise the entry itself |
| DepthSliceEntries.CountCut | scripts/gguf-depth-slice.py:123-126 | the layer count becomes the number of kept layers in its own integer type, and is refused exactly when that type cannot hold it |
| DepthSliceEntries.CutOfWritten | scripts/gguf-depth-slice.py:73-192 | the cut of a written file read back: the caller's dictionary with the filtered arrays and the new count, and the surviving tensors in order, each with its new name, dimensions, type and whole payload at its offset |
| DepthSliceEntries.CutSucceeds | scripts/gguf-depth-slice.py:99-182 | a written file can be cut exactly when the plan allows it, every layer name is a number of a layer that is there or goes, and every layer count can hold the new one |
| DepthSliceEntries.DataStart | scripts/gguf-depth-slice.py:91-92 | the data section starts at the first multiple, behind the directory, of the alignment the last entry declares, or of 32 |
| DepthSliceEntries.AlignmentRead | scripts/gguf-depth-slice.py:91-92 | the alignment is the last entry's positive integer, and 32 without one |
| DepthSliceEntries.CountRead | scripts/gguf-depth-slice.py:102-107 | the layer count is the last entry's positive integer; zero, a string and no entry are refused |
| DepthSliceEntries.NextNRead | scripts/gguf-depth-slice.py:108-111 | predictor blocks are declared exactly by a value that is not zero: an integer, a float of neither sign of zero, a true, any array, no string |
| DepthSliceEntries.PlanRead | scripts/gguf-depth-slice.py:99-118 | a cut of a file with an architecture and a layer count is refused for predictor blocks, for a layer that is not there, or for fewer than two left, and for nothing else |
| DepthSliceEntries.RenameReads | scripts/gguf-depth-slice.py:160-168 | `blk.<digits>.<rest>` is dropped with its layer, refused when the layer is not there, and otherwise numbered by its layer's place among the kept ones |
| DepthSliceEntries.RenameOthers | scripts/gguf-depth-slice.py:166-167 | any name that does not start with `blk.` stays |
| DepthSliceProofs.PieceEndsAtNextOffset | scripts/gguf-depth-slice.py:150-158 | whatever the sort does, a tensor's piece ends at the next offset above it, with no offset strictly inside |
| BlockOrder.CanonicalIsStable | scripts/gguf-blockorder.py:119-134 | within every block and group the input order is kept |
| BlockOrder.CanonicalIsRanked | scripts/gguf-blockorder.py:119-134 | token embedding, blocks ascending, the rest, output norm, output |
| BlockOrder.CanonicalReads | scripts/gguf-blockorder.py:119-134 | of any two names in order, by the literal names: none stands before `token_embd.weight`, only `output.weight` behind `output_norm.weight`, nothing behind `output.weight`, and block numbers ascend in front of the rest |
| BlockOrder.BlkOfNumbered | scripts/gguf-blockorder.py:114-116 | a name `blk.<digits>.<rest>` is in the block the digits write |
| BlockOrder.BlkOfOnlyNumbered | scripts/gguf-blockorder.py:114-116 | and no other name is in a block |
| BlockOrder.RankedIsUnique | scripts/gguf-blockorder.py:119-134 | rank order and stability leave one possible result |
| BlockOrder.CanonicalIsPermutation | scripts/gguf-blockorder.py:119-134 | on distinct names the canonical order is a permutation |
| BlockOrder.CanonicalIsIdempotent | scripts/gguf-blockorder.py:119-134 | ordering an ordered list changes nothing |
| BlockOrder.OrderFromIsPermutation | scripts/gguf-blockorder.py:174-181 | as many names with none missing is a permutation, by counting |
| BlockOrder.Group | scripts/gguf-blockorder.py:120-127 | the loop collects each block's names in order and the others |
| BlockOrder.CanonicalOrder | scripts/gguf-blockorder.py:119-134 | the dictionary-based script computes the canonical order |
| BlockOrderFile.PrefixToBlocks | scripts/gguf-blockorder.py:149-157 | the loop finds the end of the upload prefix |
| BlockOrderFile.PrefixCovers | scripts/gguf-blockorder.py:149-157 | every tensor the first blocks need lies inside the prefix |
| BlockOrderFile.PrefixBound | scripts/gguf-blockorder.py:149-157 | and the prefix is no longer than the farthest of them |
| BlockOrderFile.NeededReads | scripts/gguf-blockorder.py:149-157 | `blk.<digits>.<rest>` is uploaded for a split through block K exactly when its number is at most K, the token embedding always |
| BlockOrderFile.NoOtherIsNeeded | scripts/gguf-blockorder.py:149-157 | and no other tensor is |
| BlockOrderSizes.SizeHoldsAll | scripts/gguf-blockorder.py:40-55 | a tensor's size is given exactly when its type is one of the thirty listed and its rows are whole blocks of 1, 32 or 256, and it is that of all its elements, all dimensions multiplied: 4 bytes each for F32, 34 bytes for 32 of q8_0, and so on for every type |
| BlockOrderSizes.SizeRefused | scripts/gguf-blockorder.py:49-55 | which of the three refusals a tensor without a size gives |
| BlockOrderSizes.AlignmentReads | scripts/gguf-blockorder.py:87-94 | the alignment is the last u32 entry's, and 32 without one, whatever entries of other types say |
| BlockOrderSizes.WrittenIsComplete | scripts/gguf-blockorder.py:193-232 | a file of `write_gguf` with distinct names and whole payloads is a complete input for every order of its names |
| BlockOrderSizes.WrittenIsRewritten | scripts/gguf-blockorder.py:193-232 | of such a file the rewrite succeeds in every order of the names, keeps alignment and data start, and leaves every payload whole at its new offset |
| BlockOrderFile.PackingBound | scripts/gguf-blockorder.py:149-157 | disjoint aligned intervals below a bound have padded lengths that sum to at most the bound rounded up |
| BlockOrderFile.CanonicalIsOptimal | scripts/gguf-blockorder.py:119-157 | for every K, the canonical layout's prefix rounded up is at most that of any aligned, disjoint layout of the same tensors, and its unrounded prefix is less than one alignment longer |
| BlockOrderFile.ReadBlockHeader | scripts/gguf-blockorder.py:79-111 | the reader gives the metadata bytes, alignment, data start and the size of every tensor, or the refusal |
| BlockOrderFile.CopyTensor | scripts/gguf-blockorder.py:217-232 | the chunked copy succeeds exactly when the file is long enough, and copies the tensor's bytes |
| BlockOrderFile.WriteBody | scripts/gguf-blockorder.py:213-232 | the copy loop with its running end writes padding and payloads in the new order; the misplacement exit is never taken |
| BlockOrderFile.RewriteFile | scripts/gguf-blockorder.py:193-232 | the rewrite as a whole refines its specification |
| BlockOrderFile.RewriteSucceeds | scripts/gguf-blockorder.py:193-232 | on a complete input and a permutation none of the internal exits is taken |
| BlockOrderFile.DirectoryKeepsSize | scripts/gguf-blockorder.py:204-212 | the permuted directory has the size of the old one |
| BlockOrderFile.TargetIsPermutation | scripts/gguf-blockorder.py:171-186 | the target order is a permutation, with and without `--order-from` |
| BlockOrderFile.RewriteKeepsEverything | scripts/gguf-blockorder.py:193-232 | re-reading the output gives the same metadata bytes, alignment and data start, the permuted directory at the recomputed offsets, and every tensor's bytes equal |
| BlockOrderFile.RewriteVerifies | scripts/gguf-blockorder.py:239-253 | the re-read of the output finds the same names and, for any digest function, the same digests |
| BlockOrderFile.RewriteUploadsLeast | scripts/gguf-blockorder.py:119-157 | for every K, the prefix read back from the rewritten file is, rounded up, at most that of any packed file of the same tensors and data start, the input included |
| Split.GroupsFlatten | scripts/gguf-split.py:110-111 | the groups concatenate to the input in order |
| Split.GroupsFit | scripts/gguf-split.py:110-111 | at most k groups are made |
| Split.PerShardIsLeast | scripts/gguf-split.py:110 | no smaller size of the shards keeps to the requested number |
| Split.GroupHolds | scripts/gguf-split.py:111 | group i starts at element i * per, and every group but the last is full |
| Split.WriteShard | scripts/gguf-split.py:114-136 | one turn of the loop writes the shard of its group, or `struct.error` when a count does not fit |
| Split.SplitGguf | scripts/gguf-split.py:71-138 | the script as a whole refines its specification |
| Split.ShardHoldsItsGroup | scripts/gguf-split.py:99-136 | each shard has the source's version, its number, the count and the total, and its directory finds its blobs after the aligned header; a reader looks there exactly when the shard carries its metadata or the default alignment gives the same start |
| Split.SparseShardIsMisread | scripts/gguf-split.py:99-136 | two tensors aligned to 64, in two sparse shards: the second shard's data stands at 192, and its own metadata sends a reader to 160 |
| Split.SplitConserves | scripts/gguf-split.py:110-136 | no tensor is lost, duplicated or reordered, no shard is empty, and at most k are written |
| SplitEntries.ShardOfWritten | scripts/gguf-split.py:71-138 | a shard of a written file read back: the caller's dictionary, or nothing in a later sparse shard, with `split.no`, `split.count` and `split.tensors.count`; and from tensor s * per on the next per tensors with their dimensions, types and whole payloads |
| SplitEntries.SplitOfWritten | scripts/gguf-split.py:108-111 | a written file is refused for more shards than tensors and for none, and split otherwise |
| Split.BlobsCoverData | scripts/gguf-split.py:103-108 | with ascending offsets the blobs are the data section, byte for byte |
| Lexer.LexKeepsBreaks | scripts/check-portability.py:76-100 | line breaks stay where they are exactly when no backslash stands right before one inside a literal; the length always stays |
| Lexer.SplicedStringLosesItsBreak | scripts/check-portability.py:93-94 | a backslash-newline in a string loses a line, against the promise that the line count is kept |
| Lexer.LexTwice | scripts/check-portability.py:76-100 | stripping twice is stripping once |
| LexerTokens.EverySourceIsTokens | scripts/check-portability.py:76-100 | every source is a sequence of code characters, line comments, block comments and literals, the last one perhaps without its end |
| LexerTokens.StripsTokens | scripts/check-portability.py:76-100 | stripping leaves code characters and quotes, the line breaks of block comments, and spaces for everything else of a comment or a literal |
| PortabilityColumns.BlockCommentGoes | scripts/check-portability.py:86-90 | behind code, a block comment leaves a space or a kept line break for each of its characters, and what follows it is stripped as if it stood alone |
| PortabilityColumns.LineCommentGoes | scripts/check-portability.py:82-85 | behind code, a line comment leaves a space for each of its characters up to the end of its line |
| PortabilityColumns.LiteralGoes | scripts/check-portability.py:91-96 | behind code, a literal leaves its quotes and a space for each character between them, escaped quotes included |
| PortabilityColumns.CallReads | scripts/check-portability.py:56 | a call is found exactly where one of the eighteen names stands, not joined to a word or a member access in front, with white space and a bracket behind |
| PortabilityColumns.HitStandsInCode | scripts/check-portability.py:103-146 | a call found in the stripped source stands in the source's code: no character of its name, nor its bracket, is in a comment or inside a literal |
| Lexer.StripComments | scripts/check-portability.py:76-100 | the script's jumps compute what a lexer reading one character at a time computes |
| Lexer.BlankLiteral | scripts/check-portability.py:91-96 | the loop over a literal blanks exactly the literal, up to its quote, a line break, or the end |
| Portability.ScanSource | scripts/check-portability.py:103-146 | the loop over lines with its frame stack reports the specified calls |
| PortabilityProofs.ScanOfLines | scripts/check-portability.py:111-141 | reading a well-nested group leaves the frame stack as it was |
| PortabilityProofs.KindIsTrue | scripts/check-portability.py:60-70 | a condition called Windows-only holds on Windows, and one called non-Windows does not |
| PortabilityColumns.KindReads | scripts/check-portability.py:57-70 | `defined(NAME)` is Windows-only for the five Windows macros, never Windows for the six other platforms' and undecided for any other name; negated, and under `#ifndef`, a Windows macro is never Windows and the rest undecided |
| PortabilityColumns.DirectiveReads | scripts/check-portability.py:116-118 | a line of a hash, white space and a word is one of the seven directives by its word, with the text behind it, and any other word is none |
| PortabilityColumns.PlainReads | scripts/check-portability.py:116 | a line without a hash in front is none |
| PortabilityColumns.ElseReads | scripts/check-portability.py:132-134 | an `#else` is for Windows alone behind a branch that is never for Windows, never for Windows behind one that is, and undecided otherwise |
| PortabilityProofs.ScanIsSound | scripts/check-portability.py:111-141 | a line skipped as never compiled on Windows is one the reference preprocessor drops, for every nest and environment; exact when every condition is a Windows test or a positive test of another platform |
| PortabilityProofs.SpelledExactlyWhenSound | scripts/check-portability.py:60-70 | a two-way conditional is scanned soundly when its condition is spelled as the language wants it, and, of the conditions with balanced brackets, exactly when it is not a glued name such as `defined_WIN32` |
| PortabilityProofs.UnspelledIsGlued | scripts/check-portability.py:60-70 | with balanced brackets, the glued names are the only conditions the scan takes for a test and the language does not |
| PortabilityProofs.TwoWayDisagrees | scripts/check-portability.py:60-70 | for every glued name, a Windows build and a line of it that is skipped and compiled |
| PortabilityProofs.GluedNameIsMisread | scripts/check-portability.py:64-69 | `#if defined_WIN32` with `fork();` in its `#else` branch: a Windows build that compiles the call, which the scan skips |
| PortabilityElif.ElifExactlyWhenSound | scripts/check-portability.py:113-137 | of the conditions with balanced brackets, a conditional with an `#elif` is scanned soundly exactly when its opener is not a glued name, and its `#elif` is not one either unless the opener holds on every Windows build |
| PortabilityCalls.LinesCorrespond | scripts/check-portability.py:105-107 | the stripped text has the source's lines, as many and each as long, exactly when no literal holds a backslash right before a line break, and exactly when it has as many |
| PortabilityCalls.CallByIndex | scripts/check-portability.py:139-145 | a listed call is reported under the number of its stripped line exactly when that line is read and the raw line of that number carries no escape |
| PortabilityCalls.EveryLiveCallIsReported | scripts/check-portability.py:103-146 | a listed call Windows compiles is reported under its stripped line's number unless the raw line of that number carries the escape, and in the exact case nothing else is; without a spliced literal that is the call's own line and number, and with one it may be an earlier line |
| PortabilityCalls.SplicedLiteralHidesCall | scripts/check-portability.py:139-145 | a three-line source with a spliced string: the escape on the second line hides the call on the third, which carries none |
| Ptx.ReplacesAreEscape | scripts/embed-ptx.py:69 | the two successive replaces escape every character once |
| Ptx.PinVersion | scripts/embed-ptx.py:30-33 | the first line that starts with `.version` becomes `.version 7.8`, and every other line is the source's |
| Ptx.Embed | scripts/embed-ptx.py:30-74 | the loops print the header of the pinned lines |
| Ptx.PtxFromHeader | scripts/cuda-act-probe.py:39-47 | the reader joins the unescaped literals of the declaration |
| PtxProofs.HeaderCarriesSource | scripts/cuda-act-probe.py:39-47 | for every source the reader recovers its lines, each ended by a line feed, the first that starts with `.version` as `.version 7.8` and every other as it was; the first semicolon at a line's end is the terminator |
| PtxProofs.HeaderReads | scripts/embed-ptx.py:64-74 | the header's lines, spelled out: the comments, `static const char *` with the name, a quoted and escaped line for each of the source's, and a semicolon |
| PtxProofs.EscapesRead | scripts/cuda-act-probe.py:46 | a backslash gives a line feed, a tab, a carriage return or a NUL before n, t, r or 0 and the character itself before any other; characters without one stay |
| PtxProofs.FindAllOfLines | scripts/cuda-act-probe.py:45-46 | the literal pattern finds the printed lines one by one |
| PtxProofs.FindsEnd | scripts/cuda-act-probe.py:43 | no earlier semicolon ends a line |
| PtxProofs.LiteralsCarryCleanSource | scripts/check-ptx-source.py:22-27 | the other reader recovers the same text exactly when it holds no line break but line feeds and no NUL, and refuses it otherwise |
| PtxProofs.PythonEscapes | scripts/check-ptx-source.py:22-27 | the ten characters that may follow a backslash in a literal, and what they stand for |
| PtxProofs.FormFeedIsRefused | scripts/check-ptx-source.py:22-27 | a source with a form feed, which one reader recovers and the other refuses |
| PyText.SplitlinesOfLines | scripts/check-ptx-source.py:26 | `splitlines` gives back lines that hold no other line break |
| PyText.FirstPieceOfPair | scripts/check-ptx-source.py:26 | a carriage return and a line feed are one line break, and a text without one is one line |
| PyText.BreakTable | scripts/check-ptx-source.py:26 | the ten characters at which `splitlines` ends a line, and the white space `strip` drops, by number |
| PyText.UniversalReads | scripts/cuda-act-probe.py:41 | a text file is read with each of its three line ends as a line feed |
| DiffReader.AddedLines | scripts/check-content-hygiene.py:35-49 | the loop with its file and line counter yields what the reader on lines specifies |
| DiffProofs.HeaderRead | scripts/check-content-hygiene.py:42-44 | a printed hunk header gives the number of its first new line |
| DiffProofs.OldSideIsNewSideUndone | scripts/check-content-hygiene.py:42-44 | a hunk header counts as many old lines as the undone edit shows new ones |
| DiffProofs.NumberedFromZero | scripts/check-content-hygiene.py:35-49 | added lines under a name that no hunk header introduces are yielded in order and numbered from zero |
| DiffProofs.NothingNamed | scripts/check-content-hygiene.py:36-46 | nothing is yielded before a file is named |
| DiffProofs.DiffReads | scripts/check-content-hygiene.py:35-49 | of every multi-file, multi-hunk edit it yields as many lines as are added, and exactly those, each with its number in the new file, exactly when no file that is added to has a name that ends in white space |
| DiffProofs.AddedStands | scripts/check-content-hygiene.py:35-49 | a yielded file, number and text is that line of the new file, marked as added |
| DiffProofs.ReadsExactlyWhenPlain | scripts/check-content-hygiene.py:35-49 | the reader inverts the printer exactly when no added line begins with `++ ` and no file that is added to has a name that ends in white space |
| DiffText.SplitGivesLines | scripts/check-content-hygiene.py:38 | `splitlines` gives back the printed lines exactly when none holds another line break |
| DiffText.TextReadsExactly | scripts/check-content-hygiene.py:35-49 | from the text of a diff in which no tail of a broken line looks like a name line or a header, exactly the added lines are yielded with their numbers exactly when no added line begins with `++ ` or is broken, no tail in a file with a name begins with `+`, and no name that is broken or ends in white space, nor broken line above an added one, counts |
| DiffText.BreaksInAddedLines | scripts/check-content-hygiene.py:35-49 | with breaks in added lines only: exactly when none holds one, none begins with `++ ` and no file that is added to has a name that ends in white space |
| DiffText.BrokenAddedIsMisread | scripts/check-content-hygiene.py:38-46 | an added line with a line break in it, or `++ ` in front, is misread, whatever else the diff holds |
| DiffText.BrokenLineShifts | scripts/check-content-hygiene.py:38-49 | a broken kept or removed line shifts the number of the added line below it by the pieces that count |
| DiffText.BrokenAddedIsCut | scripts/check-content-hygiene.py:38-46 | of a broken added line only the text in front of the break is yielded, so the rest is never checked, and the next line is numbered one too high |
| DiffText.RemovedFormFeedIsMisread | scripts/check-content-hygiene.py:35-66 | a diff without context, with a form feed in a removed line, that is misread |
| DiffText.AddedFormFeedIsMisread | scripts/check-content-hygiene.py:35-66 | and one with a form feed in an added line |
| DiffText.PlusPlusIsMissed | scripts/check-content-hygiene.py:39-41 | a diff whose one added line begins with `++ `, which is not yielded |
| DiffText.SpacedNameIsMisread | scripts/check-content-hygiene.py:39-41 | a diff of a file whose name ends in a space, whose added line is yielded for another name |
| DiffText.RightByChance | scripts/check-content-hygiene.py:38-49 | a break whose tail reads as a hunk header can leave the numbers right, so the limit on tails is needed |
| CastAtUse.Hooks.Cast | scripts/gold-logits.py:209-220 | the nested loops widen every narrow tensor of the unit's modules and put each aside once, shared ones included |
| CastAtUse.Hooks.PreHook | scripts/gold-logits.py:223-224 | the whole new state of the hook before a forward |
| CastAtUse.Hooks.PostHook | scripts/gold-logits.py:226-231 | the whole new state of the hook after it |
| CastAtUse.Hooks.Forward | scripts/gold-logits.py:248-261 | a run of nested forwards fires the hooks in order |
| CastAtUse.Register | scripts/gold-logits.py:238-262 | the blocks and then each uncovered module with a narrow tensor are hooked, or the model is refused when the blocks are not as many as declared |
| CastAtUse.HookedOnceEach | scripts/gold-logits.py:247-261 | no module is hooked twice exactly when the stack lists no block twice |
| CastAtUse.NarrowIsCovered | scripts/gold-logits.py:247-261 | no narrow tensor of the model is outside every unit |
| CastAtUse.SinglesExactly | scripts/gold-logits.py:253-261 | outside the blocks exactly the modules that hold a narrow tensor of their own are hooked, each for itself |
| CastAtUse.RestoreUndoes | scripts/gold-logits.py:209-231 | putting back what was put aside undoes the widening |
| CastAtUseProofs.CoveredIsWide | scripts/gold-logits.py:180-189 | at every moment of a unit's forward what it covers is its stored tensors widened, over every well-nested run, reentrant or not |
| CastAtUseProofs.RestoredExactlyWhenHarmless | scripts/gold-logits.py:223-231 | a run leaves every tensor as stored exactly when no unit runs inside itself while it has tensors put aside |
| CastAtUseProofs.RunIsTransparent | scripts/gold-logits.py:180-262 | over every non-reentrant run both hold, tied parameters included |
| CastAtUseProofs.ReentryKeepsWide | scripts/gold-logits.py:223-231 | a unit run inside itself keeps its tensors wide for good exactly when it covers a narrow one |
| CastAtUseProofs.FiredIsNonReentrant | scripts/gold-logits.py:222-232 | with each module hooked at most once, the hooks nest without re-entry exactly when no hooked module runs inside itself |
| CastInUse.InUseExactly | scripts/gold-logits.py:180-262 | with each module hooked at most once and no hooked module running inside itself, the running modules' own tensors are wide at every moment exactly when each narrow one is covered by a unit open at the time |
| CastInUse.ModelIsTransparent | scripts/gold-logits.py:180-262 | for the units registered on a model with no block listed twice, and every run in which no hooked module runs inside itself: what an open unit covers is wide throughout, everything ends as stored, and what is in use is wide exactly when an open unit covers it |
| CastInUse.WideInsideBlocks | scripts/gold-logits.py:183-194 | what is in use is wide when a block's modules with narrow tensors run only inside a block that holds them, and in a model without tied tensors only then |
| CastInUse.ChildAloneIsNarrow | scripts/gold-logits.py:222-261 | a block's child run outside its block computes on a narrow tensor |
| CastAtUseProofs.HookedTwice | scripts/gold-logits.py:222-261 | a forward of a module with several pairs of hooks, which share its entry in `saved`, restores every tensor exactly when there is at most one pair or nothing narrow is covered |
| Binomial.RowSum | scripts/gold-logits.py:498 | a row of binomials sums to a power of two |
| Binomial.CombSymmetric | scripts/gold-logits.py:497 | a row reads the same from both ends |
| Binomial.CombFactorial | scripts/gold-logits.py:497 | binomials are quotients of factorials |
| Binomial.McNemarIsTwoSided | scripts/gold-logits.py:485-506 | swapping the counts changes nothing, and the two-sided test is min(1, 2 times the one-sided test of the larger count) |
| Binomial.McNemarIsOne | scripts/gold-logits.py:485-498 | it is one exactly when the counts differ by at most one |
| Binomial.TailsComplement | scripts/gold-logits.py:501-506 | P(X >= k) + P(X >= n-k+1) = 1 exactly when there is a trial; for n = 0 both are one |
| Binomial.SignTestFalls | scripts/gold-logits.py:501-506 | a larger count is strictly less likely |
| Binomial.TailIsProbability | scripts/gold-logits.py:506 | the cap at one never bites, and the two tails share the row |
| Binomial.SidesSwap | scripts/gold-logits.py:517-525 | swapping the sides swaps the report |
| Binomial.ChancesOfSides | scripts/gold-logits.py:517-525 | the side worse more often has the smaller chance, twice of which is the two-sided test, and the chances exceed one by that of the split itself |
| Binomial.WorseSideIsLarger | scripts/gold-logits.py:517-525 | b is counted worse where its divergence exceeds a's by more than one nat, a where a's exceeds b's, and no other position is counted |
| Binomial.BWorseThroughout | scripts/gold-logits.py:517-525 | when b is worse by more than one nat at every position, all count for b, none for a, and b's chance is the smaller one |
| Wilcoxon.Ranks | scripts/gold-logits.py:541-551 | the nested tie loops give every index (#smaller + #not larger + 1) / 2 by magnitude, whatever order the sort leaves ties in |
| Wilcoxon.WilcoxonSignedRank | scripts/gold-logits.py:528-553 | the statistic, its mean and its count, or none below five nonzero differences |
| Wilcoxon.RanksSum | scripts/gold-logits.py:541-551 | twice the ranks sum to n(n + 1) |
| Wilcoxon.GroupRank | scripts/gold-logits.py:543-551 | the rank of tied magnitudes is the mean of the places they take in order |
| Wilcoxon.FlippingRaises | scripts/gold-logits.py:552 | turning one negative difference positive raises w by exactly that difference's rank |
| Wilcoxon.OneSidedExtremes | scripts/gold-logits.py:552-553 | w is n(n + 1) / 2 when no difference is negative and 0 when none is positive; mu is n(n + 1) / 4 |
| Wilcoxon.ZerosDropOut | scripts/gold-logits.py:537 | zero differences change nothing |
| Wilcoxon.FiveAreEnough | scripts/gold-logits.py:537-540 | there is a statistic exactly when at least five differences are not zero |
| Wilcoxon.NegatingNegates | scripts/gold-logits.py:552-556 | negating all differences negates w - mu |
| Wilcoxon.OrderFree | scripts/gold-logits.py:528-553 | the statistic does not depend on the order of the differences |
| Calibration.FindCertificate | scripts/cl-calibration.py:95-128 | the tie-grouped scan returns the certificate: every top slice down to the threshold meets the target, no lower threshold has that property, coverage and accuracy are those of the slice; none when the top misses |
| Calibration.CertificateIsOrderFree | scripts/cl-calibration.py:105-119 | the report depends only on the multiset of decisions |
| Calibration.NextLowerMisses | scripts/cl-calibration.py:115-118 | at the next lower confidence observed the target is missed |
| Calibration.CertificateInCounts | scripts/cl-calibration.py:95-128 | in numbers of decisions: at the threshold and at every higher confidence the target's share is right, and from any lower confidence up to the threshold, or from any confidence at all when there is none, there is one at which it is not; coverage and accuracy are the counted quotients |
| Calibration.LowestExactlyWhen | scripts/cl-calibration.py:95-128 | the threshold is the lowest confidence whose slice meets the target, and there is none only when no slice does, exactly when no slice that misses is followed by a longer one that meets it |
| Calibration.LowestIsMissed | scripts/cl-calibration.py:95-128 | hits at 0.9, 0.7 and 0.6 and a miss at 0.8: the threshold for 0.7 is 0.9, though the slice down to 0.6 meets it |
| Reliability.Summarize | scripts/cl-calibration.py:71-92 | the counters of every bin, the accuracy, Brier score and calibration error, or the failure of a bin out of range |
| Reliability.BinsConserve | scripts/cl-calibration.py:79-84 | the bins' counts, hits and confidences add up to all decisions |
| Reliability.ErrorBoundsGap | scripts/cl-calibration.py:85 | accuracy and mean confidence differ by at most the calibration error |
| Reliability.ErrorIs | scripts/cl-calibration.py:79-85 | times the number of decisions, the calibration error is the sum over the bins of the absolute difference of hits and confidences of the decisions between the bin's edges |
| Reliability.SummaryReads | scripts/cl-calibration.py:71-92 | accuracy is the number of hits over that of decisions, the Brier score their scores' mean, and the calibration error that sum over the number of decisions |
| Reliability.BinByEdges | scripts/cl-calibration.py:81 | a confidence falls into a bin exactly when the bin's edges hold it |
| Reliability.BinBelowZero | scripts/cl-calibration.py:81 | a confidence below zero counts from the end of the table, and is an error when it is too low |
| Reliability.SumsAdd | scripts/cl-calibration.py:77-78 | hits, confidences and scores add up over decisions |
| Reliability.BinHolds | scripts/cl-calibration.py:81 | a confidence from 0 up to 1 lies between the edges of its bin, the upper one excluded, and one of 1 or more falls into the last bin |
| RangeTables.Decide | scripts/gen-unicode-classes.py:73-81 | the engine's answer wins, and the decided code points are those it changed |
| RangeTables.BuildClasses | scripts/gen-unicode-classes.py:82-90 | lookup in the built ranges is the class of every code point, ranges are sorted, disjoint and merged |
| RangeTables.BuildCcc | scripts/gen-unicode-nfc.py:61-69 | the same for nonzero combining classes, code points left out excepted |
| RangeTables.NoGapSpanned | scripts/gen-unicode-classes.py:82-90 | a range covers listed code points of its class only |
| RangeTables.LookupReads | scripts/gen-unicode-classes.py:82-90 | a lookup finds the class of the range that holds the code point, and none between the ranges |
| RangeTables.TableIsMinimal | scripts/gen-unicode-classes.py:82-90 | no sorted, disjoint table with the same lookup has fewer rows |
| RangeTables.BuildPool | scripts/gen-unicode-nfc.py:94-98 | the rows lie end to end, fill the pool, and each finds its decomposition |
| RangeTables.PoolPlace | scripts/gen-unicode-nfc.py:94-98 | every place of the pool belongs to exactly one row |
| ProcessTree.IndexChildren | scripts/idle_coexistence.py:66-70 | the index lists exactly the children of each parent |
| ProcessTree.Descendants | scripts/idle_coexistence.py:58-77 | the walk over the child index ends and returns exactly the processes reached from the root, cycles included |
| ProcessTree.ProcTree | scripts/idle_coexistence.py:107-126 | so does the walk over all processes, and there is no tree when the root is not listed |
| ProcessTree.WalksAgree | scripts/idle_coexistence.py:58-126 | both find the same tree in the same snapshot, in whatever order it is listed |

## Left out

- Files, processes, the network and the command line: a file is its bytes or its text, and arguments are parameters. The JSON report, `order_summary`, printing and file names are not modelled.
- `scripts/gguf_fixture.py`, `pack` and `ones`: they print floats, and floats are opaque bytes here, unpacked and packed unchanged.
- Fixture.GetU32Reads: what a float's bytes stand for is a parameter.
- UTF-8: names, keys and strings of a container are bytes, so a decoding error is not an error of the model; ASCII white space and digits stand for `int()` on a layer number, and `\w` and `\d` in the text tools are ASCII.
- Which error is reported first when several apply, and the wording of any.
- GgufReader.ReadHeader: the per-script differences (short strings and scalars accepted, nested arrays refused, the magic checked) are modes of one reader.
- DepthSlice.SliceFile: a directory offset past the end of the file is an error here, where the script slices an empty or wrong piece; a negative declared alignment is refused; an earlier, overridden `block_count` entry of a type that is no integer is refused, where the script rewrites a float one.
- DepthSliceProofs.SlicingComposes: needs the alignment to be a power of two, which the masking in the script needs too, the architecture entry to be a string, and survivors that stay apart when renamed: of `blk.1.x` and `blk.01.x`, which get one name, a second cut gives both the size of the later one.
- DepthSliceEntries.CutOfWritten: about files whose architecture is a string entry and whose layer counts are u32 or i32 entries, the deciding one u32, as the encoders write them; the other integer types are in `DepthSliceProofs.HeaderAfterCut`.
- BlockOrderFile.RewriteVerifies: the digest is an arbitrary function of a tensor's bytes, standing for SHA-256.
- BlockOrderFile.CanonicalIsOptimal: about layouts that are aligned and do not overlap; the script does not check that of its input.
- Split.SplitGguf: a negative shard count is not modelled.
- PortabilityProofs.ScanIsSound: macros tested by the scan keep one value through the file, line splicing outside `#define` is not modelled, and sources whose conditionals do not nest are left out.
- PortabilityProofs.SpelledExactlyWhenSound: a condition whose brackets do not balance, such as `defined(_WIN32`, is accepted by no compiler, so no build exists on which the scan could be wrong.
- Lexer.StripComments: text is read as it is, without trigraphs or line splicing in comments.
- Ptx.EmbeddedText: a literal is one double-quoted Python string with single-character escapes; octal, hexadecimal, named and Unicode escapes, triple quotes and adjacent literals, none of which the printer writes, are refused. `normalize` and the compiler are not modelled.
- Ptx.Embed: the two comment lines above the declaration are parameters; `toolchain_line` is not modelled.
- DiffReader.Print: the printer writes the lines above a file's names as given; combined diffs, quoted path names and the tab `git` prints behind a name with a space, which the reader strips, are not modelled. The patterns searched in added lines are not part of this model.
- DiffText.TextReadsExactly: about breaks whose tails begin neither with `+++ ` nor with `@@`, nor, above the hunks of a file, with `+`; with a tail that reads as a header the reading can be right by chance (`DiffText.RightByChance`). `DiffText.BrokenAddedIsMisread` needs no such limit.
- CastAtUse.Register: which module list is the decoder stack (`decoder_blocks`) is a parameter, and so is the list of modules; a module goes by its number, which stands for its identity, and a unit by that of the module it is hooked on; a forward that raises, after which no second hook runs, is not modelled; tensors are their stored value, narrow or wide.
- Binomial.McNemar: reals stand for floats, without rounding and without the overflow of `2.0 ** n`.
- Wilcoxon.WilcoxonSignedRank: z and p need a square root and `erfc` and are left out; the variance is never zero for five or more differences, so the last refusal is not reached.
- Calibration.FindCertificate: accuracies are exact quotients, without rounding; reading the JSON lines and the Brier term of one record are left out.
- RangeTables.BuildClasses: the class of a code point is an arbitrary function; the Unicode database, the engine and the printed C text are left out, and so is the composition table of `scripts/gen-unicode-nfc.py`, a sorted filter.
- ProcessTree.ProcTree: the sums over the tree and the parsing of `/proc` and `ps` lines (`proc_stat_fields`, `_parse_cputime`) are left out.
- The servers, sweeps and report scripts, which only orchestrate, and the C engine, which is not part of this model.
