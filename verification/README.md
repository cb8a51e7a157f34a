# capnp-janet, verified

This project models the core of capnp-janet, a Cap'n Proto implementation in C: pointer
words, the arena builder and the pointer resolver, stream framing, List(Text), list upgrade
views, the packed codec, the canonical rewrite, and the RPC vat with its stream window. Each
imperative part is a class or a method over arrays and fields, proved against functions on
values; the theorems are about those functions and about runs of them.

`dafny verify dfyconfig.toml` checks everything.

## How it is laid out

- **Words and bytes.** `WirePointer` packs and unpacks pointer words; shifts and masks are
  written as division and remainder by powers of two. `WordBytes` has little-endian numbers,
  `ByteOrder` where the fields of a word are in its bytes.
- **Resolver.** `Message` says with `LookWord` what a word leads to and what following it
  costs, from the segments alone; the methods of class `Message` spend a budget on it.
  `Extents` says it over from the bytes and words an object takes.
- **Canonical rewrite.** `ObjectTree` unfolds a message to a tree of values (absent, struct,
  plain list, pointer list, composite list) and defines its normal form; `Layout` encodes a
  tree; `Budget` says what sizing and copying cost. `Canonicalizer` is the recursive copy,
  proved to produce the encoding of the normal form. `CanonicalTheorems`,
  `CanonicalIdempotence`, `CanonicalLayout`, `CanonicalLimits`, `Rewrites` and
  `CanonicalFramed` say what that means; `Rewrites` is about canonicalizing twice. `Meaning`
  says which values no reader can tell apart, as what is past a section reads as zero or
  null: those of the same normal form. The bits of a bit list are compared as its bytes.
- **Arena.** `Arena` is the multi-segment builder, `Targets` its three pointer forms,
  `Frames` what a pointer depends on, `Sessions` runs of builder operations, and
  `SessionBuilder` the builder performing them.
- **Framing and text.** `Framing`, `Framer`, `Texts`, `TextBuilder`, `TextEndToEnd`, and
  `Spending` on how many words and segments a message takes, by the sizes `SegmentSizes`
  computes.
- **Packed codec.** `Packed` has the functions and theorems, `PackedCodec` the loops.
- **List views.** `ListViews`.
- **RPC.** `Rpc` defines the tables and what each message does to them; `Connections` does it
  in place; `Network` puts connection objects on one vat. `JoinLaws`, `ExportLaws` and
  `HandoffLaws` are about one message, `Vats`, `Questions`, `JoinRuns`, `HandoffRuns`,
  `Pipelining`, `References` and `EmbargoLimits` about runs on any number of connections;
  `Refusals` says which messages are refused, and `Scenarios` has runs that show what does not
  hold. `Streams` and `StreamSender` are the stream window, `StreamVerdicts` what its calls are
  judged by.

## What turned out not to hold

- A canonical rewrite that returns OK can lose the message. `alloc_local`
  (src/capnp_canonical.c:18-47) has no limit and the content of a plain list behind a
  double-far pad is not charged (src/capnp_message.c:164-199), so an offset may not fit its
  30 bits. `CanonicalLimits.MeaningExactly` gives the exact condition, `MeaningLost` a message.
  Messages of near and single-far pointers always meet it (`CanonicalTheorems.NearKeepsMeaning`).
- Canonicalizing canonical words gives the same words, but may exceed the budget, when the
  original had a plain list behind a double-far pad: `Rewrites.TwiceFails`. It succeeds
  exactly when what the normal form costs is within the budget (`Rewrites.TwiceExactly`).
- The Return that lifts an embargo can name an export that is no longer in use, because it
  was released while the Accept was held: `Scenarios.LiftedAfterRelease`. It is in use for
  the object exactly if its references stayed positive, or the object was exported to its
  slot again and they stayed positive since (`EmbargoLimits.LiftedLive`).
- That Return goes out on the connection that received the Disembargo
  (src/capnp_rpc.c:1341-1350), which need not be the one the Accept came on:
  `Scenarios.LiftedElsewhere`. It reaches the asker exactly when both are the same
  connection (`Questions.LiftGoesTo`).
- Calls sent by a stream equal Finishes plus outstanding calls only while no call is given
  the id 2^32 - 1, which `capnp_rpc_send_call` also uses to report failure
  (src/capnp_rpc.c:1189-1191): `Streams.CallsAccounted`, and `Streams.LostCall` for a run
  that gets there.
- A Release of 2^31 or more takes no references but adds some, since the count is read as a
  signed int (src/capnp_rpc.c:598): `Refusals.ReleaseAdds`, and `Refusals.ReleaseTakesCount`
  for what smaller counts take.
- A dispatch that fails is to be answered with an exception
  (include/capnp-janet/capnp_rpc.h:67); the code sends no Return (src/capnp_rpc.c:581-589):
  `Scenarios.CallUnanswered`, and `HandoffLaws.CallReturns` for exactly when there is one.
- The builder can produce messages of more than 16 segments, which the reader refuses
  (src/capnp_message.c:53): `TextEndToEnd.SeventeenSegments` is one,
  `Framing.ParseTooMany` says it of all, and `TextEndToEnd.ListTextRoundTrip` counts from its
  inputs which messages of texts are too large.

## Model

| member | source | states |
|---|---|---|
| WirePointer.StructFields | include/capnp-janet/capnp_pointer.h:51-90 | a struct word gives back the offset, data words and pointer words it was made from; it is the null word only for offset 0 and no words |
| WirePointer.ListFields | include/capnp-janet/capnp_pointer.h:51-98 | a list word gives back offset, element size and count, and is never null |
| WirePointer.FarFields | include/capnp-janet/capnp_pointer.h:74-114 | a far word gives back its kind of pad, offset and segment |
| WirePointer.CapFields | include/capnp-janet/capnp_pointer.h:102-104 | a capability word gives back its index |
| WirePointer.StructDetermined | include/capnp-janet/capnp_pointer.h:84-90 | conversely, every struct word is rebuilt from its decoded fields: no bit is ignored |
| WirePointer.ListDetermined | include/capnp-janet/capnp_pointer.h:92-98 | the same for list words |
| WirePointer.FarDetermined | include/capnp-janet/capnp_pointer.h:106-114 | the same for far words |
| WirePointer.TagFields | src/capnp_message.c:245-270 | the element count of a composite tag survives the sign extension of its 30-bit field exactly when `CountFits` |
| WordBytes.LoadStored | include/capnp-janet/capnp_pointer.h:9-46 | loading the k bytes a number was stored in, little-endian, gives the number back |
| WordBytes.StoreLoaded | include/capnp-janet/capnp_pointer.h:9-46 | storing a loaded number gives the bytes back |
| WordBytes.WordsOfBytes | include/capnp-janet/capnp_pointer.h:9-38 | words to bytes to words is the identity |
| WordBytes.BytesOfWords | include/capnp-janet/capnp_pointer.h:9-38 | bytes to words to bytes is the identity |
| ByteOrder.StoredDigit | include/capnp-janet/capnp_pointer.h:9-46 | byte i of a stored number is its digit i in base 256, the lowest first |
| ByteOrder.StructBytes | include/capnp-janet/capnp_pointer.h:51-90 | the bytes of a struct word: kind 0 in the two lowest bits, the offset in the thirty above, data words in bytes 4 and 5, pointer words in bytes 6 and 7 |
| ByteOrder.ListBytes | include/capnp-janet/capnp_pointer.h:51-98 | of a list word: kind 1 and the offset in the low half; in the high half the element size in three bits and the count above |
| ByteOrder.FarBytes | include/capnp-janet/capnp_pointer.h:74-114 | of a far word: kind 2, the kind of pad in bit 2, the pad's word above, and its segment in the high half |
| ByteOrder.CapBytes | include/capnp-janet/capnp_pointer.h:102-104 | of a capability word: kind 3 and the index in the high half |
| Message.Message.Charge | src/capnp_message.c:117-122 | a charge within the budget is deducted; one past it is refused and deducts nothing |
| Message.Message.BoundsWord | src/capnp_message.c:105-111 | OK for a word inside a segment, ErrSegment for a segment that does not exist, ErrBounds for a word past an existing one |
| Message.Message.ResolveWord | src/capnp_message.c:127-306 | following a near, far, double-far, null or capability word has the outcome `LookWord` gives for the segments alone: object, error code and exact charge; when the budget does not cover that charge it is ErrTraversal, and what is left of the budget is given too |
| Message.Message.ResolveList | src/capnp_message.c:233-291 | the same for near lists: composite tag and rows, or the last word of a plain list |
| Message.Message.ResolveDoubleFar | src/capnp_message.c:151-201 | the same for double-far pads: two pad words checked and charged, the content's extent only for structs and composite lists |
| Message.Message.ResolvePtr | src/capnp_message.c:308-316 | the same for a pointer slot, which is bounds-checked and charged one word |
| Message.Message.Root | src/capnp_message.c:318-322 | the same for word 0 of segment 0 |
| Message.Message.Getp | src/capnp_message.c:324-342 | the same for a pointer field; past the pointer section it is null and free |
| Message.Message.ListGetp | src/capnp_message.c:463-487 | the same for an element of a pointer list; an element of a composite list is its row; bounds and kind errors otherwise |
| Extents.ListWordsLeast | src/capnp_message.c:261-288 | a plain list takes the least number of words that hold its elements, each of the bits its size says: 0, 1, 8, 16, 32, 64 and 64 for a pointer |
| Extents.PlainResolves | src/capnp_message.c:233-291 | a near plain list that starts in range resolves if and only if the last byte of its elements is in the segment, and charges for the least words that hold them; otherwise ErrBounds and no charge |
| Extents.StructResolves | src/capnp_message.c:208-231 | a near struct resolves if and only if every word of its sections is in the segment, and charges for each |
| Extents.CompositeResolves | src/capnp_message.c:233-260 | a near composite list resolves if and only if its tag and every word of every row are in the segment; it charges for each, and for the tag alone if they are not |
| Extents.DoubleFarResolves | src/capnp_message.c:151-201 | what a double-far pointer leads to and charges for every pad: structs and composite lists are charged for, other lists are not |
| Extents.FarResolves | src/capnp_message.c:202-209 | a far pointer leads where its pad does, for one word more, or is ErrBounds where there is none |
| Extents.LongChain | src/capnp_message.c:127-209 | a chain of far pointers fails with ErrDepth at the 65th, having charged for the root and 64 pads |
| Extents.CapResolves | src/capnp_message.c:293-304 | a capability word resolves to the capability it was made from, free of charge |
| Extents.FieldSlots | src/capnp_message.c:324-342 | pointer k of a struct is the k-th word after its data; past its pointers it is null |
| Extents.ElementSlots | src/capnp_message.c:463-487 | elements of a pointer list are its words, those of a composite list its rows, and every other case an error |
| Extents.RowsFollow | src/capnp_message.c:463-487 | the rows of a composite list follow each other, from its first word on |
| Extents.RootSlot | src/capnp_message.c:318-322 | the root is word 0 of segment 0; ErrArg without segments, ErrBounds with an empty first one |
| ObjectTree.CellsOfRead | src/capnp_message.c:127-342 | an object has a value exactly when every word of its body has one, and its value's cells are those, in order |
| Extents.PlainBytes | src/capnp_canonical.c:179-207 | the words of a plain list's value hold the bytes of its elements, and zeros past them, whatever the segment holds there |
| NormalForm.TrimTwice | src/capnp_canonical.c:49-88 | the normal form of a value is its own normal form |
| NormalForm.TrimNormal | src/capnp_canonical.c:49-88 | every trimmed value is in normal form at every depth: the sizes of each struct, list and row are those its own trimming would find |
| Meaning.TrimReads | src/capnp_canonical.c:49-88 | every data word and every pointer of every row reads the same after trimming, where what is past a section reads as zero and null |
| Meaning.SameIffTrimmed | src/capnp_canonical.c:49-88 | two values have the same normal form if and only if no reader can tell them apart: `Same` compares what is read, at any index and depth |
| NormalForm.TrimProper | src/capnp_canonical.c:49-88 | trimming keeps a value's cells in agreement with its shape |
| NormalForm.TrimFits | src/capnp_canonical.c:49-88 | trimming does not make a value deeper |
| Budget.TargetIsTrimmed | src/capnp_canonical.c:49-88 | the sizes the trim loops find, reading pointer slots one by one, are those of the normal form of the object's value |
| CopyProofs.Finished | src/capnp_canonical.c:105-256 | when every word of a copy has been written, the source object has a value, also in the parts that were trimmed away, and the words are its normal form |
| CopyProofs.Refused | src/capnp_canonical.c:105-256 | when a copy loop is stopped by a pointer, the object has no value of the allowed depth or its copy costs more than is left: a resolve failure met while trimming never drops data silently |
| Canonicalizer.TrimmedDwords | src/capnp_canonical.c:49-57 | the number of data words up to the last that is not zero |
| Canonicalizer.TrimmedPwords | src/capnp_canonical.c:59-70 | the number of pointers up to the last that is not null, for exactly the budget those looks cost; with too little budget it stops at a pointer that costs more than is left |
| Canonicalizer.CompositeTrim | src/capnp_canonical.c:72-88 | the largest trimmed sizes over all rows, and what finding them cost |
| Canonicalizer.Output.AllocLocal | src/capnp_canonical.c:18-47 | appends zero words at the end of the one segment, growing it |
| Canonicalizer.Output.CopyPtrToWord | src/capnp_canonical.c:210-256 | succeeds exactly when the source has a value of the allowed depth and copying it fits the budget; then the budget is down by exactly that cost and the slot and the appended words are the encoding of the value's normal form |
| Canonicalizer.Output.CopyStruct | src/capnp_canonical.c:222-253 | the same for structs |
| Canonicalizer.Output.WriteListToSlot | src/capnp_canonical.c:105-208 | the same for lists of any element size |
| Canonicalizer.Output.WriteComposite | src/capnp_canonical.c:111-149 | the same for composite lists, with rows of the largest trimmed size behind a tag |
| Canonicalizer.Output.WritePointers | src/capnp_canonical.c:150-178 | the same for pointer lists |
| Canonicalizer.Output.WritePlain | src/capnp_canonical.c:179-207 | the same for lists of plain elements, the last word padded with zeros |
| Canonicalizer.Canonicalize | src/capnp_canonical.c:258-301 | the outcome code as a function of the message alone, and on success exactly the encoding of the normal form of the message's value |
| Layout.BodyAt | src/capnp_canonical.c:105-256 | in an encoding, the words of each pointee are in one piece after those of the pointees before it |
| LayoutReads.LookLinked | src/capnp_message.c:127-306 | a pointer of an encoding whose offset fits leads to the object it was written for, at a charge of one word and the words of the body |
| LayoutReads.ReadLinked | src/capnp_message.c:127-342 | reading an object of an encoding whose offsets fit gives back its tree |
| LayoutReads.EncodeReadsBack | src/capnp_canonical.c:258-301 | reading an encoding from its root gives back the tree it encodes |
| LayoutReads.EncodeInjective | src/capnp_canonical.c:258-301 | trees with the same encoding are the same |
| CanonicalTheorems.ReadProper | src/capnp_message.c:127-342 | every value read from a message agrees with its shape, fits its pointer fields and has the depth it was read with |
| CanonicalTheorems.CanonicalSucceeds | src/capnp_canonical.c:258-301 | a message canonicalizes exactly when its root leads to a value of at most 65 levels and looking at it and copying fit 8388608 words; which error otherwise |
| CanonicalTheorems.MeaningPreserved | src/capnp_canonical.c:258-301 | for every message, near, far or double-far: if canonicalizing it succeeds and the offsets fit, the output's value is the input's, in normal form |
| CanonicalTheorems.CanonicalIffSameValue | src/capnp_canonical.c:258-301 | two messages that both succeed have the same canonical words if they have the same value, whatever the offsets; and only if, when the offsets of both fit |
| Meaning.SameWordsIff | src/capnp_canonical.c:258-301 | two messages that succeed have the same canonical words if no reader can tell their values apart; and only if, when the offsets of both fit |
| Meaning.OutputReadsSame | src/capnp_canonical.c:258-301 | canonical words whose offsets fit read the same as the message they were made from |
| CanonicalLimits.LookOverflows | include/capnp-janet/capnp_pointer.h:51-98 | in a segment of up to 2^30 words, a pointer whose offset does not fit resolves to an error |
| CanonicalLimits.ReadOverflows | src/capnp_message.c:127-342 | nothing above such a pointer can be read |
| CanonicalLimits.MeaningExactly | src/capnp_canonical.c:105-301 | up to 2^30 output words: the canonical words have the message's value if and only if every offset in them is below 2^29; otherwise they have no value at all |
| CanonicalLimits.MeaningLost | src/capnp_canonical.c:18-47 | a concrete message, with one long list behind a double-far pad, whose canonical rewrite returns OK and cannot be read |
| CanonicalTheorems.SizeWithinCost | src/capnp_canonical.c:18-47 | the words allocated for an object are no more than the looks at it and below it charged, when each look charges for what it reaches |
| CanonicalTheorems.OutputBounded | src/capnp_canonical.c:258-301 | so the canonical words of such a message are at most 8388608 |
| CanonicalTheorems.NearCharged | src/capnp_message.c:201-306 | near and single-far pointers do charge for what they reach, on cyclic graphs too |
| CanonicalTheorems.NearOutputBounded | src/capnp_canonical.c:258-301 | a message of near and single-far pointers has at most 8388608 canonical words |
| CanonicalTheorems.NearKeepsMeaning | src/capnp_canonical.c:258-301 | so when it succeeds its canonical words always have its value, in normal form |
| CanonicalIdempotence.LaidOutSound | src/capnp_canonical.c:258-301 | the data words an encoding whose offsets fit leads to lie inside it |
| CanonicalIdempotence.CostDown | src/capnp_canonical.c:49-88 | copying an object of the output costs no more budget than copying the original did |
| CanonicalIdempotence.CanonicalTwice | src/capnp_canonical.c:258-301 | for messages whose looks charge for what they reach, canonicalizing canonical words succeeds and gives the same words |
| Rewrites.BodyCharges | src/capnp_canonical.c:49-256 | sizing and copying an object of an encoding charges exactly what `BodyRewriteCost` computes from its tree |
| Rewrites.TwiceExactly | src/capnp_canonical.c:258-301 | for every message that canonicalizes with offsets that fit: the output has its value and its own words as canonical form, and canonicalizing it succeeds if and only if `RewriteCost` of the normal form is within the budget |
| Rewrites.FarListTwice | src/capnp_canonical.c:258-301 | a list of n words behind a double-far pad always canonicalizes, to n + 1 words, and those canonicalize if and only if n + 1 is at most 8388608 |
| Rewrites.TwiceFails | src/capnp_canonical.c:258-301 | a concrete message that canonicalizes, and whose canonical words do not |
| CanonicalFramed.CanonicalizeFramed | src/capnp_canonical.c:303-326 | the framed output is the stream framing of the canonical words as one segment |
| CanonicalFramed.FlatParses | src/capnp_canonical.c:303-326 | one segment survives its framing if and only if its size fits the 32 bits of the segment table |
| CanonicalFramed.FramedExactly | src/capnp_canonical.c:303-326 | for every message that canonicalizes with offsets that fit: the framed bytes parse back to the canonical words if and only if their count fits the table; canonicalizing those gives the same bytes, and succeeds if and only if the budget covers `RewriteCost` |
| CanonicalFramed.FramedTwice | src/capnp_canonical.c:303-326 | for messages whose looks charge for what they reach, the framed bytes parse back, and canonicalizing again succeeds with the same bytes |
| CanonicalLayout.SpansTile | src/capnp_canonical.c:105-256 | the bodies of a tree, from any word on, follow each other in preorder with no gap and no overlap, over exactly its size |
| CanonicalLayout.ReachedAre | src/capnp_canonical.c:105-256 | the objects a reader reaches from a slot of an encoding, by following every pointer in preorder, are at the words its tree says, with the same extents |
| CanonicalLayout.HoldsPlain | src/capnp_canonical.c:210-256 | every slot reached from a slot of an encoding is null or a struct or list pointer, and leads to an object of the segment |
| CanonicalLayout.CanonicalForm | src/capnp_canonical.c:258-301 | of the output words: every slot reached from word 0 holds null or a struct or list pointer; the root word and the objects those pointers lead to tile the output in preorder with no gap and no overlap; and every struct and composite list in it, at any depth, is tight |
| CanonicalLayout.StructEndsMatter | src/capnp_canonical.c:49-70 | a struct of its own trimmed size has a data section that ends in a nonzero word and a pointer section that ends in one that is not null |
| CanonicalLayout.RowEndsMatter | src/capnp_canonical.c:72-88 | in a composite list of its own trimmed size some row needs every data word, and some row every pointer |
| CanonicalLayout.NormalTight | src/capnp_canonical.c:49-88 | so it is at every depth of a value in normal form |
| Arena.Builder.SegEnsure | src/capnp_builder.c:29-56 | gives room for the words asked for exactly when the segment exists and they fit its capacity or the limit; words in use stay, capacity past them is zero, and the new capacity is given exactly |
| Arena.Builder.AppendSegment | src/capnp_builder.c:58-76 | adds one empty segment of the asked capacity, between one word and the limit |
| Arena.Builder.AllocWords | src/capnp_builder.c:78-117 | n zero words at the end of the last segment or alone in a new one; succeeds exactly when `MayAlloc` says, and leaves segments of exactly the sizes `AllocSizes` says |
| Arena.Builder.AllocIn | src/capnp_builder.c:119-133 | n zero words at the end of a given segment, exactly when they fit the limit |
| Arena.Builder.AllocPadSegment | src/capnp_builder.c:138-154 | a new segment of the pad's words even past a smaller limit, which is restored |
| Arena.AllocatedKeeps | src/capnp_builder.c:78-133 | an allocation changes no earlier word, and what it hands out is zero and was not there before |
| Arena.Builder.StorePtr | src/capnp_builder.c:164-222 | which of the three pointer forms is written, and the whole new contents of the arena |
| Arena.Builder.WritePtr | src/capnp_builder.c:164-222 | whatever the form, the independent resolver leads from the slot to exactly the body and dimensions asked for, at a bounded charge; every other word that was there is unchanged; and segments have exactly the sizes `LinkSizes` says |
| Targets.NearLook | src/capnp_builder.c:164-176 | the near form resolves to the body |
| Targets.FarLook | src/capnp_builder.c:177-183 | a far pointer to a pad beside the body resolves to the body, by way of that pad only |
| Targets.DoubleFarLook | src/capnp_builder.c:184-192 | a double-far pointer to a two-word pad elsewhere resolves to the body |
| Frames.LookFrame | src/capnp_message.c:127-306 | a pointer resolves the same as long as the words it is followed through are left alone and segments only grow |
| Sessions.StepInv | src/capnp_builder.c:78-222 | an allocation, a pointer write or a data store keeps every earlier pointer resolving and every block apart from the others |
| Sessions.RunInv | src/capnp_builder.c:78-222 | so does every run of them from an empty arena: all blocks handed out are pairwise disjoint |
| Sessions.PointerForever | src/capnp_builder.c:164-222 | in every run a pointer, once written, resolves at every later moment to the body it was written for |
| SessionBuilder.Allocate | src/capnp_builder.c:78-117 | a builder's allocation is a step of its session, whose invariant it keeps |
| SessionBuilder.LinkTo | src/capnp_builder.c:164-222 | so is writing a pointer to any body inside the arena from any slot no earlier pointer goes through |
| SessionBuilder.SetWord | src/capnp_builder.c:156-158 | so is storing a data word |
| Framer.StoreLE32 | include/capnp-janet/capnp_pointer.h:41-46 | writes the four bytes of a number after what is there |
| Framer.Serialize | src/capnp_builder.c:729-760 | the framed bytes of the words in use of every segment; refused exactly for an empty message |
| Framer.ParseFrame | src/capnp_message.c:48-91 | parses framed bytes to segments, with the framing errors of `Parse` |
| Framing.ParseFlat | src/capnp_message.c:48-91 | parsing the framing of 1 to 16 segments restores every segment, whatever bytes follow |
| Framing.ParsesIffFrames | src/capnp_message.c:48-91 | a reader takes exactly the bytes that frame a message of 1 to 16 segments (a count, each size, each segment's bytes in order, any padding, anything after them), and reads that message |
| Framing.FlatFrames | src/capnp_builder.c:729-760 | the framed form the builder writes is one |
| Framing.TableWords | src/capnp_builder.c:729-760 | the segment table is 8 * (n / 2 + 1) bytes: four of padding for an even number of segments |
| Framing.ParseTooMany | src/capnp_message.c:53 | the framing of more than 16 segments is refused |
| TextEndToEnd.SeventeenSegments | src/capnp_builder.c:58-117 | a builder run that makes 17 segments; the parse of its framing is ErrFraming, which is what the reader returns |
| Texts.TextBlockReads | src/capnp_message.c:497-543 | the block written for any bytes, NULs included, reads back as those bytes |
| Texts.TextBlockBytes | src/capnp_builder.c:445-457 | its bytes are the text's, at least one zero, and zeros to the end of the last word |
| Texts.HoldsKept | src/capnp_builder.c:445-457 | a text stays readable while other words that were there before it change |
| TextBuilder.WriteTextAt | src/capnp_builder.c:445-457 | after it the slot leads to a block holding the text, all in words that were not there before, and nothing else changed |
| TextBuilder.WriteTexts | src/capnp_builder.c:668-678 | after the element loop every slot of the list holds its own text |
| TextBuilder.SetListTextN | src/capnp_builder.c:650-679 | after it the slot leads to a pointer list whose elements hold the texts; ErrBounds exactly for a slot outside the segment; when it cannot fail |
| TextEndToEnd.BuilderRoot | src/capnp_builder.c:271-282 | the root word of an empty message; ErrArg for one that has words; when it is granted exactly, and what a refusal leaves |
| TextEndToEnd.BuilderStruct | src/capnp_builder.c:284-315 | after it the slot leads to a struct of the asked size in words that were not there before; the zero-size struct is its own case |
| TextEndToEnd.ListGetText | src/capnp_message.c:497-543 | item i of a pointer list, or the first pointer of row i of a composite list, as text without its trailing NUL; every error case |
| TextEndToEnd.ItemReads | src/capnp_message.c:497-543 | from the slot of a written list, item i reads as text i, for every i |
| TextEndToEnd.RowText | src/capnp_message.c:497-543 | in a composite list the text of a row is at its first pointer, the word after its data; without pointers it is empty |
| TextEndToEnd.ListTextRoundTrip | src/capnp_builder.c:650-760 | for all texts, any first-segment size and struct size and every i: build, serialize, parse, root, getp and read item i. The number of segments is what `SegmentsOf` counts from the inputs; it is ErrFraming if and only if that is over 16; it gives text i whenever it succeeds, as it does with at most 16 when the budget covers the path |
| Spending.SpentAlloc | src/capnp_builder.c:78-117 | an allocation adds the words asked for, and stays in one segment exactly if they fit; segments keep doubling in size, each begun when the one before could not hold the next block |
| Spending.SpentLink | src/capnp_builder.c:164-222 | writing a pointer adds at most one word of pad |
| Spending.FewSegments | src/capnp_builder.c:94-117 | doubling segments of no more words than the largest segment has, and no more than 32768 times the first, are at most 16 |
| Spending.GrownDoubles | src/capnp_builder.c:29-56 | a segment that must hold more doubles its capacity as often as that takes and no more, up to the limit |
| Spending.PadFills | src/capnp_builder.c:164-222 | a pointer takes another segment exactly when there is no room for its pad beside the body; that segment is the pad |
| Spending.MessageSpent | src/capnp_builder.c:650-679 | a message of a struct and a list of objects is one segment if and only if its first holds the words asked for, and at most 16 if those and the pads are within what 16 doubling segments hold |
| ListViews.ListGetStruct | src/capnp_message.c:670-730 | the struct view of an element, or the error, as `ElementView` defines it, of any list, also one that starts before its segment |
| ListViews.ElementsInside | src/capnp_message.c:233-291 | every element of a list that starts and ends in its segment has its data in the segment |
| ListViews.WhichHaveViews | src/capnp_message.c:670-723 | elements of no bytes and single bits have no struct view; every other element within the count has |
| ListViews.ViewCovers | src/capnp_message.c:346-363 | the data section of a view is exactly the element's own bytes, inside the segment |
| ListViews.ReadsOwnElement | src/capnp_message.c:356-420 | any scalar or bool read on a view, at any offset and width, is unaffected by every byte outside that element |
| ListViews.ReadsBytes | src/capnp_message.c:371-420 | a number read inside an element is the one whose little-endian bytes are the element's bytes at that offset |
| ListViews.ReadsBit | src/capnp_message.c:356-370 | bool i of an element is bit i % 8 of its byte i / 8 |
| ListViews.DefaultBeyond | src/capnp_message.c:356-420 | any read past the element's own bytes gives the default |
| ListViews.ViewReadsAsList | src/capnp_message.c:580-627 | reading the view at 0 gives what the list read of that width gives, exactly unless the element is wider than the read; then the view gives its low bytes and the list read the default |
| ListViews.ViewPointers | src/capnp_message.c:707-713 | pointer 0 of a pointer list's view resolves as the list element does, with the same charge and errors; views have no other pointers |
| ListViews.ViewOfRow | src/capnp_message.c:691-696 | the view of a composite list's element is that row |
| Packed.TagExtremes | src/capnp_packed.c:7-27 | a tag is 0 exactly for the zero word and 255 exactly for a word without zero bytes |
| Packed.TagSum | src/capnp_packed.c:7-27 | bit k of a tag, the lowest first, is set exactly for a nonzero byte k |
| Packed.ZeroRunIs | src/capnp_packed.c:76-82 | a zero run is the longest one up to its cap |
| Packed.DenseRunIs | src/capnp_packed.c:83-90 | a verbatim run is the longest run of words with fewer than two zero bytes up to its cap |
| Packed.ZeroItem | src/capnp_packed.c:76-82 | a zero word and all zero words after it, up to 256 in all, become two bytes: 0 and how many more |
| Packed.DenseItem | src/capnp_packed.c:83-90 | a word without zero bytes, and all words of at most one zero byte after it, up to 256 in all, become 255, the word, how many more, and those as they are |
| Packed.OtherItem | src/capnp_packed.c:70-75 | any other word becomes its tag and its nonzero bytes |
| Packed.ZerosPack | src/capnp_packed.c:76-82 | n zero words pack to 2 * ((n + 255) / 256) bytes |
| Packed.RoundTrip | src/capnp_packed.c:29-201 | for every word-aligned input, unpacking the packed bytes succeeds and gives the input |
| Packed.PackBound | src/capnp_packed.c:50-96 | 2L <= 17n + 3 for n words packed to L bytes, by an induction with one bound for each state of the loop |
| Packed.BoundAttained | src/capnp_packed.c:16-27 | the bound is attained for every odd n |
| Packed.UnpackExpansion | src/capnp_packed.c:122-197 | unpacked output is a whole number of words and at most 1024 times the input |
| Packed.UnpackComposes | src/capnp_packed.c:122-197 | unpacking a + b is unpacking a, then b, whenever a is accepted |
| PackedCodec.Pack | src/capnp_packed.c:29-100 | the array loops produce the packed bytes, growing the buffer only at the loop head; refused exactly for unaligned input |
| PackedCodec.PackItem | src/capnp_packed.c:60-95 | one iteration stays within the room the loop head ensured and appends one item: a word, or a word and its run |
| PackedCodec.TagWord | src/capnp_packed.c:62-69 | the tag and the number of nonzero bytes |
| PackedCodec.EmitWord | src/capnp_packed.c:70-74 | the tag byte and the bytes it announces are appended |
| PackedCodec.CountZeroRun | src/capnp_packed.c:76-80 | counts the run of zero words up to 255 |
| PackedCodec.CountDenseRun | src/capnp_packed.c:84-88 | counts the run of words with fewer than two zero bytes up to 255 |
| PackedCodec.Unpack | src/capnp_packed.c:102-201 | the array loop produces the unpacked bytes or the packed error; the final alignment error cannot happen |
| PackedCodec.UnpackItem | src/capnp_packed.c:134-192 | one iteration stays within the room the loop head ensured, so both later growth branches cannot be reached |
| PackedCodec.ExpandInto | src/capnp_packed.c:136-145 | the eight bytes of one tagged word, or the error at the end of the input |
| Connections.Connection.ExportCapability | src/capnp_rpc.c:142-164 | the in-place table after an export and the id, as `ExportCap` defines them |
| Connections.Connection.ResolveTarget | src/capnp_rpc.c:172-267 | the export a target names, directly or through a kept answer, or -1 |
| Connections.Connection.SendAnswer | src/capnp_rpc.c:330-351 | the Return is sent, and kept in the first free slot if it fits one |
| Connections.Connection.HandleBootstrap | src/capnp_rpc.c:402-425 | whole new state and Returns of a Bootstrap |
| Connections.Connection.HandleCall | src/capnp_rpc.c:548-590 | whole new state, the call into the server and the Returns of a Call |
| Connections.Connection.HandleFinish | src/capnp_rpc.c:321-326 | the first answer kept for the question is dropped, nothing else |
| Connections.Connection.HandleRelease | src/capnp_rpc.c:592-601 | the count, taken as a signed int, is deducted; at zero or below the export is free |
| Connections.Connection.FindJoinSlot | src/capnp_rpc.c:637-653 | the slot of the set or a fresh one, and the table after opening it |
| Connections.Connection.CompleteJoin | src/capnp_rpc.c:657-678 | all Returns of a complete set, the reference gained and the freed slot |
| Connections.Connection.SendJoinResult | src/capnp_rpc.c:604-633 | one JoinResult, and the reference that goes with a capability |
| Connections.Connection.HandleJoin | src/capnp_rpc.c:680-715 | whole new state and Returns of a Join |
| Connections.Connection.HandleProvide | src/capnp_rpc.c:1223-1258 | whole new state of connection and vat, and the Return, of a Provide |
| Connections.Connection.HandleAccept | src/capnp_rpc.c:1264-1320 | the same of an Accept, with or without embargo |
| Connections.Connection.HandleDisembargo | src/capnp_rpc.c:1324-1355 | the same of a Disembargo that names a Provide |
| Connections.Connection.HandleMessage | src/capnp_rpc.c:1379-1442 | the same of any message, by its handler |
| Network.Deliver | src/capnp_rpc.c:1379-1442 | for connection objects that share a vat, a message handled on one is one event of the vat: the others' tables and outboxes stay as they are |
| ExportLaws.ExportKeeps | src/capnp_rpc.c:142-164 | exporting keeps every export in use, for the same object, gives the one id of the object, and fails exactly when the object is new and all slots are in use |
| ExportLaws.ExportTwice | src/capnp_rpc.c:142-164 | exporting an object again gives the same id and one more reference, whatever dispatch is passed |
| ExportLaws.ExportsStay | src/capnp_rpc.c:1379-1442 | every message keeps exports in use with a reference and pairwise distinct servers; only a Release can end one |
| ExportLaws.ServerStays | src/capnp_rpc.c:592-601 | no message changes the object of an export that stays in use |
| ExportLaws.AgreedIsLive | src/capnp_rpc.c:657-712 | the part that completes an agreeing set has just resolved to the set's export, which is therefore in use |
| ExportLaws.BootstrapIsLive | src/capnp_rpc.c:402-425 | a Bootstrap is answered with an export in use for the bootstrap object, or refused |
| ExportLaws.AcceptIsLive | src/capnp_rpc.c:1264-1320 | an Accept without embargo is answered with an export in use, of its own connection, for the object provided under its nonce, or refused with nothing changed |
| ExportLaws.JoinIsLive | src/capnp_rpc.c:604-678 | a completed set answers every part with one verdict; one capability goes out if the parts agree and none if not; its export is in use and gains one reference |
| ExportLaws.ReturnKept | src/capnp_rpc.c:330-351 | a Return short enough, sent when there is room and none is kept for its question, is the one later found |
| ExportLaws.NoneKept | src/capnp_rpc.c:330-351 | when none is kept for a question, none is after any message but one that answers it with a Return short enough, with room for it |
| ExportLaws.FinishDrops | src/capnp_rpc.c:312-328 | a Finish drops one Return kept for its question if there is one, which makes room for another, and changes nothing else: those of other questions stay |
| ExportLaws.AnswerStays | src/capnp_rpc.c:312-351 | the Return found for a question stays the same under every message but its Finish or another Return to it |
| Pipelining.TargetResolves | src/capnp_rpc.c:196-267 | a pipelined target resolves to an export if and only if a Return is kept for its question, its transform leads, step by step, to a capability whose descriptor names the export, and that is in use |
| Pipelining.DeadEnd | src/capnp_rpc.c:226-245 | a step into what is no struct, or one that cannot be read, makes the target name nothing |
| Pipelining.DirectTarget | src/capnp_rpc.c:172-191 | a target that names an export directly resolves to it if and only if it is in use |
| Pipelining.CallReaches | src/capnp_rpc.c:548-590 | a call goes to the object and dispatch of the export its target resolves to, and is refused if there is none |
| Refusals.Exports | src/capnp_rpc.c:142-164 | exporting adds one reference to the object's export, or makes a first one in a free slot for exactly that object and dispatch; it fails exactly when neither is there |
| Refusals.BootstrapRefused | src/capnp_rpc.c:402-425 | a Bootstrap is refused exactly when there is no bootstrap object, or no room to export it |
| Refusals.ProvideAccepted | src/capnp_rpc.c:1223-1258 | a Provide is accepted exactly when its target resolves, it names a recipient, and the vat has a free slot; then that slot holds what the target names under that nonce, and no other slot changes |
| Refusals.AcceptClaims | src/capnp_rpc.c:1264-1320 | an Accept claims the first provision that waits under its nonce, if it can be exported: held with an embargo, answered and free again without one |
| Refusals.AcceptRefused | src/capnp_rpc.c:1264-1280 | it is refused, with nothing changed, if none waits |
| Refusals.DisembargoAnswers | src/capnp_rpc.c:1324-1355 | a Disembargo answers the first Accept held for the Provide it names and frees its slot |
| Refusals.DisembargoNothing | src/capnp_rpc.c:1324-1355 | it does nothing if none is held |
| Refusals.PartTaken | src/capnp_rpc.c:637-705 | a part is taken exactly when its key makes sense and a set of its id and count waits for it, or none has its id and there is room for one |
| Refusals.PartAnswered | src/capnp_rpc.c:680-715 | a part not taken gets one JoinResult that failed and changes nothing; one that is taken is answered exactly when it is the last its set waited for |
| Refusals.JoinWithoutKey | src/capnp_rpc.c:680-691 | a Join without a key is refused |
| Refusals.ReleaseTakesCount | src/capnp_rpc.c:592-601 | a Release of n below 2^31 takes n references, and frees the export exactly if those are all |
| Refusals.ReleaseAdds | src/capnp_rpc.c:592-601 | from 2^31 on the count is negative, and adds references |
| Refusals.ReleaseNothing | src/capnp_rpc.c:592-601 | a Release of an export not in use does nothing |
| JoinLaws.Added | src/capnp_rpc.c:637-712 | an accepted part joins its own set, which counts it once and whose join id no other set has |
| JoinLaws.AllSeen | src/capnp_rpc.c:711 | as many parts as the set has means every part |
| JoinLaws.JoinKeeps | src/capnp_rpc.c:637-715 | a Join keeps sets distinct, with 1 <= nseen < part_count <= 16 and nseen equal to the parts seen |
| JoinLaws.VerdictsAnswer | src/capnp_rpc.c:657-678 | the verdicts of a complete set answer exactly its parts' questions |
| JoinLaws.JoinConserves | src/capnp_rpc.c:680-715 | as multisets of question ids: those waiting and the new one are those answered and those still waiting |
| HandoffLaws.QuestionsConserved | src/capnp_rpc.c:1379-1442 | under every message, as multisets: questions outstanding and asked are those answered, outstanding after, and dropped by a failed dispatch |
| HandoffLaws.CallReturns | src/capnp_rpc.c:548-590 | a Call gets a Return if and only if its target does not resolve or dispatch succeeds |
| HandoffLaws.GrantsConserved | src/capnp_rpc.c:1223-1355 | under every message: grants held and granted are those completed and held after |
| HandoffLaws.GrantsSplit | src/capnp_rpc.c:1357-1377 | the grants a vat holds are the unclaimed ones and the embargoed ones |
| HandoffLaws.HoldStays | src/capnp_rpc.c:1324-1355 | an Accept held under an embargo is unchanged by every message but a Disembargo naming its Provide, on any connection |
| Vats.StepOk | src/capnp_rpc.c:1379-1442 | every event of a vat keeps every connection's tables in order |
| Vats.RunOk | src/capnp_rpc.c:1379-1442 | in every state of every run: used exports have distinct servers and a reference, Join sets are distinct, begun, incomplete and counted right |
| Questions.EveryQuestion | src/capnp_rpc.c:1379-1442 | over every run, on each of any number of connections and between any two moments: the questions outstanding and asked since are those answered, those outstanding, and the calls whose dispatch failed |
| Questions.EveryQuestionAsked | src/capnp_rpc.c:1379-1442 | so in every run, on each connection, the questions asked since the start are those answered, those outstanding, and the calls whose dispatch failed |
| Questions.AtMostOneReturn | src/capnp_rpc.c:1379-1442 | a question of a connection that is not outstanding and is asked once from then on gets at most one Return, whatever other connections ask |
| Questions.EmbargoHolds | src/capnp_rpc.c:1281-1308 | an Accept claimed under an embargo, whose question is not outstanding on its connection and not asked there again meanwhile, gets no Return until a Disembargo names the Provide it claimed, and never more than one |
| Questions.SentToAsker | src/capnp_rpc.c:1379-1442 | apart from lifted embargoes, every Return sent on a connection answers a question of that connection |
| Questions.LiftGoesTo | src/capnp_rpc.c:1336-1350 | the Return that lifts an embargo is sent on the connection that received the Disembargo, and so to the asker if and only if that is the one the Accept came on |
| Scenarios.LiftedElsewhere | src/capnp_rpc.c:1336-1350 | a concrete run of two connections in which it goes to the other one |
| Scenarios.CallUnanswered | src/capnp_rpc.c:581-589 | a concrete run in which a Call that resolves gets no Return and is not outstanding either, because dispatch failed |
| Vats.EveryGrant | src/capnp_rpc.c:1223-1355 | over every run on any number of connections: accepted Provides are the unclaimed ones, the embargoed ones and the completed claims |
| Vats.ClaimedAtMostOnce | src/capnp_rpc.c:1264-1320 | a Provide is claimed no more often than it was accepted, on whichever connections |
| Pipelining.PipelinedCall | src/capnp_rpc.c:196-267 | in every run a call pipelined on any Return that was kept reaches the export its transform leads to there, if that is in use, and is refused if it leads to none; until the question's Finish or another Return to it |
| Pipelining.PromisedObject | src/capnp_rpc.c:142-164 | that export serves the object it served when the Return was sent, as long as it stays in use |
| Pipelining.FinishedCall | src/capnp_rpc.c:312-328 | in every run, once the only Return kept for a question is finished, every call pipelined on it is refused, until another Return to it is kept |
| JoinRuns.EveryJoin | src/capnp_rpc.c:604-715 | over every run, on each connection: Joins received are JoinResults sent plus the sum of nseen over the sets in use |
| JoinRuns.PartAsked | src/capnp_rpc.c:680-712 | every part in a set came with an earlier Join of that id, count and number, with its question and what its target named then, and has been in the set since |
| JoinRuns.JoinVerdict | src/capnp_rpc.c:657-678 | when a Join completes a set, every Join of the set gets exactly one Return with one verdict: true exactly when all their targets named the same export on arrival; each of those Joins has been in this very set since it arrived, so no earlier set of the same id is meant; the first Return carries that export, in use, with one more reference |
| HandoffRuns.ProvidedBefore | src/capnp_rpc.c:1223-1258 | every capability a vat holds was provided by an earlier accepted Provide |
| HandoffRuns.GrantNames | src/capnp_rpc.c:1241-1252 | and is the object that Provide's target named on its own connection at the time |
| HandoffRuns.ClaimNames | src/capnp_rpc.c:1282-1320 | an Accept answered with a capability names an export in use, on the accepting connection, for the object some earlier Provide put under its nonce |
| HandoffRuns.EmbargoLifts | src/capnp_rpc.c:1324-1355 | the Disembargo naming the Provide of a held Accept sends exactly one Return, with the Accept's question and the export made for it |
| HandoffRuns.BootstrapNames | src/capnp_rpc.c:402-425 | in every run a Bootstrap answered with a capability names an export in use for the bootstrap object |
| EmbargoLimits.LiftedLive | src/capnp_rpc.c:1336-1350 | the export a lifted embargo names is in use, for the object provided, if no Release of it arrived on the accepting connection since the Accept; and if and only if its references, those given out less those released, stayed positive at every step, or the object was exported to the same slot again and they stayed positive since |
| EmbargoLimits.InUseAgain | src/capnp_rpc.c:142-164 | in every run an export is in use for the same object at a later moment if and only if its references stayed positive, or a later event exported the object to the slot again and they stayed positive since |
| EmbargoLimits.UnreleasedInUse | src/capnp_rpc.c:592-601 | in every run an export in use stays in use while no Release of it arrives |
| Scenarios.LiftedAfterRelease | src/capnp_rpc.c:1336-1350 | a concrete run in which it has been released, and the Return names an export not in use |
| Scenarios.LiftedAfterReturn | src/capnp_rpc.c:1336-1350 | a concrete run in which it has been released and exported again, and the Return names an export in use |
| References.ReferencesCounted | src/capnp_rpc.c:142-164 | under every message the references on every export grow by one when the outcome names it, takes it for a Provide or claims it under an embargo, and fall by what a Release says, to none and a free slot at least |
| References.ReferencesSince | src/capnp_rpc.c:592-601 | in every run, while an export stays in use, its refcount is what it was, plus the references given out since, less those released since |
| References.InUseExactly | src/capnp_rpc.c:592-601 | in every run an export in use stays in use from one moment to another if and only if its references, plus those given out, less those released, are positive at every step between |
| StreamSender.Caller.ClaimQuestion | src/capnp_rpc.c:797-811 | the first free question and the next id, which wraps at 2^32 |
| StreamSender.Caller.SendFinish | src/capnp_rpc.c:1020-1036 | frees the question and sends its Finish |
| StreamSender.Caller.HandleReturn | src/capnp_rpc.c:1121-1139 | records a Return against the first question in use with its id: answered, and failed unless it had results; others, and ones too long, are dropped |
| StreamSender.Caller.HasResults | src/capnp_rpc.c:1056-1066 | whether the question has been answered with results |
| StreamSender.Stream.Shift | src/capnp_rpc.c:1161-1164 | the in-place shift leaves the outstanding ids without their oldest |
| StreamSender.Stream.Retire | src/capnp_rpc.c:1155-1173 | whole new state and Finish of retiring the oldest call |
| StreamSender.Stream.Send | src/capnp_rpc.c:1175-1195 | whole new state, frames and outcome of a stream send |
| StreamSender.Stream.Finish | src/capnp_rpc.c:1197-1202 | whole new state, frames and outcome of draining the window |
| Streams.StepQueue | src/capnp_rpc.c:1143-1202 | every operation keeps the window a bounded queue |
| Streams.StreamIsQueue | src/capnp_rpc.c:1143-1202 | in every run: 1 <= window <= 64, nout <= window, and the calls in the order sent are the Finishes in the order sent followed by the outstanding ids; failed, have_failure and first_failure tell the first call retired without results |
| Streams.CallsAccounted | src/capnp_rpc.c:1189-1193 | calls sent equal Finishes sent plus nout if and only if no call was given the id reserved for failure |
| Streams.LostCall | src/capnp_rpc.c:797-811 | a run from a fresh connection in which a Call is given the reserved id: it is sent, reported as a failure, and never counted as outstanding |
| Streams.NoCallAfterFailure | src/capnp_rpc.c:1181-1188 | in every run no Call is sent once a failure is recorded, which lasts |
| Streams.EarliestIs | src/capnp_rpc.c:1165-1171 | the recorded failure is the first retired call without results: all before it had them |
| StreamVerdicts.SlotHeard | src/capnp_rpc.c:1121-1139 | in every run a question counts as answered with results if and only if the last Return heard of it since it was asked had results |
| StreamVerdicts.HeardOf | src/capnp_rpc.c:1121-1139 | the Return heard of a question carries its id |
| StreamVerdicts.Judged | src/capnp_rpc.c:1155-1173 | a call retired counts as good if and only if the last Return heard of its question since it was asked had results; of questions in use that share an id the first is meant |
| StreamVerdicts.FinishHeard | src/capnp_rpc.c:1197-1202 | in every run finishing returns OK if and only if, of every call the stream retired, the last Return heard since it was asked had results; otherwise first_failure is the first of which that is not so |
| StreamVerdicts.SendSends | src/capnp_rpc.c:1175-1195 | a Send retires a call exactly when the window is full, and then its oldest; it puts a Call with the next id exactly when the stream has not failed and a question is free; what it returns in each case |
| StreamVerdicts.WindowSize | src/capnp_rpc.c:1143-1152 | in every run the window is as wide as asked for, but from 1 to 64 |

## Left out

- Canonicalizer.Canonicalize: requires that the data words a message leads to lie inside it (`MessageSound`), because the resolver does not check every extent behind a double-far pad, nor where a plain list starts.
- CanonicalTheorems.MeaningPreserved: requires that the offsets written fit their field; `CanonicalLimits.MeaningExactly` shows that this is needed.
- CanonicalLimits.MeaningExactly: states the "only if" for outputs of up to 2^30 words; past that an offset that wraps around may land on words that happen to mean the same.
- CanonicalTheorems.CanonicalIffSameValue: the "only if" supposes that the offsets of both fit; words with an offset cut to its field have no value up to 2^30 words (`CanonicalLimits.MeaningExactly`).
- CanonicalIdempotence.CanonicalTwice: the case in which a second run always succeeds; `Rewrites.TwiceExactly` is the general one.
- Rewrites.TwiceExactly: supposes that the offsets written fit; otherwise outputs of up to 2^30 words have no value to canonicalize (`CanonicalLimits.MeaningExactly`).
- Extents.PlainResolves: supposes that the list does not start before its segment, where the code lets a size_t wrap around; `LookList` says what happens then, from the last word alone.
- Arena.Builder.AppendSegment: a segment count of 2^32 is reported as an allocation failure, where the code would wrap around.
- Arena.Builder.SetMaxSegWords: the limit is required to be at most 2^29 words; the code takes any, and offsets then need not fit.
- Connections.Connection.HandleCall: what dispatch writes, and whether it succeeds, is a parameter of the message.
- HandoffRuns.EmbargoLifts: when two held Accepts have Provides of the same question id, it is about the first.
- Allocation failure, `send` failure and arithmetic past the width of size_t: allocation and sending succeed, sizes are unbounded.
- Memory: a growing C buffer is a `seq` field in the builder and the canonical output, and an array that is replaced in the packed codec; freeing it is not modelled.
- The byte layout of RPC messages: messages are datatypes; the byte layer is what the builder, framing and resolver modules cover.
- Introductions (`note_introductions`) and host names: table copies.
- The echo of a senderLoopback Disembargo and the Unimplemented reply: they change no table.
- The client calls besides those a stream uses: bootstrap, provide, accept and disembargo requests only claim a question and send a frame.
- Reads of floating-point fields and lists: the same bytes as the 32- and 64-bit reads.
- Text and data fields and the other list setters of the builder: one allocation, one pointer and one run of stores each, as for List(Text).
- Deep copy into a slot outside the last segment, and of upgrade views: the rewrite never does either.
- `src/janet_mod.c`, `janet/` and `app/capnpc_janet.c`: bindings and code generation over the calls modelled here.
- The object behind a recycled export id between the parts of a Join: the code compares ids, and so does the model.
