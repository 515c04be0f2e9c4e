# Wire formats and document engines of the lobby server, in Dafny

The lobby server exchanges FlatBuffers messages with its peers and handles JSON documents. This
project models the engines that do that work and proves what they are relied on for:

- **FlatBuffers.** The builder writes a buffer from its end towards its start, on top of a scratch stack
  that shares the same allocation; it shares equal vtables and equal strings. Bytes are addressed by their
  distance from the END of the buffer, as the builder's offsets are, so everything already built survives
  further building by a frame lemma. `BuilderModel` holds the builder's state as a value with one function a
  step; the classes `VectorDownward` and `FlatBufferBuilder` are the mutable objects, proved to take exactly these steps;
  `BuilderRuns`, `TableRoundTrip`, `VerifierModel`, `VerifierAccepts` and `BuiltBuffersVerify` hold the theorems about whole
  runs, the reader and the verifier, which accepts exactly what is specified without it; `ServerProtocol` and `LobbyServerProtocol` instantiate them for the
  messages that the server sends.
- **FlexBuffers.** A stack machine writes a self-describing tree in which each vector has the least element
  width that fits. `FlexWidths` proves that the search for that width succeeds and that what is written fits,
  `FlexLeast` that nothing narrower would do,
  `FlexRoundTrip` that reading back from the last byte yields the tree, `FlexSharing` that a tree's equal keys and
  equal strings share one offset, and `FlexBuilder` that the mutable builder produces those bytes.
- **JSON.** `StringEscape`, `JsonPointer`, `JsonPatch`, `JsonOperations`, `JsonDiff`, `JsonFlatten`, `MergePatch` and
  `JsonDestroy` cover RFC 6901, RFC 6902 and RFC 7396 as the JSON library implements them, and the iterative
  destruction of a value.
- **UTF-8.** `Utf8` and `EscapeText` cover the bit-level conversions, against RFC 3629, and the escaping of
  arbitrary bytes as a JSON string, against RFC 8259.

Code that changes things step by step is a method or a class, proved equal to a function; what the code
promises is then proved about that function.

## Findings

Where the code does less than its documentation says, the model follows the code, a lemma shows a concrete
input or the exact condition, and the property is proved for the rest.

- `unflatten(flatten(j)) == j` fails for more objects than those with empty containers: an object whose first
  visited member is named `0` comes back as an array, `{"0": null}` for one (`JsonFlatten.UnflattenMakesArray`).
  `JsonFlatten.FlattenRoundTrip` gives the exact condition, a property of `j` alone.
- `operator==` compares a signed with an unsigned number after a cast to 64 signed bits, so
  `diff(-1, 18446744073709551615)` is empty (`JsonDiff.DiffMissesWrappedNumber`). Applying a diff always yields
  a document that is `==` to the target, and the target itself exactly when no such pair of numbers meets.
- A patch can `add` below an existing string, number or boolean. The comment at
  `Common/Library/nlohmann/json.hpp:4840` calls this impossible; it reaches the assertion there, exactly for such
  parents (`JsonPatch.AddAssertsBelowPrimitives`, and `JsonPatch.AddBelowNumberAsserts` for an input).
- A `remove` below an existing null, string, number or boolean succeeds and changes nothing, although there is no
  such value (`JsonPatch.RemoveIgnoresPrimitives`, an iff; `JsonPatch.RemoveBelowNumber` for an input).
- A patch operation that throws can have changed the document: a `move` whose target is rejected has removed its
  source already. `JsonPatch.FailureKeepsDocument` says exactly when, by the guards of the code;
  `JsonPatch.RejectedMoveLosesSource` is an input.
- With `natural_utf8`, control characters are copied unescaped, which RFC 8259 forbids
  (`EscapeText.NaturalCopiesControls`); `EscapeText.EscapeRoundTrip` says exactly when nothing is lost.
- The size of a vtable is a 16-bit number. For the largest field identifier that is let through, 65534, it wraps:
  the vtable has 4 bytes, and the field's slot is outside of it (`BuilderModel.LargestFieldWraps`). The vtable
  covers every field exactly when this identifier is not used (`BuilderModel.CoversUnlessLargest`), and a table can be
  built exactly when it does not store that field and is small enough (`BuilderRuns.StepFailsOnlyOnSize`).
- A response time of negative zero is equal to its default, is not stored, and arrives as zero; every other message
  arrives as it was sent (`ServerProtocol.ReceivedIsSent`).

## Model

| member | source | states |
|---|---|---|
| `Bytes.ReadsBack` | Common/Library/flatbuffers/base.h:424-443 | a scalar written with WriteScalar reads back as the value truncated to its width |
| `Bytes.WritesBack` | Common/Library/flatbuffers/base.h:424-443 | writing back a scalar that was read reproduces its bytes |
| `Alignment.AlignmentsArePowersOfTwo` | Common/Library/flatbuffers/base.h:352-356 | the alignments let through are exactly 1, 2, 4, 8, 16 and 32 |
| `Alignment.PaddingIsLeast` | Common/Library/flatbuffers/base.h:457-460 | for every power of two below 2^64, PaddingBytes (two's complement and mask) is the LEAST padding that makes the size divisible |
| `StringOrder.EquivalentIsEqual` | Common/Library/flatbuffers/buffer.h:79-83 | neither of two strings precedes the other exactly when they are byte-equal |
| `StringOrder.LessTransitive` | Common/Library/flatbuffers/buffer.h:79-83 | StringLessThan is transitive, hence a strict total order on contents |
| `StringOrder.LessIsLexicographic` | Common/Library/flatbuffers/buffer.h:79-83 | StringLessThan is the lexicographic order on bytes: the first difference decides, or the end of the shorter string |
| `DownwardVector.RoundUpIsMask` | Common/Library/flatbuffers/vector_downward.h:275-275 | for every power of two, the bit mask applied to a new capacity is rounding up to the least multiple of it |
| `DownwardVector.GrownIsLeast` | Common/Library/flatbuffers/vector_downward.h:269-275 | the new capacity is the least aligned one that has room for len more bytes and for half as much again, or the initial size |
| `DownwardVector.MemcpyDownward` | Common/Library/flatbuffers/allocator.h:57-63 | both used ends arrive at both ends of the new memory |
| `DownwardVector.ReallocateDownward` | Common/Library/flatbuffers/allocator.h:41-50 | a fresh, larger allocation with the same bytes at both ends |
| `DownwardVector.VectorDownward.EnsureSpace` | Common/Library/flatbuffers/vector_downward.h:141-148 | at least len bytes are free afterwards, both stacks are untouched, and the capacity grows only when it must |
| `DownwardVector.VectorDownward.MakeSpace` | Common/Library/flatbuffers/vector_downward.h:150-157 | the data stack gains len bytes in front; the earlier data and the scratch stack stay |
| `DownwardVector.VectorDownward.Push` | Common/Library/flatbuffers/vector_downward.h:195-197 | the bytes are prepended to the data; the scratch stack stays |
| `DownwardVector.VectorDownward.PushSmall` | Common/Library/flatbuffers/vector_downward.h:200-203 | the little-endian scalar is prepended to the data; the scratch stack stays |
| `DownwardVector.VectorDownward.ScratchPushSmall` | Common/Library/flatbuffers/vector_downward.h:205-209 | the bytes are appended to the scratch stack; the data stays |
| `DownwardVector.VectorDownward.Fill` | Common/Library/flatbuffers/vector_downward.h:213-222 | zeros are prepended to the data; the scratch stack stays |
| `DownwardVector.VectorDownward.Pop` | Common/Library/flatbuffers/vector_downward.h:224-227 | exactly the newest bytes of the data are dropped |
| `DownwardVector.VectorDownward.ScratchPop` | Common/Library/flatbuffers/vector_downward.h:229-229 | exactly the newest bytes of the scratch stack are dropped |
| `DownwardVector.VectorDownward.Reallocate` | Common/Library/flatbuffers/vector_downward.h:269-284 | growing keeps both stacks and leaves len more bytes free between them |
| `DownwardVector.VectorDownward.DataAtReads` | Common/Library/flatbuffers/vector_downward.h:193-193 | data_at names the bytes at a distance from the end, whatever the capacity is |
| `DownwardVector.VectorDownward.Clear` | Common/Library/flatbuffers/vector_downward.h:90-101 | both stacks are empty and the allocation is kept |
| `BuilderModel.CoversUnlessLargest` | Common/Library/flatbuffers/flatbuffer_builder.h:431-434 | the vtable, whose 16-bit size may wrap, covers every tracked field exactly when the largest identifier is not among them |
| `BuilderModel.LargestFieldWraps` | Common/Library/flatbuffers/flatbuffer_builder.h:44-51 | identifier 65534 is let through, and its vtable has 4 bytes that do not contain its slot |
| `Layout.VTableSlot` | Common/Library/flatbuffers/flatbuffer_builder.h:431-451 | a written vtable holds its size, the table's size, each field's offset in its slot, and zero in all other slots |
| `Layout.ObjFrame` | Common/Library/flatbuffers/flatbuffer_builder.h:364-374 | an object once written is intact after any bytes are pushed on top |
| `BuilderSteps.AddElementLands` | Common/Library/flatbuffers/flatbuffer_builder.h:325-341 | a value that differs from its default is stored aligned and tracked; a default stores nothing |
| `BuilderSteps.AddOffsetLands` | Common/Library/flatbuffers/flatbuffer_builder.h:343-374 | the stored relative offset leads back to the object it was given |
| `BuilderSteps.CreateStringLands` | Common/Library/flatbuffers/flatbuffer_builder.h:1375-1381 | a length-prefixed, NUL-terminated, 4-aligned copy; nothing else changes |
| `TableSteps.ReusedIsRemembered` | Common/Library/flatbuffers/flatbuffer_builder.h:455-469 | a vtable is shared exactly when one with the same bytes is remembered |
| `TableSteps.EndTableLands` | Common/Library/flatbuffers/flatbuffer_builder.h:418-484 | the finished table names exactly the fields that were added, through a vtable with the wanted bytes |
| `TableSteps.VTablesRemembered` | Common/Library/flatbuffers/flatbuffer_builder.h:470-473 | remembered vtables stay pairwise distinct and include the new table's |
| `BuilderRuns.RunsKeepInvariant` | Common/Library/flatbuffers/flatbuffer_builder.h:325-484 | after ANY run, with and without sharing of vtables, all objects are in place, vtables distinct and pool entries distinct |
| `BuilderRuns.SharedStringRepeats` | Common/Library/flatbuffers/flatbuffer_builder.h:604-624 | a repeat returns the pooled offset and leaves the data unchanged; otherwise the string is added and pooled |
| `BuilderRuns.SharedStringDelivers` | Common/Library/flatbuffers/flatbuffer_builder.h:604-624 | in every reachable state the returned offset holds the string and the invariant is kept |
| `BuilderRuns.PoolFindSearches` | Common/Library/flatbuffers/flatbuffer_builder.h:1331-1344 | lookup by order finds the entry with the same bytes, or there is none |
| `BuilderRuns.StepFailsOnlyOnSize` | Common/Library/flatbuffers/flatbuffer_builder.h:393-451 | a step succeeds exactly when the buffer's and the table's size are within bounds and the largest field is not stored |
| `BuilderRuns.RunsSucceed` | Common/Library/flatbuffers/flatbuffer_builder.h:393-484 | a legal run of small tables within an explicit budget never hits an assertion and stays within the budget |
| `BuilderAlignments.RunTracksAlignment` | Common/Library/flatbuffers/flatbuffer_builder.h:285-292 | after any run minalign_ is exactly the largest width of a stored scalar, or 4 for strings, references and tables |
| `FinishSteps.FinishLands` | Common/Library/flatbuffers/flatbuffer_builder.h:1258-1283 | data kept, root offset, identifier and size prefix in place, total size divisible by minalign_ |
| `FinishSteps.FinishNeeds` | Common/Library/flatbuffers/flatbuffer_builder.h:1258-1283 | the header takes the least padding that aligns the whole buffer, and at most 24 bytes |
| `TableRoundTrip.RootFound` | Common/Library/flatbuffers/flatbuffer_builder.h:1258-1283 | GetRoot on the finished buffer finds the root that was given, with or without prefix and identifier |
| `TableRoundTrip.FieldReads` | Common/Library/flatbuffers/table.h:29-56 | each accessor returns the stored value or object, and the default for a field that is not stored |
| `TableRoundTrip.ObjectsInFinished` | Common/Library/flatbuffers/flatbuffer_builder.h:1258-1283 | every object made anywhere in the run is intact in the finished buffer |
| `TableRoundTrip.RoundTrip` | Common/Library/flatbuffers/table.h:29-56 | for every run of the builder, the root is found and EVERY object reads back as what it was made from |
| `TableRoundTrip.DedupIsTransparent` | Common/Library/flatbuffers/flatbuffer_builder.h:452-483 | no accessor's result on any object differs between sharing vtables and not sharing them |
| `TableRoundTrip.VTablesSharedIffEqual` | Common/Library/flatbuffers/flatbuffer_builder.h:452-473 | two tables share a vtable exactly when their vtables' bytes are equal |
| `TableRoundTrip.StringsSharedIffEqual` | Common/Library/flatbuffers/flatbuffer_builder.h:604-624 | two shared strings get the same offset exactly when they are byte-equal, whatever happened in between |
| `FlatBufferBuilders.DuplicateDropped` | Common/Library/flatbuffers/flatbuffer_builder.h:464-468 | popping a duplicate vtable restores the bytes from before it was written |
| `FlatBufferBuilders.FlatBufferBuilder.PushScalar` | Common/Library/flatbuffers/flatbuffer_builder.h:308-315 | on the object: exactly the step PushElement, returning the new size |
| `FlatBufferBuilders.FlatBufferBuilder.AddScalarField` | Common/Library/flatbuffers/flatbuffer_builder.h:332-337 | on the object: exactly the step AddElement |
| `FlatBufferBuilders.FlatBufferBuilder.AddOffsetField` | Common/Library/flatbuffers/flatbuffer_builder.h:343-346 | on the object: exactly the step AddOffset |
| `FlatBufferBuilders.FlatBufferBuilder.WriteVTable` | Common/Library/flatbuffers/flatbuffer_builder.h:434-451 | the loop over the tracked fields, writing into the shared buffer in place, produces the vtable's bytes in front of the data |
| `FlatBufferBuilders.FlatBufferBuilder.FindDuplicate` | Common/Library/flatbuffers/flatbuffer_builder.h:458-469 | the loop over the remembered offsets in the scratch stack returns the first vtable with the same bytes |
| `FlatBufferBuilders.FlatBufferBuilder.FinishTable` | Common/Library/flatbuffers/flatbuffer_builder.h:418-484 | on the object: exactly the step EndTable, with the buffer, the scratch stack and all counters as the model says |
| `FlatBufferBuilders.FlatBufferBuilder.AddString` | Common/Library/flatbuffers/flatbuffer_builder.h:1375-1381 | on the object: exactly the step CreateString |
| `FlatBufferBuilders.FlatBufferBuilder.AddSharedString` | Common/Library/flatbuffers/flatbuffer_builder.h:604-624 | on the object: exactly the step CreateSharedString |
| `FlatBufferBuilders.FlatBufferBuilder.FinishBuffer` | Common/Library/flatbuffers/flatbuffer_builder.h:1258-1283 | on the object: exactly the step Finish |
| `FlatBufferBuilders.FlatBufferBuilder.Clear` | Common/Library/flatbuffers/flatbuffer_builder.h:168-176 | the builder is as new, except for the allocation and the sharing of vtables |
| `BuilderPrograms.PerformAll` | Common/Library/flatbuffers/flatbuffer_builder.h:308-484 | a whole sequence of calls on one object is the run of the model, with the same offsets |
| `BuilderPrograms.BuildBuffer` | Common/Library/flatbuffers/flatbuffer_builder.h:1258-1283 | the bytes handed out are those that the theorems about finished runs speak of |
| `VerifierModel.TableStartReadable` | Common/Library/flatbuffers/verifier.h:183-198 | for arbitrary bytes, an accepted table start makes the vtable and every slot in it readable |
| `VerifierModel.TableSound` | Common/Include/Protocol/SERVER_PROTOCOL_generated.h:590-597 | for arbitrary bytes, once a table is accepted no accessor of it or of a table below it leaves the buffer |
| `VerifierModel.VerifyIsSound` | Common/Library/flatbuffers/verifier.h:200-256 | an accepted buffer has a root in bounds from which everything reachable is safe to read; references only lead forward, so it terminates |
| `VerifierAccepts.AlignmentChecked` | Common/Library/flatbuffers/verifier.h:89-91 | for every power of two, the masked check is divisibility of the position, unless alignment is not checked |
| `VerifierAccepts.TableAccepts` | Common/Include/Protocol/SERVER_PROTOCOL_generated.h:590-597 | for arbitrary bytes, the generated Verify of a table accepts EXACTLY the trees in which each table, vtable, scalar, reference and string is in bounds and at a multiple of its width, within the limits on depth and number of tables |
| `VerifierAccepts.VerifyAccepts` | Common/Library/flatbuffers/verifier.h:200-256 | for arbitrary bytes, a buffer is accepted exactly when its size, prefix, identifier and root are right and the tree below the root is one of those |
| `VerifierObject.Verifier.CheckTable` | Common/Library/flatbuffers/verifier.h:183-198 | the counting verifier object returns the verdict and the counters of VerifyTable |
| `VerifierObject.Verifier.CheckBuffer` | Common/Library/flatbuffers/verifier.h:200-256 | a new verifier returns VerifyBuffer; if it accepts, the root is safe and the depth is back at zero |
| `BuiltBuffersVerify.AlignedFromStart` | Common/Library/flatbuffers/verifier.h:89-96 | what the builder aligns from the end passes the check that counts from the start |
| `BuiltBuffersVerify.BuiltStringPasses` | Common/Library/flatbuffers/verifier.h:135-159 | every built string passes VerifyString |
| `BuiltBuffersVerify.BuiltTableStarts` | Common/Library/flatbuffers/verifier.h:183-198 | every built table passes VerifyTableStart and advances both counters by one |
| `BuiltBuffersVerify.HeaderPasses` | Common/Library/flatbuffers/verifier.h:200-223 | the header that Finish writes is accepted and leads to the root |
| `BuiltBuffersVerify.BuiltBufferVerifies` | Common/Library/flatbuffers/verifier.h:200-256 | for any schema, every finished buffer built with the schema's types and within the limits is accepted |
| `ServerProtocol.MessageRoundTrip` | Common/Include/Protocol/SERVER_PROTOCOL_generated.h:555-735 | creating and finishing any message succeeds, the generated Verify accepts it, and the accessors return the message as it is received |
| `ServerProtocol.ReceivedIsSent` | Common/Include/Protocol/SERVER_PROTOCOL_generated.h:520-522 | a message is received as it was sent exactly when it is not a response time of negative zero |
| `ServerProtocol.ContentRoundTrip` | Common/Include/Protocol/SERVER_PROTOCOL_generated.h:192-553 | the same for a content table that is the root itself |
| `LobbyServerProtocol.SendContent` | Common/Src/Protocol/LobbyServerProtocol.cpp:19-32 | the bytes put into the job's output verify and read back as the content; body size and type match |
| `LobbyServerProtocol.NoticeLobbyReadyJob` | Common/Src/Protocol/LobbyServerProtocol.cpp:19-32 | the receiver reads exactly the key, port, capacity and state that were given |
| `LobbyServerProtocol.NoticeLobbyInfoJob` | Common/Src/Protocol/LobbyServerProtocol.cpp:50-60 | the receiver reads exactly the key, counts and state that were given |
| `FlexWidths.WidthUIsLeast` | Common/Library/flatbuffers/flexbuffers.h:188-198 | WidthU is at most w exactly when the number fits w |
| `FlexWidths.WidthIIsLeast` | Common/Library/flatbuffers/flexbuffers.h:200-203 | WidthI is at most w exactly when w holds the number with its sign |
| `FlexWidths.WidthSearchSucceeds` | Common/Library/flatbuffers/flexbuffers.h:1525-1552 | the search always finds a width that holds the offset measured with that very width |
| `FlexWidths.FindOffsetWidth` | Common/Library/flatbuffers/flexbuffers.h:1534-1550 | the loop over 1, 2, 4 and 8 bytes returns from within: the assertion behind it is never reached |
| `FlexWidths.ChosenWidthFits` | Common/Library/flatbuffers/flexbuffers.h:1458-1462 | an offset still fits in any wider vector and at any earlier element, so the assertion in WriteOffset holds |
| `FlexLeast.ElemWidthLeast` | Common/Library/flatbuffers/flexbuffers.h:1525-1552 | an element asks for the least width: no narrower one holds the number, or no offset up to it takes the width it is tried with |
| `FlexLeast.VectorWidthLeast` | Common/Library/flatbuffers/flexbuffers.h:1611-1625 | a width is below the one chosen exactly when the length does not fit, or the offset of the keys or some element rules it out |
| `FlexLeast.MapWidthLeast` | Common/Library/flatbuffers/flexbuffers.h:1214-1218 | the keys and the values of a map have the least widths, where each element is tried two places behind the one before |
| `FlexLeast.ScalarVectorWidth` | Common/Library/flatbuffers/flexbuffers.h:1611-1625 | a vector of scalars has the least width that holds its length and all of its numbers |
| `FlexLeast.RootWidthLeast` | Common/Library/flatbuffers/flexbuffers.h:1403-1419 | the width in the last byte is the least for the root |
| `FlexLeast.TypeByte` | Common/Library/flatbuffers/flexbuffers.h:1554-1560 | a type byte holds the type, and the width of the vector for an inline element or of the target for an offset |
| `FlexVectors.ElementFits` | Common/Library/flatbuffers/flexbuffers.h:1606-1650 | the width CreateVector chose holds what is written for every element, also with step 2 and key prefix |
| `FlexVectors.CreateVectorLands` | Common/Library/flatbuffers/flexbuffers.h:1606-1662 | length, elements and packed types are where the reader looks for them |
| `FlexVectors.ElementReads` | Common/Library/flatbuffers/flexbuffers.h:880-886 | element k of a created vector reads as the tree it was made from |
| `FlexVectors.NoElementBehind` | Common/Library/flatbuffers/flexbuffers.h:880-882 | behind the end of a vector the accessor returns a null |
| `FlexVectors.VectorReads` | Common/Library/flatbuffers/flexbuffers.h:1166-1172 | the whole vector reads as the vector of its elements |
| `FlexMaps.SearchFinds` | Common/Library/flatbuffers/flexbuffers.h:901-924 | binary search in the buffer finds the index of the key, and nothing exactly when the key is absent |
| `FlexMaps.SortSorts` | Common/Library/flatbuffers/flexbuffers.h:1183-1213 | the pairs come out in key order |
| `FlexMaps.SortHolds` | Common/Library/flatbuffers/flexbuffers.h:1183-1213 | the sorted pairs are the same entries, each key still with its value |
| `FlexMaps.LookupAgrees` | Common/Library/flatbuffers/flexbuffers.h:908-924 | lookup returns the value added under a key, and null for any other key |
| `FlexMaps.MapReads` | Common/Library/flatbuffers/flexbuffers.h:1174-1223 | the map that EndMap leaves reads as the entries that were added, in any order of adding |
| `FlexReader.ReadsStays` | Common/Library/flatbuffers/flexbuffers.h:1437-1440 | a value that can be read keeps reading the same after more bytes are appended |
| `FlexRoundTrip.AddKeyDelivers` | Common/Library/flatbuffers/flexbuffers.h:1073-1089 | the key is in the buffer; an equal key is used again exactly when keys are shared, and nothing but the key and its NUL is written otherwise |
| `FlexRoundTrip.AddStringDelivers` | Common/Library/flatbuffers/flexbuffers.h:1094-1111 | the string is in the buffer; an equal string is used again exactly when strings are shared, and it is written anew otherwise |
| `FlexRoundTrip.EmitDelivers` | Common/Library/flatbuffers/flexbuffers.h:1073-1223 | the calls for any tree leave one value on the stack that reads as the tree, and keep both pools valid |
| `FlexRoundTrip.FinishReads` | Common/Library/flatbuffers/flexbuffers.h:1403-1419 | GetRoot, walking back from the last byte, finds what was on the stack |
| `FlexRoundTrip.TreeRoundTrip` | Common/Library/flatbuffers/flexbuffers.h:930-938 | for every finite tree, with sharing of keys and strings on or off, the finished buffer reads as the tree |
| `FlexSharing.KeysSharedIffEqual` | Common/Library/flatbuffers/flexbuffers.h:1073-1089 | two keys anywhere in a tree get the same offset exactly when they are equal, with sharing of keys on |
| `FlexSharing.StringsSharedIffEqual` | Common/Library/flatbuffers/flexbuffers.h:1094-1111 | two strings anywhere in a tree get the same offset exactly when they are equal, with sharing of strings on |
| `FlexBuilder.Builder.Key` | Common/Library/flatbuffers/flexbuffers.h:1073-1089 | on the object: exactly the step AddKey, returning the offset on the stack |
| `FlexBuilder.Builder.String` | Common/Library/flatbuffers/flexbuffers.h:1094-1111 | on the object: exactly the step AddString |
| `FlexBuilder.Builder.MakeVector` | Common/Library/flatbuffers/flexbuffers.h:1606-1662 | the measuring, writing and typing loops produce CreateVector; the assertion in WriteOffset holds at every element |
| `FlexBuilder.Builder.SortPairsFrom` | Common/Library/flatbuffers/flexbuffers.h:1183-1213 | exchanging pairs in place on the stack leaves the sorted pairs and nothing else changed |
| `FlexBuilder.Builder.EndMapAt` | Common/Library/flatbuffers/flexbuffers.h:1174-1223 | sorting in place and the two vectors are exactly the step EndMap |
| `FlexBuilder.Builder.FinishBuffer` | Common/Library/flatbuffers/flexbuffers.h:1403-1419 | on the object: exactly the bytes of Finish |
| `FlexBuilder.SerializeTree` | Common/Library/flatbuffers/flexbuffers.h:1403-1419 | the bytes a new builder hands out for a tree read back as the tree |
| `StringEscape.ReplaceSubstring` | Common/Library/nlohmann/detail/string_escape.hpp:31-40 | the in-place find/replace loop equals left-to-right replacement that never looks at what it put in |
| `StringEscape.EscapePasses` | Common/Library/nlohmann/detail/string_escape.hpp:50-55 | the two passes equal the character map of RFC 6901 section 3 |
| `StringEscape.UnescapePasses` | Common/Library/nlohmann/detail/string_escape.hpp:65-69 | the two passes equal one-pass decoding, also for strings that are not properly escaped |
| `StringEscape.UnescapeEscape` | Common/Library/nlohmann/detail/string_escape.hpp:50-69 | unescaping undoes escaping for every string |
| `StringEscape.EscapeUnescape` | Common/Library/nlohmann/detail/string_escape.hpp:50-69 | escaping undoes unescaping exactly for the properly escaped strings |
| `JsonPointer.SplitToString` | Common/Library/nlohmann/detail/json_pointer.hpp:68-76 | parsing undoes printing for every list of tokens |
| `JsonPointer.ToStringSplit` | Common/Library/nlohmann/detail/json_pointer.hpp:666-724 | printing undoes parsing for every string that parses |
| `JsonPointer.SplitAccepts` | Common/Library/nlohmann/detail/json_pointer.hpp:666-724 | the strings that parse are exactly the printed pointers |
| `JsonPointer.SplitTokens` | Common/Library/nlohmann/detail/json_pointer.hpp:666-724 | the loop over slashes, with both of its errors, equals cutting into parts, checking and unescaping each |
| `JsonPointer.ArrayIndexAccepts` | Common/Library/nlohmann/detail/json_pointer.hpp:214-249 | a token is accepted as index i exactly when it is the decimal notation of i and i is below SIZE_MAX |
| `JsonPointer.Follow` | Common/Library/nlohmann/detail/json_pointer.hpp:422-464 | the loop that moves the current value equals the recursive lookup, errors included |
| `JsonPointer.SetAtLaws` | Common/Library/nlohmann/detail/json_pointer.hpp:422-464 | writing through a pointer that resolves: what is written is read, the last write wins, writing the present value changes nothing |
| `JsonPointer.SetAtElsewhere` | Common/Library/nlohmann/detail/json_pointer.hpp:422-464 | writing through a pointer leaves alone whatever a pointer that parts from it leads to |
| `JsonPatch.Document.PatchInPlace` | Common/Library/nlohmann/json.hpp:4749-5016 | the document and the exception after the loop over all operations, including when it stops half-way |
| `JsonOperations.DecodeIs` | Common/Library/nlohmann/json.hpp:4891-4931 | an element is taken for an operation exactly when its members op, path, from and value say so |
| `JsonOperations.PatchInTurn` | Common/Library/nlohmann/json.hpp:4882-4890 | a patch that is no array fails with 104; otherwise the elements are applied in turn, and the first exception ends it |
| `JsonOperations.ExecutePerforms` | Common/Library/nlohmann/json.hpp:4785-5005 | an operation that succeeds leaves the document of RFC 6902 section 4: add inserts at the index or sets the key, remove takes out, move and copy add the value found, and nothing else changes |
| `JsonOperations.ExecuteFails` | Common/Library/nlohmann/json.hpp:4785-5005 | an operation throws exactly when its guards say so |
| `JsonOperations.TestFailsAs` | Common/Library/nlohmann/json.hpp:4984-5005 | a test that differs or is out of range throws 501; other exceptions pass through |
| `JsonPatch.FailureKeepsDocument` | Common/Library/nlohmann/json.hpp:4889-5015 | an operation that throws has changed the document exactly when it is a move from an existing place below the root whose target the code's guards reject once the source is gone; what is left is the document without the source |
| `JsonPatch.RejectedMoveLosesSource` | Common/Library/nlohmann/json.hpp:4952-4967 | a concrete document that a rejected move leaves without its value |
| `JsonPatch.AddFails` | Common/Library/nlohmann/json.hpp:4786-4851 | add fails exactly when the parent is missing, is a string, number or boolean, or is an array without such a place; the check of the first token adds nothing |
| `JsonPatch.AddAssertsBelowPrimitives` | Common/Library/nlohmann/json.hpp:4786-4851 | the assertion in add fails exactly when the parent exists and is a string, number or boolean |
| `JsonPatch.AddBelowNumberAsserts` | Common/Library/nlohmann/json.hpp:4840-4849 | a concrete add that reaches the assertion |
| `JsonPatch.RemoveIgnoresPrimitives` | Common/Library/nlohmann/json.hpp:4854-4880 | a remove succeeds where there is no value exactly below a null, string, number or boolean, and then changes nothing |
| `JsonPatch.RemoveBelowNumber` | Common/Library/nlohmann/json.hpp:4854-4880 | a concrete remove of a value that is not there, without an error |
| `JsonDiff.RemovesApply` | Common/Library/nlohmann/json.hpp:5069-5081 | removes in descending order leave exactly the leading elements |
| `JsonDiff.DiffApplies` | Common/Library/nlohmann/json.hpp:5030-5160 | the diff below a pointer, applied to ANY document with the source there, changes that subtree only, to the target |
| `JsonDiff.DiffThenPatch` | Common/Library/nlohmann/json.hpp:5030-5160 | applying the diff never throws, the result equals the target under operator==, and it is the target itself iff no signed and unsigned number are confused |
| `JsonDiff.DiffEmpty` | Common/Library/nlohmann/json.hpp:5036-5040 | the diff is empty exactly when the documents are equal |
| `Json.NumbersEqual` | Common/Library/nlohmann/json.hpp:3666-3673 | a signed and an unsigned number are equal exactly modulo 2^64, and below 2^63 exactly when they are the same |
| `JsonDiff.DiffMissesWrappedNumber` | Common/Library/nlohmann/json.hpp:3666-3673 | a concrete pair of different documents whose diff is empty |
| `JsonDiff.KeptIsTarget` | Common/Library/nlohmann/json.hpp:3610-3680 | the document reached is the target exactly when no such numbers meet |
| `JsonDiff.ComputeDiff` | Common/Library/nlohmann/json.hpp:5030-5160 | the recursive method with its loops, inserting removes at a fixed position, produces Diff |
| `JsonFlatten.FlattenedKeys` | Common/Library/nlohmann/detail/json_pointer.hpp:735-793 | the result maps exactly the printed leaf paths to their leaves |
| `JsonFlatten.FlattenRoundTrip` | Common/Library/nlohmann/detail/json_pointer.hpp:735-832 | unflatten(flatten(j)) == j exactly when no container is empty and no object's first visited member is named 0 |
| `JsonFlatten.UnflattenMakesArray` | Common/Library/nlohmann/detail/json_pointer.hpp:284-297 | a concrete object that comes back as an array |
| `JsonFlatten.CreateAtReads` | Common/Library/nlohmann/detail/json_pointer.hpp:274-332 | a value that was created is read back through the same pointer, and values elsewhere are still there |
| `JsonFlatten.CreateAtFails` | Common/Library/nlohmann/detail/json_pointer.hpp:274-332 | creating fails exactly when a string, number or boolean, or an array without such an index, is in the way |
| `JsonFlatten.UnflattenAccepts` | Common/Library/nlohmann/detail/json_pointer.hpp:806-832 | unflatten succeeds for nothing but objects of primitive values under pointers |
| `JsonFlatten.StoreFlattened` | Common/Library/nlohmann/detail/json_pointer.hpp:735-793 | the recursive loops store exactly the flattened members into the given result |
| `JsonFlatten.Rebuild` | Common/Library/nlohmann/detail/json_pointer.hpp:807-832 | the assigning loop, with its errors, is Unflatten; on a flattened value that qualifies it returns that value |
| `MergePatch.MergeInPlace` | Common/Library/nlohmann/json.hpp:5172-5196 | visiting the members in any order gives the result of RFC 7396 section 2 |
| `MergePatch.MergeIsRfc7396` | Common/Library/nlohmann/json.hpp:5172-5196 | the merge is the one result that RFC 7396 section 2 allows, stated member by member without the code |
| `MergePatch.MergeTwice` | Common/Library/nlohmann/json.hpp:5172-5196 | applying the same patch twice equals applying it once |
| `JsonDestroy.Destroy` | Common/Library/nlohmann/json.hpp:569-616 | one turn for each strict descendant, each visited once, and whatever is dropped is an empty container or a primitive value |
| `JsonDestroy.PathsResolve` | Common/Library/nlohmann/json.hpp:574-613 | the values are those that get_checked finds: a pointer is among the paths of the children exactly when it resolves |
| `JsonDestroy.SizeCountsPaths` | Common/Library/nlohmann/json.hpp:574-613 | the number of values that the loop goes by is the number of pointers that resolve |
| `Utf8.FromUTF8Accepts` | Common/Library/flatbuffers/util.h:527-568 | FromUTF8 accepts exactly the sequences of RFC 3629 section 4, and ToUTF8 of its result is the bytes consumed |
| `Utf8.ToUTF8Decodes` | Common/Library/flatbuffers/util.h:499-520 | every code point except surrogates is encoded as a sequence that decodes to it, whatever follows |
| `Utf8.ToUTF8Layout` | Common/Library/flatbuffers/util.h:499-520 | also beyond Unicode, up to 31 bits: the least of six lengths, as many leading ones, and the bits in groups of six |
| `Utf8.Encode` | Common/Library/flatbuffers/util.h:499-520 | the loop over the six encodings returns from within and appends ToUTF8 |
| `Utf8.Decode` | Common/Library/flatbuffers/util.h:527-568 | the masking and shifting loops compute FromUTF8 |
| `EscapeText.EscapeString` | Common/Library/flatbuffers/util.h:599-667 | the loop, skipping recognized sequences, appends exactly Escaped or fails |
| `EscapeText.ShortEscapeIs` | Common/Library/flatbuffers/util.h:606-612 | the two-character escapes are those of RFC 8259 except for the slash |
| `EscapeText.PieceText` | Common/Library/flatbuffers/util.h:604-661 | which form of text stands for which bytes: short escape, printable character, UTF-8 copied, one or two \u units, \x, or failure |
| `EscapeText.EscapeRoundTrip` | Common/Library/flatbuffers/util.h:599-667 | with allow_non_utf8 every byte string is escaped, and an RFC 8259 section 7 decoder with \xHH recovers it iff no control character was copied raw |
| `EscapeText.StrictEscapes` | Common/Library/flatbuffers/util.h:620-638 | without allow_non_utf8, exactly the well-formed UTF-8 texts are escaped |
| `EscapeText.NaturalCopiesControls` | Common/Library/flatbuffers/util.h:640-642 | a concrete text with a raw control character that the decoder refuses |

## Left out

- Networking, threads, Redis, argument parsing and the lobby's counters: the I/O around these engines.
- 64-bit builders, nested buffers, vectors of scalars, structs and tables, `force_defaults`, SetField and
  SetPointer, custom allocators, moves and swaps.
- Allocation failure, and the wrap-around of capacities (size_t) near 2^64; `unused_buffer_size` is truncated
  to 32 bits as in the code.
- Floats, except for the response time of a message, which is its 32 bits; in JSON also binary values, NaN and discarded values, and the text parser and serializer.
- FlexBuffers typed vectors other than a map's keys, fixed vectors, blobs, indirect scalars, Mutate, the
  minimum bit width, the duplicate-key flag and the FlexBuffers verifier.
- `std::set` is modelled by a search for an equivalent entry, `std::sort` by insertion sort and `std::bsearch`
  by binary search; the padding bytes inside a tracked field location are zero.
- BuilderRuns.RunsSucceed: its budget is sufficient, not exact; the exact condition for each step is
  BuilderRuns.StepFailsOnlyOnSize, which asks for the size at the step's peak. The assertion in the code looks
  at the size before the last growth, so it may let a slightly larger buffer through.
- BuiltBuffersVerify.BuiltBufferVerifies: asks that nesting depth and table count are within the verifier's
  limits; verifier counters do not wrap.
- FlexRoundTrip.TreeRoundTrip: buffers below 2^56 bytes, so that an offset written eight bytes wide cannot
  overflow, and maps with distinct keys that contain no NUL.
- JsonDiff.DiffThenPatch: arrays of at most 2^64 - 1 elements, the length a vector can have.
- JsonFlatten.FlattenRoundTrip: the same bound on array lengths; get_and_create, which walks by pointer, is a
  functional update of the result.
- JsonPatch.Document.PatchInPlace: where the order of evaluation is open in C++, the model reads the value
  first in `replace` (as C++17 fixes it for assignment) and the location first in `test`.
- Utf8.Decode: reading past the end yields the NUL that the callers' strings end in.
