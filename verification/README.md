# A verified model of the Foxglove C binding

The C binding of the Foxglove SDK (`c/src`) moves data between C structs and Rust values by hand: raw pointers with
separate lengths and capacities, boxes that change owner at every call, and an arena on the stack. The playground
(`playground/src/urlState.ts`) keeps its state in a URL. This project models those parts and proves what they promise.

| part | modules |
|---|---|
| message conversion in the bump arena, and the two-call encoders | `Messages`, `Schemas`, `Memory`, `Denotation`, `Arenas`, `Encoding` |
| parameter trees: heap form, native form, ownership, base64 values, hand-over to the server, whole runs | `ParameterTree`, `ParameterHeap`, `ParameterNative`, `ParameterConversion`, `ParameterApi`, `ParameterBytes`, `ParameterServer`, `ParameterModel`, `ParameterRuns` |
| codecs | `Utf8` (RFC 3629), `Base64` (RFC 4648), `JsText` (UTF-16), `UrlState` |
| contexts and channels behind reference counts, MCAP writers, whole runs of all three | `Contexts`, `RegistrySteps`, `Registry`, `Channels`, `Mcap`, `ChannelRuns` |
| metadata iteration, connection graphs | `BTreeMap`, `MetadataPairs`, `ConnectionGraph` |

`dafny verify dfyconfig.toml` checks the whole project.

## How it is modelled

**Arena.** Memory is a map from addresses to *fragments*: byte `k` of the native struct `v`. A struct can be read back
only if all of its fragments are in place, so an overlapping write anywhere would make it unreadable. Native vectors are
addresses into this memory. `Denotation` says which message a struct in memory denotes, by following those addresses.
The conversions (`Arenas.Arena.Map`, `BorrowToNative`) are mutually recursive methods with the loops of the source, and
are proved against `Messages.Convert`, a recursive function that knows no memory, and that against the relation
`Messages.Says`, which compares a C struct with a native message field by field. The generator emits every
`borrow_to_native` field by field in struct order, so a message type is a list of fields; `Schemas` has the types of the
scene and image-annotation nests.

**Parameters.** The heap is a map from addresses to blocks (string buffers, vector buffers, boxes), and the structs of
the C API are `Cell`s. A ghost `Node` is the tree behind a cell, with the address and capacity of each block. `Single`
says that no block has two owners within the tree, `In` that the heap holds the tree. `ParameterApi.Library.Valid` is the
forest invariant over all handles of the caller. Frees of missing blocks, or with a wrong size, are counted in `faults`.

**Contexts and channels.** Each `Arc` is an address in one of two tables, with its strong count. The owners of a channel
are the entries of its context's two indexes and whatever is counted in the ghost field `held`: handles of the C program
and locals. `Contexts.Counted` says that every count is the number of owners and that what has an owner is live; every
step, however small, keeps it. Where the source borrows a handle with `ManuallyDrop(Arc::from_raw(..))`, the handle's
count becomes a local's (`Registry.Runtime.FromRaw`), which is forgotten (`Forget`); `foxglove_channel_free` drops it
(`DropLocal`).

**Runs.** `ChannelRuns` and `ParameterRuns` run arbitrary sequences of calls of a C program that keeps its pointers in
tables and nulls those that it has given up. `ParameterModel.World.Step` says what each parameter call means without a
heap, and `ParameterRuns.Program.Run` proves that the program on the heap does just that. In `ChannelRuns`, one program makes contexts, channels and MCAP writers on
one registry, and frees, closes, logs and writes in any order.

**Methods and functions.** What the source does by updating state is a method with the same branches and loops; what it
promises is stated in the method's contract or proved about the function that specifies it.

## Findings

- `FoxgloveParameterValueArray::into_native` (c/src/parameter.rs:1079-1088) rebuilds its vector with the length in place
  of the capacity. An empty array with capacity is leaked, and a partly filled one is freed with a size it was not
  allocated with. `ParameterConversion.CleanIffExactFit` gives the exact condition: conversion is clean if and only if
  every value array in the tree is exactly full. `HalfFullArrayMisfits` and `EmptyArrayLeaks` are the witnesses.
- A message whose encoding is empty can never be encoded with a buffer of the reported size: the call with length zero
  answers `BufferTooShort` (`Encoding.EmptyMessageIsRefused`). For every other message the two calls work
  (`Encoding.TwoCalls`).
- The update that `ConnectionGraph::diff` computes leaves out that a topic has lost all of its publishers while it keeps
  subscribers, or the other way round. `ConnectionGraph.UpdateRestores` gives the exact condition under which a
  subscriber that applies it ends up with the new graph, and `LostPublisher` is the witness. The format could express
  every change: `SomeUpdateRestores` gives, for any two graphs, an update that leads from one to the other.
- Freeing every handle of an open channel does not free the channel: its context keeps it until it is closed there, or
  until the context goes (`ChannelRuns.ChannelIsLiveIffOwned`).
- With a null out pointer, `foxglove_mcap_open` succeeds and leaks the box of the writer (`Mcap.Library.Open`).
- `UrlState.StateRoundTrip`: a state comes back from the URL if and only if its layout is not null, its code has no lone
  surrogate and no leading byte order mark, and both parts fit the decompression limit. `StatesThatAreLost` has a
  failing state of each kind.
- The comment on `Arena` (c/src/arena.rs:43-46) says that a full arena returns an error. The code falls back to the heap,
  and so does the model.
- `foxglove_mcap_open` answers a profile that is not UTF-8 with `ValueError`, but a path that is not UTF-8 with
  `Utf8Error`. The model follows the code.

## Model

| member | source | states |
|---|---|---|
| Messages.ConvertReportsFirstBadText | c/src/util.rs:27-41 | a conversion fails if and only if some non-empty string anywhere in the message is not UTF-8, and the error names the first such string in depth-first field order |
| Messages.FieldsReportFirstBad | c/src/generated_types.rs:3951-3993 | the same over the fields of one struct: earlier fields win, whatever nested arrays come later |
| Messages.ListReportsFirstBad | c/src/arena.rs:114-120 | the same over the elements of an array: `map` stops at the first element that fails |
| Messages.ListStep | c/src/arena.rs:114-120 | after `i` converted elements, the outcome of the whole array hangs only on the rest |
| Messages.ConvertSays | c/src/generated_types.rs:3951-3993 | a message converts if and only if all of its strings are UTF-8, to the one native message that says the same: the same scalars, the bytes of every string and blob, the same nested messages where there are any, and as many elements in each list as the count says, each saying the same |
| Messages.StringsArrive | c/src/util.rs:27-41 | the non-empty strings of the result, in depth-first order, are exactly the bytes of those of the C struct |
| Messages.FirstBadIs | c/src/util.rs:27-41 | the error has the field and the bytes of a string that is not UTF-8, and all strings before it are |
| Schemas.ConversionKeepsKind | c/src/generated_types.rs:4131-4146 | a C struct of a message type converts to a native message of the same type at every depth, or is refused for a string that this type contains |
| Schemas.StringlessMessagesConvert | c/src/generated_types.rs:3064-3099 | messages of types without strings, such as lines and poses, always convert |
| Schemas.NamesAreExact | c/src/generated_types.rs:4131-4146 | the strings that a type can be refused for are its own and those of the types that it contains, and no others |
| Memory.NextMultipleOfIsAligned | c/src/arena.rs:81-84 | the start of a region is aligned as an absolute address, and less than one alignment is skipped |
| Memory.NextMultipleOfIsLeast | c/src/arena.rs:81-84 | no aligned address is skipped: the padding is as small as possible |
| Memory.Machine.HeapAlloc | c/src/arena.rs:88-91 | overflow memory is aligned, unwritten, and apart from the arena and from every other live block |
| Memory.Machine.HeapFree | c/src/arena.rs:144-150 | a block can be freed once, and only with the layout of its allocation |
| Arenas.Arena.constructor | c/src/arena.rs:64-73 | a new arena has handed out nothing, at whatever address it lies |
| Arenas.Arena.Alloc | c/src/arena.rs:75-99 | over every sequence of calls with any sizes, alignments and base address: all regions are pairwise disjoint and aligned by absolute address, inline ones lie in the buffer, the offset is the end of the last inline one and never decreases, overflow leaves it alone, inline use is at most the sum of sizes and paddings, and nothing overflows while that sum fits; the new region is unwritten and belonged to nobody |
| Arenas.Arena.Map | c/src/arena.rs:101-123 | the array in memory denotes the conversion of every source element in order, although each conversion allocates from the same arena while later slots are unwritten; an empty source gives an empty vector whatever its pointer; the error of the first failing element is returned; no byte that was initialised before has changed |
| Arenas.Arena.MapElement | c/src/arena.rs:114-120 | one more slot is filled, and all earlier slots still denote their elements |
| Arenas.MappingGrows | c/src/arena.rs:114-120 | whatever a nested conversion allocates and writes, inline or overflow, the slots that are filled stay filled and the others stay unwritten |
| Arenas.MappingNext | c/src/arena.rs:114-120 | writing slot `i` completes elements 0 to `i` and touches nothing else |
| Arenas.Arena.BorrowToNative | c/src/generated_types.rs:3951-3993 | at any nesting depth, the native struct denotes the pure conversion of the C struct, or the first error in depth-first order is returned; memory only grows |
| Arenas.Arena.BorrowField | typescript/schemas/src/internal/generateSdkRustCTypes.ts:154-227 | each kind of generated field code: null pointers are none, zero lengths are empty whatever the pointer, nested messages and arrays recurse |
| Arenas.Arena.Drop | c/src/arena.rs:144-150 | every overflow block is released exactly once with its own layout; exactly the blocks of others remain |
| Denotation.DenotesExtends | c/src/arena.rs:101-123 | a struct that is in memory keeps its meaning while others are written, through every pointer it contains |
| Denotation.Read | c/src/generated_types.rs:4210-4246 | a reader that follows the pointers of a native struct always finds the one message that the struct denotes |
| Encoding.EncodeMessage | c/src/generated_types.rs:4210-4246 | the code, `*encoded_len` and the buffer after one call, in terms of the native message that says what the C struct says; a null message and one with a bad string are refused and change nothing; bytes behind the encoding are untouched, and no heap block is left over |
| Encoding.TwoCalls | c/src/generated_types.rs:4198-4246 | asking for the size and calling again with a buffer of exactly that size yields the encoding of the converted message, unless that is empty |
| Encoding.SizeThenEncode | c/src/generated_types.rs:4198-4246 | after asking for the size, a second call with any buffer succeeds if and only if it has room for that size and for one byte; then the encoding of the converted message is at its start and the rest untouched, and a buffer that is too short is left alone and told the same size |
| Encoding.EmptyMessageIsRefused | c/src/generated_types.rs:4215-4223 | a scene update without deletions or entities, whose encoding is empty, is refused with a buffer of the reported size |
| ParameterHeap.Allocator.NewString | c/src/lib.rs:141-152 | a string buffer has a block of its own, or none when it is empty |
| ParameterHeap.Allocator.Push | c/src/parameter.rs:16-22 | the vector holds the old elements and the new one in order, length within capacity, in a buffer that is the old one or new; a buffer that was outgrown is freed with the capacity it had |
| ParameterHeap.Pushed | c/src/parameter.rs:16-22 | the heap after a push holds the longer vector, which owns exactly the old blocks, the element's blocks and its buffer |
| ParameterHeap.Allocator.Drop | c/src/parameter.rs:286-297 | dropping a tree frees each block of the tree exactly once with its own size, and no other block |
| ParameterHeap.Allocator.DropItems | c/src/parameter.rs:1111-1117 | the same for the elements of a vector |
| ParameterHeap.Allocator.Clone | c/src/parameter.rs:843-875 | a clone is an equal tree in new blocks only, and nothing that was there has changed |
| ParameterHeap.Allocator.CloneItems | c/src/parameter.rs:28-33 | the clones of a vector's elements are equal in order, separate from each other, and new |
| ParameterHeap.BuiltSnoc | c/src/parameter.rs:28-33 | one more separate tree keeps all of them separate and in place |
| ParameterTree.Frame | c/src/parameter.rs:877-906 | a tree is unaffected by any change outside of the blocks it owns |
| ParameterTree.FootIsAllocated | c/src/parameter.rs:877-906 | every block that a tree owns is live |
| ParameterNative.RoundTrip | c/src/parameter.rs:787-841 | native to C and back is the identity for every value, nested arrays and dicts included |
| ParameterNative.RoundTripParameter | c/src/parameter.rs:218-265 | the same for whole parameters with their optional type and value |
| ParameterNative.ErasedConverts | c/src/parameter.rs:787-828 | conversion does not depend on addresses or capacities: equal trees convert to equal values |
| ParameterNative.ToNativeReads | c/src/parameter.rs:787-828 | the native value has the scalars and texts of the tree, its elements in order, and the collected entries of each dict |
| ParameterNative.ToParametersRead | c/src/parameter.rs:218-235 | each parameter of an array has the name, the type and the value of the C parameter at its place, and no value for a null pointer |
| ParameterNative.TypesAre | c/src/parameter.rs:655-677 | the type tag of each parameter type, in both directions |
| ParameterNative.DictIsLastWriterWins | c/src/parameter.rs:1216-1225 | a dict with any repeated keys converts to the sorted map that has the last value of each key |
| ParameterNative.DictInsertRefines | c/src/parameter.rs:1227-1230 | appending an entry to the C dict is inserting into the map |
| ParameterNative.NativeFormIsTidy | c/src/parameter.rs:787-841 | C to native and back gives the same tree if and only if no dict in it repeats a key or is out of order |
| BTreeMap.LastWriterWins | c/src/parameter.rs:1216-1225 | collecting entries gives a sorted map with the last value of every key and no other key |
| BTreeMap.LessIsLexicographic | c/src/parameter.rs:1216-1225 | the order of keys is that of byte strings: a proper prefix comes first, and otherwise the smaller byte where they part |
| BTreeMap.CollectsLastEntries | c/src/parameter.rs:1216-1225 | an entry is in the collected map if and only if it is in the list and its key is nowhere behind it |
| BTreeMap.CollectSorted | c/src/parameter.rs:1233-1240 | collecting the entries of a map gives the map |
| BTreeMap.Extensional | c/src/parameter.rs:1216-1225 | maps that agree on every key are the same sequence of entries |
| ParameterConversion.IntoNative | c/src/parameter.rs:787-828 | the consuming conversion returns the value of the tree and frees all of its blocks, except those that the array conversion leaks; frees with a wrong size are counted exactly |
| ParameterConversion.IntoNatives | c/src/parameter.rs:1079-1088 | the elements are converted in order and consumed |
| ParameterConversion.IntoPairs | c/src/parameter.rs:1216-1225 | the entries are converted in order and consumed, the values of repeated keys too |
| ParameterConversion.IntoParameters | c/src/parameter.rs:84-93 | a parameter array is converted in order and consumed; its own buffer is freed with its capacity |
| ParameterConversion.CleanIffExactFit | c/src/parameter.rs:1079-1088 | the conversion leaks nothing and frees nothing with a wrong size if and only if every value array in the tree is exactly full |
| ParameterConversion.HalfFullArrayMisfits | c/src/parameter.rs:1079-1088 | an array for two values that got one is freed with the wrong size |
| ParameterConversion.EmptyArrayLeaks | c/src/parameter.rs:1079-1088 | an array with capacity that was never filled leaks exactly its buffer |
| ParameterConversion.FromValue | c/src/parameter.rs:830-841 | building the C form of a value gives a singly owned tree of that value in new blocks |
| ParameterConversion.FromAllParameters | c/src/parameter.rs:109-114 | the same for a list of parameters, in order |
| ParameterConversion.BuiltConvertsBack | c/src/parameter.rs:787-841 | whatever addresses it got, a built tree converts back to the value it was built from |
| ParameterApi.Replaced | c/src/parameter.rs:1277-1299 | merging trees into one keeps the forest: one owner for each block, and no block lost |
| ParameterApi.Removed | c/src/parameter.rs:877-906 | releasing trees keeps the forest, and what was not freed is on the list of leaks |
| ParameterApi.CloneIsSeparate | c/src/parameter.rs:843-875 | a clone shares no block with any tree, and any change that leaves a tree's own blocks alone leaves that tree in place |
| ParameterApi.Library.CloneHandle | c/src/parameter.rs:1008-1015 | cloning a handle adds an equal tree that is separate from all others; null gives null |
| ParameterApi.Library.FreeHandle | c/src/parameter.rs:1023-1030 | freeing a handle removes exactly its blocks, each once and with its size; null is ignored |
| ParameterApi.Library.VecCreate | c/src/parameter.rs:1124-1130 | a new vector handle is empty, has at least the capacity asked for, and shares nothing |
| ParameterApi.Library.VecPush | c/src/parameter.rs:1138-1152 | the element's tree becomes the last element, and its handle is gone; on a null array the element is released |
| ParameterApi.Library.DictInsert | c/src/parameter.rs:1277-1299 | the value's tree becomes the value of a new last entry; on a null dict or a bad key the value is released |
| ParameterApi.Library.ParameterCreate | c/src/parameter.rs:311-338 | the value's tree becomes the value of the new parameter; on a null out pointer or a bad name it is released |
| ParameterApi.Library.ValueCreate | c/src/parameter.rs:913-943 | a scalar gets a box of its own, and nothing else changes |
| ParameterApi.Library.ValueCreateString | c/src/parameter.rs:949-966 | the text is copied; the codes for a null out pointer and for bad text |
| ParameterApi.Library.ValueFromVec | c/src/parameter.rs:975-1003 | an array or dict becomes a value: the same tree in a box of its own, and the old handle is gone |
| ParameterRuns.Program.Run | c/src/parameter.rs:125-1310 | after any sequence of create, move, push, insert, clone, free, publish and server callback calls, every pointer stands for what the calls mean without a heap, and the server was given exactly those parameters; every live block that was not leaked has exactly one owner among the pointers; with all pointers given up nothing but leaks is left; what is leaked, and how often a buffer is freed with a wrong size, is exactly the union and the sum over the arrays that the server has taken, and so nothing if and only if all of their value arrays were exactly full |
| ParameterRuns.Program.Make | c/src/parameter.rs:125-1310 | each call does what `ParameterModel.World.Step` says, keeps pointers and trees in step, and the server takes an array only where the source converts one |
| ParameterRuns.Program.Publish | c/src/server.rs:698-717 | the pointer is given up on every path; only an open server takes the array |
| ParameterRuns.Program.GetParameters | c/src/server.rs:932-963 | the pointer that the callback returns is given up, and the array is taken once |
| ParameterRuns.Program.BeginSetParameters | c/src/server.rs:965-985 | the callback gets a pointer that it cannot give up, to an array that shares no block with its own |
| ParameterRuns.Program.EndSetParameters | c/src/server.rs:986-998 | after any calls in between, the lent array is released and the returned one taken, each once |
| ParameterRuns.AccountedMore | c/src/parameter.rs:1079-1088 | one more array adds exactly its own leaks and misfits to those of a run |
| ParameterRuns.CleanIffAllFit | c/src/parameter.rs:1079-1088 | a run has leaked nothing and freed nothing with a wrong size if and only if every array that the server took was exactly full at every depth |
| ParameterRuns.PointersOwn | c/src/parameter.rs:141-155 | each live block has exactly one pointer from which it is reached |
| ParameterServer.PublishParameterValues | c/src/server.rs:698-717 | the array is consumed on every path; only an open server is given the parameters, which are those of the array |
| ParameterServer.OnGetParameters | c/src/server.rs:932-963 | the array that the callback returns is consumed once, and its parameters are the reply; null is an empty reply |
| ParameterServer.BeginSetParameters | c/src/server.rs:965-985 | the callback is lent an array of its own that says what the parameters say; without a handler nothing happens |
| ParameterServer.EndSetParameters | c/src/server.rs:986-998 | whatever calls the callback has made in between, the lent array is released and the returned one consumed, each once, and nothing else changes |
| ParameterServer.LentParameters | c/src/server.rs:971-985 | the array that the callback reads says exactly what the native parameters say |
| ParameterServer.ParameterConvertsBack | c/src/parameter.rs:257-265 | a parameter built from a native one converts back to it, at any addresses |
| Base64.EncodedDecodes | c/src/parameter.rs:450-459 | decoding undoes encoding for every byte string |
| Base64.DecodedEncodes | c/src/parameter.rs:570-600 | whatever the strict decoder accepts is the encoding of its result |
| Base64.DecodeIffEncoded | c/src/parameter.rs:570-600 | a text decodes to given bytes if and only if it is their encoding: wrong padding and stray bits are refused |
| Base64.OctetsOfSextets | c/src/parameter.rs:450-459 | regrouping bits into sextets and back loses nothing and leaves no stray bits |
| Base64.SextetsOfOctets | c/src/parameter.rs:570-600 | the other direction, for canonical digits |
| Base64.GroupsKeepBits | c/src/parameter.rs:450-459 | the 24 bits of each three bytes are those of four digits, the highest first |
| Base64.LastGroupIsFilled | c/src/parameter.rs:450-459 | one or two bytes at the end are filled up with zero bits |
| Base64.CharIsTable | c/src/parameter.rs:450-459 | the 64 characters of section 4 of RFC 4648, and `=` for padding |
| Base64.EstimateIsTight | c/src/parameter.rs:552-553 | for every n bytes the estimate lies between n and n + 2 |
| Base64.EstimateCountsGroups | c/src/parameter.rs:552-553 | three for every started group of four characters, for texts of any length |
| Base64.EncodingIsText | c/src/parameter.rs:450-459 | base64 text is a valid string, so it can be a parameter's value |
| ParameterBytes.CreateByteArray | c/src/parameter.rs:450-459 | the parameter has the byte array type and holds the encoding of exactly these bytes |
| ParameterBytes.GetDecodedSize | c/src/parameter.rs:542-555 | the estimate for the text, or an untouched length and `ValueError` unless the type is that of byte arrays and the value is a string |
| ParameterBytes.DecodeByteArray | c/src/parameter.rs:570-600 | on success exactly the decoded bytes and their count are written within the capacity; on every failure `*len` is as before; a refused call leaves the buffer alone, and a decoding error changes nothing behind the capacity; `ValueError` unless the type is that of byte arrays and the value is a string |
| ParameterBytes.RoundTrip | c/src/parameter.rs:450-600 | create, clone, free the original, query the size and decode into a buffer of that size: every byte string comes back, with its count |
| ParameterBytes.SizeThenDecode | c/src/parameter.rs:542-600 | the size query and the decoder fit together on any handle that holds encoded bytes |
| ParameterBytes.SameTextWhenEqual | c/src/parameter.rs:240-254 | clones hold the same byte array |
| ParameterBytes.SameTextThroughNative | c/src/parameter.rs:218-265 | conversion to native and back keeps the byte array |
| Utf8.RoundTrip | c/src/lib.rs:95-113 | decoding undoes encoding (section 3 of RFC 3629) |
| Utf8.DecodeIsCanonical | c/src/lib.rs:95-113 | the accepted byte strings are exactly the encodings: no overlong form and no surrogate passes |
| Utf8.ValidIffEncoding | c/src/lib.rs:95-102 | a byte string is text if and only if it encodes some scalar values |
| Utf8.EncodeOneIsTable | c/src/lib.rs:95-102 | the number of octets, the marker bits and the payload of each range, as in section 3 of RFC 3629 |
| CStrings.ReadsItsBytes | c/src/lib.rs:95-102 | null is empty; anything else is read as its bytes if those encode some text, and is refused otherwise |
| JsText.TextRoundTrip | playground/src/urlState.ts:21-45 | text survives the browser's codecs if and only if no surrogate is alone and it does not start with a byte order mark |
| JsText.UnitsOfCodePoints | playground/src/urlState.ts:21-45 | replacing lone surrogates is the only loss, and keeps the length |
| JsText.LoneSurrogatesAreReplaced | playground/src/urlState.ts:21-45 | unit by unit: a surrogate without its other half becomes U+FFFD, and everything else stays |
| JsText.WellFormedIffNoneAlone | playground/src/urlState.ts:21-45 | a string is well formed if and only if no surrogate in it is alone |
| JsText.UnitsAreUtf16 | playground/src/urlState.ts:21-45 | the two surrogates of a code point, as in section 2.1 of RFC 2781 |
| UrlState.UrlForm | playground/src/urlState.ts:10-12 | the URL form of base64 is the text in the URL- and filename-safe alphabet without padding (section 5 of RFC 4648) |
| UrlState.UrlBase64RoundTrip | playground/src/urlState.ts:10-15 | every byte string survives the alphabet and the dropped padding |
| UrlState.CompressRoundTrip | playground/src/urlState.ts:25-45 | a string comes back if and only if it survives the text codecs and fits the limit; above the limit decoding throws |
| UrlState.CompressedForm | playground/src/urlState.ts:24-32 | what stands in the URL is the compressed UTF-8 form in the URL-safe alphabet, without padding |
| UrlState.UrlCharIsTable | playground/src/urlState.ts:9-15 | the 64 characters of section 5 of RFC 4648 |
| UrlState.SplitIs | playground/src/urlState.ts:58-62 | the fields are what stands between the separators |
| UrlState.FieldWithoutValue | playground/src/urlState.ts:58-62 | a field without `=` is a name without a value |
| UrlState.SerializedFields | playground/src/urlState.ts:47-56 | the query string splits into exactly the version, the code, and the layout if there is one, and nothing else |
| UrlState.NamesAreSpelled | playground/src/urlState.ts:47-56 | the names of the fields, the version, and the characters that separate and replace |
| UrlState.VersionIsChecked | playground/src/urlState.ts:58-70 | only the empty string is undefined; a string whose version is missing or not 1 is refused |
| UrlState.FieldsAreRead | playground/src/urlState.ts:71-75 | any string of this version gives a state if and only if both fields decompress and the layout is JSON; a missing or empty field is an empty code, or no layout |
| UrlState.CodeIsRead | playground/src/urlState.ts:47-75 | a state without a layout, or with a null one, comes back with its code as the text codecs read it |
| UrlState.StatesThatAreLost | playground/src/urlState.ts:47-75 | a leading byte order mark is lost, a lone surrogate is replaced, and a null layout comes back as none |
| UrlState.StateRoundTrip | playground/src/urlState.ts:47-75 | a state comes back if and only if its layout is not null, its code is restorable, and both parts fit the limit |
| Contexts.Recounted | rust/foxglove/src/context.rs:35-67 | one owner more or less of a channel keeps every count equal to the number of owners, and what is owned live |
| Contexts.MovedIsCounted | rust/foxglove/src/context.rs:52-54 | so does moving an owner into an index or out of it |
| Registry.Runtime.NewContext | c/src/channel.rs:892-898 | a new context has one owner and no channels |
| Registry.Runtime.BuildRaw | rust/foxglove/src/channel_builder.rs:71-82 | a channel that the context already has open with this descriptor gets one more handle, and otherwise there is a new one with three owners: the handle and both indexes |
| Registry.Runtime.AddChannel | rust/foxglove/src/context.rs:35-67 | a matching channel is cloned and the new one is gone; without a match the new one is in both indexes |
| Registry.Runtime.FindMatch | rust/foxglove/src/context.rs:39-41 | a channel of the topic with this descriptor, if there is one |
| Registry.Runtime.RemoveChannel | rust/foxglove/src/context.rs:70-97 | the channel is in no index any more; it is closed, and gone if it has no handle; all other channels and contexts are as they were |
| Registry.Runtime.CloseChannel | rust/foxglove/src/channel/raw_channel.rs:101-114 | closing an open channel removes it from its context, whose count is the same afterwards; closing it again changes nothing |
| Registry.Runtime.DropContext | rust/foxglove/src/context.rs:344-348 | with its last owner the context is gone, all of its channels are closed, and those without a handle are gone; channels of other contexts are as they were |
| Registry.Runtime.Clear | rust/foxglove/src/context.rs:172-186 | draining both indexes keeps every count right at each step and leaves no entry |
| RegistrySteps.ClearedIsValid | rust/foxglove/src/context.rs:172-186 | when the indexes are empty, the context can go, and everything is consistent without it |
| RegistrySteps.EnrolledIsIndexed | rust/foxglove/src/context.rs:52-54 | a channel that has no match is in both indexes once and is the only one with its descriptor |
| RegistrySteps.WithoutCounts | rust/foxglove/src/context.rs:76-81 | `retain` takes out one channel and keeps the others as often as they were there |
| Channels.ChannelBuilder.BuildRaw | rust/foxglove/src/channel_builder.rs:71-82 | the builder's count of the context goes back when it is consumed |
| Channels.RawChannelCreate | c/src/channel.rs:529-592 | the codes; on failure everything is as it was, counts included; on success there is exactly one more handle, on the channel that was open with this topic, encoding, schema and metadata, or on a new one, and every context count is the same; the topic, encoding, schema name, schema encoding and schema data of the channel are those of the arguments, without data for a null pointer, and its metadata are the last value of each key, in order |
| Channels.DescribedDescribes | c/src/channel.rs:529-592 | every part of the descriptor comes from its own argument |
| Channels.ChannelCreate | c/src/channel.rs:594-611 | the same for channels of a message type, which have no metadata |
| Channels.AddAllMetadata | c/src/channel.rs:573-587 | the loop collects all pairs, or stops at the first string that is not UTF-8 |
| Channels.ChannelClose | c/src/channel.rs:623-629 | the channel leaves its context; no handle is given up, and so it is still there, closed |
| Channels.ChannelFree | c/src/channel.rs:636-642 | exactly one handle is given up: its count becomes a local's, which is dropped; the channel is gone if that was its last owner |
| Channels.ChannelLog | c/src/channel.rs:847-880 | the codes; the handle's count becomes a local's and is forgotten with it, so that every count and owner is as before |
| Channels.LogMessage | c/src/channel.rs:912-939 | the same for typed messages |
| ChannelRuns.Program.Run | c/src/channel.rs:268-939 | after any sequence of calls on contexts, channels and MCAP writers: every writer that is not closed holds its sink, and no call has answered `SinkClosed`; every open writer's file has exactly the records of the successful writes since it was opened, unless a write to it failed; every channel is live if and only if the program points to it or its context advertises it, and its count is the number of those pointers, and two if it is advertised; a context is live if and only if the program points to it or it is the default one, and counted exactly; every box has a pointer, but for those opened without an out pointer |
| ChannelRuns.Program.Make | c/src/channel.rs:268-939 | each call keeps all of this, and answers and changes contexts and channels as the call alone does; the program's pointers change as it returns or takes them |
| ChannelRuns.CloseAccounts | c/src/channel.rs:360-382 | closing a writer changes no other file, and leaves every other pointer with its box |
| ChannelRuns.AccountedSnoc | c/src/channel.rs:395-512 | what a run has added to a file is the concatenation of what its calls have, failed calls adding nothing |
| ChannelRuns.ChannelIsLiveIffOwned | c/src/channel.rs:637-644 | live if and only if owned; counted exactly; advertised if and only if open |
| ChannelRuns.ContextIsLiveIffOwned | c/src/channel.rs:905-910 | the same for contexts |
| ChannelRuns.NothingLeft | c/src/channel.rs:623-644 | a program that has closed all channels and freed all handles leaves no channel behind |
| MetadataPairs.PairsStep | c/src/channel.rs:575-587 | one more pair is collected after the others, or makes the whole call fail |
| MetadataPairs.PairsAre | c/src/channel.rs:575-587 | there are pairs if and only if all keys and values are UTF-8, and each is that of its own item |
| MetadataPairs.CollectsLastItems | c/src/channel.rs:575-587 | the metadata have a key with a value if and only if the last item with this key has this value |
| MetadataPairs.ChannelIterator.Next | c/src/channel.rs:793-821 | a call gives the pair at the index and moves on, or changes nothing at the end |
| MetadataPairs.ChannelIterator.Drain | c/src/channel.rs:793-821 | repeated calls give every remaining pair exactly once in order, end, and stay at the end |
| MetadataPairs.DescriptorIterator.Next | c/src/channel_descriptor.rs:129-157 | the same step on a descriptor |
| MetadataPairs.DescriptorIterator.Drain | c/src/channel_descriptor.rs:129-157 | the same sequence of steps |
| MetadataPairs.DrainBoth | c/src/channel_descriptor.rs:129-157 | both iterators show the same pairs of a channel: its whole metadata in map order |
| MetadataPairs.IterationIsComplete | c/src/channel.rs:575-587 | iteration shows each distinct key given at creation once, in map order, with its last value |
| Mcap.Library.Open | c/src/channel.rs:268-348 | the exact condition of success and of each error; every reference count is the same afterwards; only success leaves anything behind: one box with a new, registered, empty sink, whose address the caller gets if there is an out pointer |
| Mcap.Library.Close | c/src/channel.rs:360-382 | the box is gone, its sink is finished and unregistered even when finishing fails, all other writers are unaffected; a live box is never found closed |
| Mcap.Library.WriteMetadata | c/src/channel.rs:395-440 | the file gets one record with the given name and, in order, the last value of each key, or nothing for an empty map; a call that is refused changes nothing and a failed write no other file; a live writer never reports `SinkClosed` |
| Mcap.Library.Attach | c/src/channel.rs:456-512 | the file gets exactly one record, with the log time, create time, name, media type and data of the attachment; the error cases; a failed write changes no other file; a live writer never reports `SinkClosed` |
| Mcap.Library.FreeContext | c/src/channel.rs:904-910 | freeing the context while writers are open keeps them usable, and gives up one count only |
| Mcap.CollectMetadata | c/src/channel.rs:427-437 | the pairs end up in a map with the last value of each key, unless a string is not UTF-8 |
| Mcap.CollectedIsMetadata | c/src/channel.rs:427-437 | the record has the name and the collected pairs, and is empty only without pairs |
| Mcap.Library.StaysValid | c/src/channel.rs:529-910 | calls on channels and contexts, which keep the sinks of every context that stays and give new contexts new addresses, leave all writers registered and usable |
| ConnectionGraph.ConnectionGraph.SetPublishedTopic | c/src/connection_graph.rs:68-103 | all or nothing: the topic's set becomes exactly the texts of the ids, or the graph is unchanged; the error is that of the first bad argument |
| ConnectionGraph.ConnectionGraph.SetSubscribedTopic | c/src/connection_graph.rs:129-164 | the same for subscribers |
| ConnectionGraph.ConnectionGraph.SetAdvertisedService | c/src/connection_graph.rs:192-225 | the same for services |
| ConnectionGraph.Validate | c/src/connection_graph.rs:77-99 | the checks that come before any change: they read exactly the texts of all ids, or find the first bad one |
| ConnectionGraph.ConnectionGraph.Run | c/src/connection_graph.rs:68-225 | any sequence of calls leaves the fold of the calls, each answered as if alone |
| ConnectionGraph.HistoryDecides | c/src/connection_graph.rs:68-225 | for each map and name, the graph has exactly the ids of the last call that set it: a text is in the set if and only if it is that of one of the ids |
| ConnectionGraph.OtherNamesStay | c/src/connection_graph.rs:68-225 | what no call sets stays as it was |
| ConnectionGraph.ReadAllIs | c/src/connection_graph.rs:85-99 | if all ids are text, exactly their texts are read; otherwise the first bad one decides, with `ValueError` for a null pointer and `Utf8Error` for bad text |
| ConnectionGraph.AnswerIs | c/src/connection_graph.rs:77-99 | the name is checked first, then a null array with a count, then the ids; a count of zero succeeds |
| ConnectionGraph.FailuresLeaveNoTrace | c/src/connection_graph.rs:68-225 | failed calls and calls without ids might as well not have been made |
| ConnectionGraph.ConnectionGraph.ReplaceWith | rust/foxglove/src/websocket/connection_graph.rs:185-191 | the maps become those of the new graph, and the update is the difference |
| ConnectionGraph.DifferenceIs | rust/foxglove/src/websocket/connection_graph.rs:103-172 | the update has exactly the new and changed names with their new sets, and the names that are in no map any more |
| ConnectionGraph.UpdateRestores | rust/foxglove/src/websocket/connection_graph.rs:103-191 | applying the update to the old graph gives the new one if and only if no topic leaves one of the two topic maps while it stays in the other; services are always right |
| ConnectionGraph.LostPublisher | rust/foxglove/src/websocket/connection_graph.rs:157-172 | a change for which `diff` computes an empty update, although there is an update that expresses it |
| ConnectionGraph.SomeUpdateRestores | rust/foxglove/src/protocol/common/server/connection_graph_update.rs:12-24 | for any two graphs some update leads from one to the other |
| ConnectionGraph.InitialUpdateIsComplete | rust/foxglove/src/websocket/connection_graph.rs:174-178 | the initial update gives the whole graph |

## Left out

- Protobuf encoding and schema bytes: `encode` is any function from messages to bytes; the encoder and its length agree.
- The other generated message types, and the `create`, `log` and `schema` functions generated for each type: the same
  field-by-field template. Fixed-size arrays of numbers are treated like byte strings.
- Normalisation of timestamps and durations, enum conversions, capability flags, error texts, the logging level.
- Floating-point numbers are opaque.
- `usize` overflow in `n * size_of::<T>()`, zero-sized element types, and running out of memory.
- The arena's buffer is a window of one memory that is addressed by bytes, not a Dafny array of its own.
- The growth policy of vectors: a new buffer has some capacity that is large enough.
- On the error branch of `string_from_raw` the error owns the borrowed bytes; what becomes of the caller's memory then
  is not part of this model.
- C handles of values, arrays, dicts, parameters and parameter arrays are all boxes around a tree.
- ParameterBytes.DecodeByteArray: with a null buffer and text that does not decode, the model allows an error or a panic;
  what a decoder that finds a bad character has written within the capacity is left open, and on success the decoder is
  taken to write the decoded bytes only, as the documentation of the function says.
- The order of the blocks that a clone allocates.
- The zstd and JSON libraries are parameters with stated inverses; malformed UTF-8 in `TextDecoder` and percent-encoding
  in `URLSearchParams` are left out (the values that are written have only safe characters).
- WebSocket server, sockets, TLS, files and the MCAP format: a sink is its list of records, and the answers of the
  operating system and of the MCAP library are arguments. What a failed write leaves in its file is not modelled.
- Channels.ChannelLog: does not model what the channel does with the message, because delivery goes through the
  subscriptions of sinks, which are not part of this model; a file is its list of metadata and attachment records.
- Channels.LogMessage: the same.
- The channels that connected WebSocket clients own.
- Addresses of contexts and channels are not given out again after they have been freed.
- ConnectionGraph.UpdateRestores: the subscriber that applies an update, removals first and then the entries, is an
  assumption, because the repository has no consumer of updates.
- Callbacks: only what the parameter callbacks return is modelled. The returned array is not the lent one.
- Service, asset and playback handlers, and threads: every call is atomic.
