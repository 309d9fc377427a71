# z-apparatus in Dafny

This project models the core of z-apparatus, a Z-machine interpreter written
in JavaScript, and proves properties of the model. The Z-machine runs
interactive-fiction story files. Its state is a byte array (the story file
image, whose first 64 bytes are the header), a stack of routine call frames
and a program counter. One step of `run` decodes the instruction at the
program counter, reads its operands, moves the program counter past the
instruction and executes it.

The repository holds the interpreter twice:

- `run.js` is the working version, with everything in one file;
- the older modules it grew out of are `decodeText.js`, `encodeText.js`,
  `decodeInstruction.js`, `executeInstruction.js`, `object.js`,
  `parseText.js`, `decodePropertyTable.js` and the small helpers
  (`rw16.js`, `header.js`, `performCall.js`, `performStore.js` and so on).

Both are modelled. Where they differ, the model of the older modules is
kept as written, and a lemma shows the difference.

How the model is built:

- Code that computes a value (header getters, the text codec, the
  instruction decoder, property records, the tokenizer) is a function over
  `seq<byte>`, with lemmas.
- Code that changes the state step by step is a method on the class
  `MachineState.Machine`. Its memory is an `array<byte>`, and its frame
  stack and program counter are fields the methods reassign. Each method's
  `ensures` ties the new state to a specification function of the old
  state (`State`, a snapshot of the machine). Each loop of the source is a
  `while` loop with its invariants.
- JavaScript number semantics are written out:
  - `& 0xFFFF`, `Int16Array`, ToInt32, and truncating `/` and `%` are in
    `js_numbers.dfy`;
  - bitwise operations are in `bitwise.dfy`;
  - `slice` with negative positions is `Base.JsSlice`;
  - a `Uint8Array` store keeps its value modulo 256 (`Rw16.ToByte`).
- Every `throw` of the source is an `Err(Fault)` result. Faults also stand
  for the source's endless loops and for reads through an undefined value;
  see "Left out".

Files:

- `base.dfy`, `bitwise.dfy` and `js_numbers.dfy` hold shared definitions.
- `rw16.dfy`, `header.dfy`, `header_flags.dfy`, `alphabets.dfy` and
  `opcodes.dfy` model the helpers.
- `machine.dfy`, `variables.dfy` and `routines.dfy` model state, variables,
  calls, returns and branches.
- `text_decoder.dfy`, `text_encoder.dfy` and `text_round_trip.dfy` model the
  z-string codec.
- `decoder.dfy` models instruction decoding.
- `objects.dfy`, `object_lists.dfy`, `properties.dfy`, `property_table.dfy`
  and `object_laws.dfy` model the object table.
- `dictionary.dfy`, `tokenizer.dfy`, `input.dfy` and `parser.dfy` model the
  dictionary and `parseText`.
- `execution.dfy`, `execution_laws.dfy`, `interpreter.dfy` and `runner.dfy`
  model `executeInstruction` and `run` of `run.js`.
- `legacy_execution.dfy`, `legacy_interpreter.dfy` and `legacy_laws.dfy`
  model `executeInstruction.js`.

## Model

| member | source | states |
|---|---|---|
| Rw16.ByteAt | rw16.js:2 | A byte of memory as bit operations see it: the stored byte inside memory, 0 outside it |
| Rw16.ToByte | run.js:543-545 | The value a `Uint8Array` keeps: unchanged for 0..255, otherwise congruent modulo 256 |
| Rw16.Read16 | rw16.js:1-3 | read16 is a word whose high byte is the byte at `a` and whose low byte is the next one |
| Rw16.Poked | run.js:1462-1470 | `memory[a] = x` changes only byte `a`, to `x` modulo 256, and keeps the length |
| Rw16.Written16 | rw16.js:5-8 | write16 puts the high byte at `a` and the low byte at `a + 1` and changes no other byte |
| Rw16.WordBytes | rw16.js:6-7 | The two bytes write16 stores put back together give the value modulo 2^16 |
| Rw16.Read16OfWritten16 | rw16.js:1-8 | A word written with write16 reads back with read16, truncated to 16 bits |
| Rw16.Read16OfWritten16Elsewhere | rw16.js:1-8 | write16 leaves every word it does not overlap unchanged |
| Rw16.Written16Twice | rw16.js:5-8 | A second write16 to the same address hides the first |
| Rw16.Written16Same | rw16.js:5-8 | Writing back the word that is already there changes nothing |
| Rw16.SetByte | run.js:543-545 | The in-place byte store leaves the array as Poked says |
| Rw16.Write16 | rw16.js:5-8 | The in-place write16 leaves the array as Written16 says |
| Header.Version | header.js:3-5 | getVersion is byte 0 of memory |
| Header.HeaderWord | header.js:7-33 | A header getter is the big-endian word at its field, always a word |
| Header.DictionaryAddress | header.js:7-9 | getDictionaryAddress is the word at 0x08 |
| Header.ObjectTableAddress | header.js:11-13 | getObjectTableAddress is the word at 0x0A |
| Header.GlobalTableAddress | header.js:15-17 | getGlobalTableAddress is the word at 0x0C |
| Header.AbbreviationsTableAddress | header.js:19-21 | getAbbreviationsTableAddress is the word at 0x18 |
| Header.RoutinesOffset | header.js:23-25 | getRoutinesOffset is the word at 0x28 |
| Header.StaticStringsOffset | header.js:27-29 | getStaticStringsOffset is the word at 0x2A |
| Header.AlphabetTableAddress | header.js:31-33 | getAlphabetTableAddress is the word at 0x34 |
| Header.HeaderWordAfterWrite | header.js:7-33 | The getters keep no cache: a header field written with write16 reads back the new word, and a write elsewhere leaves it alone |
| Header.VersionAfterWrite | header.js:3-5 | The version changes only through a store to byte 0 |
| HeaderFlags.FlagsInitialised | initHeaderFlags.js:1-29 | initHeaderFlags keeps the length of memory |
| HeaderFlags.EarlyFlags1Bits | initHeaderFlags.js:5-12 | The early-version update of Flags 1 sets bit 4, clears bits 5 and 6, and keeps the other bits |
| HeaderFlags.EarlyFlags | initHeaderFlags.js:5-12 | Versions 1-3: Flags 1 ends with bit 4 set and bits 5 and 6 clear; every other bit and every other byte keeps its value |
| HeaderFlags.LateFlags | initHeaderFlags.js:13-28 | Versions 4 and later: Flags 1 keeps only bit 6, Flags 2 loses bits 3, 4, 5 and 7, and every other byte keeps its value |
| HeaderFlags.EarlyFlags1Twice | initHeaderFlags.js:5-12 | The early Flags 1 update done twice is done once |
| HeaderFlags.FlagsInitialisedIdempotent | initHeaderFlags.js:1-29 | initHeaderFlags run twice has the effect of running it once |
| HeaderFlags.InitHeaderFlags | initHeaderFlags.js:1-29 | The in-place version leaves memory as FlagsInitialised says |
| Alphabets.AlphabetRows | getAlphabets.js:3-11 | getAlphabets gives three 26-character rows: lower case, upper case, and a third row that starts with a space and holds '<' in version 1 and a newline later |
| Alphabets.ThirdRow | getAlphabets.js:7-9 | Version 1's third row has '<' and no newline; later versions have the newline and no '<' |
| Alphabets.IndexOf | encodeText.js:15 | indexOf is -1 exactly when the character is absent, and otherwise a position holding it |
| Alphabets.IndexOfIn | encodeText.js:15-20 | indexOf finds a character if and only if it occurs in the row |
| JsNumbers.Low16 | run.js:799-806 | `x & 0xFFFF` is a word congruent to `x` modulo 2^16 |
| JsNumbers.Int16 | run.js:821 | `new Int16Array([x])[0]` is the signed word congruent to `x` modulo 2^16 |
| JsNumbers.Int16Views | performBranch.js:9 | The signed view keeps words below 0x8000, takes 0x10000 from the larger ones, and `& 0xFFFF` undoes it |
| JsNumbers.TruncDivMod | run.js:933-941 | JavaScript's truncating quotient and remainder satisfy `a == b*q + r` with `abs(r) < abs(b)` |
| JsNumbers.DivWord | run.js:933-941 | `(a / b) & 0xFFFF` is a word, 0 for a division by zero |
| JsNumbers.ModWord | run.js:1172-1181 | `(a % b) & 0xFFFF` is a word, 0 for a division by zero |
| JsNumbers.ShiftLeftWord | run.js:1167 | `(x << k) & 0xFFFF` is a word |
| JsNumbers.ShiftRightWord | run.js:824 | `(x >> k) & 0xFFFF` is a word |
| JsNumbers.ShiftRightUnsignedWord | run.js:1165 | `(x >>> k) & 0xFFFF` is a word |
| JsNumbers.Digits | run.js:1238-1245 | The digits of a number are decimal digits with no leading zero |
| JsNumbers.DecimalRoundTrip | run.js:1238-1245 | `n.toString(10)` reads back as `n`, starts with '-' exactly for negative `n`, and has no leading zero |
| JsNumbers.JsAndOfWords | run.js:807-814 | `a & b` of two words is the bitwise and of their sixteen bits |
| Opcodes.LookupOpcode | lookupOpcode.js:1-5 | `find` gives None exactly when no entry has this code and operand count, and otherwise the first entry that has them |
| MachineState.Machine.constructor | index.js:39-48 | The machine holds the given memory, opcode table, frames and pc |
| MachineState.TopFrame | run.js:664-666 | The top frame exists exactly when the frame stack is not empty, and it is the last frame |
| MachineState.WithTopFrame | run.js:677-687 | Replacing the top frame keeps memory, pc and the frames below it |
| Variables.DecodeVariable | decodeVariable.js:1-9 | Variable 0 is the stack, 1-15 are locals 0-14, and 16-255 are globals 0-239 |
| Variables.Pushed | run.js:1283-1290 | push appends the value to the top frame's stack, and fails exactly when there is no frame |
| Variables.Popped | variables.js:6-9 | A stack read pops the top frame's stack, and fails exactly when there is no frame or the stack is empty |
| Variables.LocalValue | run.js:667-668 | A local reads the top frame's local if it exists |
| Variables.LocalSet | run.js:681-682 | A local store succeeds exactly when the top frame has that local |
| Variables.Pulled | run.js:1271-1282 | pull pops the top frame's stack without an underflow check and stores the value through the descriptor; pc is unchanged, and without a frame it fails |
| Variables.LoadedIsDereferenced | variables.js:4-17 | variableLoad of a number is performDereference of its decoded descriptor |
| Variables.StoredIsStoredThrough | variables.js:19-29 | variableStore of a number is performStore through its decoded descriptor |
| Variables.DereferenceChangesOnlyTheStack | performDereference.js:4-28 | Reading a local, a global or a constant changes nothing; a stack read changes only the frames |
| Variables.StoreThenLoad | run.js:662-687 | A store followed by a load of the same variable gives the value back (a global truncated to 16 bits), and the load's pop undoes a stack store's push |
| Variables.PullFromEmptyStack | run.js:1278-1280 | A pull from an empty stack into a global stores 0 and keeps the frames; into a local or the stack it fails |
| Variables.LocalStoreLeavesOthers | run.js:681-682 | A store to one local leaves the other locals, the lower frames, memory and pc alone |
| Variables.VariableLoad | run.js:662-675 | variableLoad in place returns the value Loaded gives and leaves the machine in Loaded's state, or fails and changes nothing |
| Variables.VariableStore | run.js:677-687 | variableStore in place leaves the machine in Stored's state, or fails and changes nothing |
| Variables.PerformDereference | performDereference.js:4-28 | performDereference in place returns Dereferenced's value and state |
| Variables.PerformStore | performStore.js:4-20 | performStore in place leaves the machine in StoredThrough's state |
| Variables.PullInPlace | run.js:1271-1282 | pull in place leaves the machine in Pulled's state |
| Routines.UnpackAddressScales | unpackAddress.js:3-18 | Outside versions 6 and 7 a packed address is the address divided by the version's unit; in every version different packed addresses of one kind give different addresses |
| Routines.RoutineAt | decodeRoutine.js:4-21 | A routine has as many locals as its count byte says |
| Routines.WithArguments | performCall.js:8-12 | Overwriting defaults with arguments keeps the number of locals |
| Routines.CallPushesOneFrame | performCall.js:4-23 | A call pushes one frame and leaves memory and the other frames alone. The frame has an empty stack, counts every argument, and resumes at the old pc. Its locals are the routine's defaults (words up to version 4, zeros later), the first min(#args, #locals) replaced by the arguments. pc moves to the first instruction |
| Routines.StoredIgnoresPc | performStore.js:4-20 | A store neither reads nor changes pc |
| Routines.CallThenReturn | performReturn.js:3-9 | A call followed by a return gives back the caller's state, with the value stored in the result variable if there is one |
| Routines.BranchMoves | performBranch.js:3-12 | A branch by an offset other than 0 and 1 keeps frames and memory and moves pc by the signed offset less 2 |
| Routines.DefaultLocal | decodeRoutine.js:8-15 | Local `i` starts as the word after the count up to version 4, and as zero later |
| Routines.DecodeRoutine | decodeRoutine.js:4-21 | The header loop returns RoutineAt |
| Routines.PerformCall | performCall.js:4-23 | performCall in place leaves the machine in Called's state |
| Routines.PerformCallInline | run.js:622-652 | run.js's performCall, with its one loop, leaves the machine in Called's state too |
| Routines.ReadLocals | run.js:627-645 | The loop gives the routine's defaults with the arguments over them, and the first instruction's address |
| Routines.PerformReturn | performReturn.js:3-9 | performReturn in place leaves the machine in Returned's state |
| Routines.PerformReturnByNumber | run.js:654-660 | run.js's performReturn, through variableStore, leaves the machine in Returned's state too |
| Routines.PerformBranch | performBranch.js:3-12 | performBranch in place leaves the machine in Branched's state |
| TextDecoder.ZCharsOfWord | decodeText.js:21-25 | A word holds three z-characters of five bits, most significant first |
| TextDecoder.StepZ | decodeText.js:27-77 | One z-character keeps the decoder's alphabet, shift and pending escapes in range, never starts an abbreviation inside one, and fails only on a nested abbreviation or an unending string |
| TextDecoder.RunZ | decodeText.js:27 | The callback over a run of z-characters keeps the decoder state in range and fails only as one z-character can |
| TextDecoder.DecodeFrom | decodeText.js:15-82 | The word loop's next address lies after its start and at most one byte past the end of memory; it fails only on a nested abbreviation or an unending string |
| TextDecoder.DecodedText | decodeText.js:5-85 | decodeText's next address lies after the start and at most one byte past the end of memory; it fails only on a nested abbreviation or an unending string |
| TextDecoder.DecodeFromEnds | decodeText.js:79-81 | A decoded string is a run of whole words: the address after it is an even number of bytes on, the last word has bit 15 set, and every word before it has bit 15 clear |
| TextDecoder.DecodedTextEnds | decodeText.js:15-84 | decodeText stops after the first word with bit 15 set, and the next address is the start plus two bytes per word read |
| TextDecoder.DecodeText | decodeText.js:5-85 | The word loop and the z-character loop return DecodedText |
| TextEncoder.CharZChars | encodeText.js:11-25 | A character has one or two z-characters, or none |
| TextEncoder.CharZCharsNone | encodeText.js:23-25 | A character has no z-characters exactly when no row has it and it is not a space (nor '\0' in run.js's variant) |
| TextEncoder.ZCharsOfText | encodeText.js:11-26 | A successful encoding has one or two z-characters per character |
| TextEncoder.ZCharsSkipping | run.js:227-245 | run.js's encoder gives at most two z-characters per character, and at least one per character when every character is encodable |
| TextEncoder.PackedWord | encodeText.js:29-32 | A packed word is a word with bit 15 set exactly when it is the last one |
| TextEncoder.EncodedPacks | encodeText.js:28-35 | A successful encoding is two bytes per started group of three z-characters |
| TextEncoder.PackFromLength | encodeText.js:28-35 | The packing loop emits one word per started group of three z-characters |
| TextEncoder.Pack | encodeText.js:28-35 | The packing loop returns PackFrom |
| TextEncoder.EncodeText | encodeText.js:4-38 | encodeText in place returns Encoded |
| TextEncoder.ZCharsOfTextStep | encodeText.js:11-26 | One character of the encoding loop, followed by the rest of the text |
| TextEncoder.EncodeTextSkipping | run.js:220-257 | run.js's encodeText returns EncodedSkipping |
| TextRoundTrip.RunZAppend | decodeText.js:27 | Running two z-character sequences one after the other is running their concatenation |
| TextRoundTrip.CharDecodes | decodeText.js:63-74 | The z-characters of one encodable character decode, from a neutral decoder, to exactly that character |
| TextRoundTrip.UnshiftedDecodes | decodeText.js:63-71 | A character of the current row: its one z-character appends it |
| TextRoundTrip.ShiftedDecodes | decodeText.js:59-71 | A character of row 1 or 2: the shift, then its index, append it |
| TextRoundTrip.Row1ZChars | encodeText.js:17-19 | A row 1 character is encoded as the shift to row 1 and its index |
| TextRoundTrip.Row2ZChars | encodeText.js:20-22 | A row 2 character is encoded as the shift to row 2 and its index |
| TextRoundTrip.TextDecodes | decodeText.js:27-77 | The z-characters of an encodable string decode, from a neutral decoder, to exactly that string |
| TextRoundTrip.FivesDecodeToNothing | decodeText.js:61-62 | Padding 5s add no text and never fail |
| TextRoundTrip.WordFields | decodeText.js:21-25 | A packed word splits back into the three z-characters it was packed from |
| TextRoundTrip.DecodePacked | decodeText.js:15-82 | The word loop over packed bytes is the z-character loop over the padded z-characters |
| TextRoundTrip.PaddedDecodes | decodeText.js:27-77 | The padded z-characters of an encodable string decode to exactly that string |
| TextRoundTrip.EncodeThenDecode | encodeText.js:4-38 | A nonempty string encodeText accepts, stored at `a`, decodes back to itself, and the decoder stops right after it |
| TextRoundTrip.PackedTextDecodes | encodeText.js:28-35 | The packed z-characters of a string, stored at `a`, decode from `a` to the string |
| TextRoundTrip.EncodeFailsOnFirstUnknown | encodeText.js:23-25 | encodeText fails exactly when some character is in no row, and it names the first one |
| TextRoundTrip.EncodeOkIffEncodable | encodeText.js:11-26 | encodeText succeeds if and only if every character has z-characters |
| TextRoundTrip.FirstUnencodable | encodeText.js:23-25 | The character a failed encodeText names is unencodable, and every character before it is encodable |
| TextRoundTrip.SkippingAgrees | run.js:220-257 | When every character is encodable and none is '\0', run.js's encoder and encodeText.js agree |
| Instructions.FormOf | decodeInstruction.js:18-22 | The form is extended for 0xBE from version 5 on, else variable for top bits 11, short for 10, and long otherwise |
| Instructions.TypeField | decodeInstruction.js:51 | A type field is two bits |
| Instructions.TypesFrom | decodeInstruction.js:50-57 | The types of a type byte are its fields from the top down, up to the first `omitted` |
| Instructions.HeadAt | decodeInstruction.js:18-47 | The head has the byte's form, a next address one byte on (two for extended), at most two types for short and long, and none yet for variable and extended |
| Instructions.ShortHead | decodeInstruction.js:26-33 | Short form: a 0OP when bits 5-4 are `omitted`, else a 1OP of that type, numbered by the low four bits |
| Instructions.LongHead | decodeInstruction.js:34-39 | Long form: a 2OP numbered by the low five bits, each operand a variable when its bit (6, then 5) is set and a small constant otherwise |
| Instructions.VariableHead | decodeInstruction.js:40-43 | Variable form: VAR when bit 5 is set, else 2OP, numbered by the low five bits |
| Instructions.TypesAtCount | decodeInstruction.js:49-69 | At most eight types, none `omitted`; more than four only for call_vs2 and call_vn2 after a second type byte |
| Instructions.OperandBytes | decodeInstruction.js:71-82 | Operands take at least one byte each |
| Instructions.OperandAt | decodeInstruction.js:71-82 | A large constant takes two bytes and any other operand one |
| Instructions.OperandsFrom | decodeInstruction.js:71-82 | One operand per type, of the matching kind, ending after all their bytes |
| Instructions.OperandPlacement | decodeInstruction.js:71-82 | Operand `j` is read where the operands before it end |
| Instructions.BranchCondition | decodeInstruction.js:88 | `branchIf` is bit 7 of the first branch byte |
| Instructions.ShortBranchOffset | decodeInstruction.js:89-94 | With bit 6 set the offset is the low six bits, 0..63, in one byte; the sign test never fires |
| Instructions.LongBranchOffset | decodeInstruction.js:95-102 | With bit 6 clear the offset takes two bytes and, read as a signed word, is the fourteen-bit two's complement value |
| Instructions.TailLayout | decodeInstruction.js:83-109 | The store byte comes right after the operands, then the branch bytes, then the text, which alone can fail |
| Instructions.InstructionLayout | decodeInstruction.js:11-116 | decodeInstruction fails only on its inline text. Otherwise it keeps the address, has one operand per type, takes its store byte from right after the operands, and ends past every part |
| Instructions.LayoutAfter | decodeInstruction.js:49-116 | InstructionLayout once the opcode bytes are read |
| Instructions.ReadTypes | decodeInstruction.js:50-57 | The shift loop with its `break` returns TypesIn |
| Instructions.ReadOperands | decodeInstruction.js:71-82 | The operand loop returns OperandsFrom |
| Instructions.ReadTypeBytes | decodeInstruction.js:49-69 | The type-byte loops return TypesAt |
| Instructions.ReadTail | decodeInstruction.js:83-109 | The store, branch and text steps return TailAt |
| Instructions.DecodeInstruction | decodeInstruction.js:11-116 | decodeInstruction returns DecodedInstruction |
| Objects.DefaultPropertyData | object.js:9-20 | A default property is a word; an id outside 1..32 (1..64 from version 4) fails |
| Objects.ObjectBase | object.js:22-34 | An object is valid exactly when its id lies in 1..255 (1..65535 from version 4); any other id fails |
| Objects.ObjectEntriesDisjoint | object.js:22-34 | Entries lie after the defaults table, and two different objects' entries do not overlap |
| Objects.AttributeLocation | object.js:36-48 | An attribute has a location exactly when the object is valid and the attribute is below 32 (48 from version 4); the bit lies within its byte |
| Objects.AttributeSetThenGet | object.js:55-62 | Setting or clearing an attribute reads back the value set, and only that bit of that byte changes |
| Objects.Relation | object.js:64-70 | A link reads exactly for a valid object, as a byte up to version 3 and a word later |
| Objects.RelationSet | object.js:72-80 | A link store succeeds exactly for a valid object, and keeps the length of memory, the version and every object's base |
| Objects.HeaderUnchanged | object.js:72-80 | A write at or above 0x0E leaves the version and the object table address alone |
| Objects.RelationSetThenGet | object.js:64-80 | A link reads back as stored (truncated to a byte or a word), and every other link keeps its value |
| Objects.GetObjectRelation | object.js:64-70 | In place it returns Relation |
| Objects.SetObjectRelation | object.js:72-80 | In place it leaves memory as RelationSet says |
| Objects.SetObjectAttribute | object.js:55-62 | In place it leaves memory as AttributeSet says |
| Objects.SiblingBefore | object.js:90-94 | The walk stops at an object whose sibling link is `obj` |
| Objects.LinkTo | object.js:86-94 | The link that points at `obj` is the parent's child link or the sibling link of the object before it |
| Objects.RelationSetKeepsLinksInMemory | object.js:72-80 | A link write keeps every object's links inside memory |
| Objects.DetachedBypasses | object.js:83-97 | Taking `obj` out of its list redirects the one link that pointed at it to `obj`'s sibling |
| Objects.DetachedKeepsLinks | object.js:83-97 | Detaching keeps the version and every link inside memory |
| Objects.AttachedToObject | object.js:99-107 | Attaching makes `obj` the first child of `dest`, with `dest` as parent and the old first child as sibling |
| Objects.AttachedToNothing | object.js:99-107 | Attaching to 0 leaves `obj` with neither parent nor sibling |
| Objects.StepLinks | object.js:64-80 | RelationSetThenGet for valid objects of a memory whose links lie inside it |
| Objects.MovedLinks | object.js:82-108 | After moveObject, `obj` is `dest`'s first child, ahead of the children `dest` had once `obj` was taken out; moving to 0 leaves it without parent or sibling |
| Objects.DetachObject | object.js:83-97 | The detach, with the walk as a loop, leaves memory as Detached says |
| Objects.MoveObject | object.js:82-108 | moveObject in place leaves memory as Moved says |
| ObjectLists.Without | object.js:90-96 | A list with one element taken out is one shorter and keeps the others in order |
| ObjectLists.WalkStaysOnList | object.js:90-94 | On a list whose links end, the walk stops on the list, at the element whose successor is `obj` |
| ObjectLists.WalkStep | object.js:90-94 | A walk that has not arrived reads the next sibling link and goes on |
| ObjectLists.DetachedUnlinks | object.js:83-97 | Detaching `obj` from a list that ends and holds each object once leaves the parent's list as the old one without `obj`, and `obj` is not on it |
| ObjectLists.DetachedLink | object.js:86-96 | The detach rewrites the link pointing at `obj` to `obj`'s successor |
| ObjectLists.LinkedWithout | object.js:86-96 | Bypassing `xs[k]` leaves `xs` without it as the parent's list |
| ObjectLists.RewriteValid | object.js:86-96 | The link holder is an object and the successor fits in a link |
| ObjectLists.SiblingAfterRewrite | object.js:95-96 | The sibling links of the shortened list after the rewrite |
| ObjectLists.AttachedKeepsSiblings | object.js:99-107 | Attaching leaves every sibling link but `obj`'s alone |
| ObjectLists.MovedPrepends | object.js:82-108 | moveObject puts `obj` at the head of `dest`'s list, ahead of the list `dest` had after the detach; a list that held each object once, and not `obj`, still does |
| ObjectLists.SiblingAfterAttach | object.js:99-107 | The sibling links of `dest`'s old list after the attach |
| ObjectLaws.SetAttrThenTest | run.js:1439-1445 | After set_attr, test_attr branches on true |
| ObjectLaws.ClearAttrThenTest | run.js:900-906 | After clear_attr, test_attr does not branch on true |
| ObjectLaws.InsertThenRelations | run.js:1055-1064 | After insert_obj the object's parent is the destination, so jin branches, and the destination's first child is the object |
| ObjectLaws.RemoveThenRelations | run.js:1389-1396 | After remove_obj the object has neither parent nor sibling |
| ObjectLaws.MovedParentAndChild | run.js:380-406 | After moveObject the object's parent is `dest` and `dest`'s child is the object |
| Properties.PropertiesAddress | object.js:110-114 | A valid object's property table address is a word; an invalid object fails |
| Properties.PropertiesAddressSet | object.js:116-120 | The store succeeds exactly for a valid object |
| Properties.PropertiesAddressSetThenGet | object.js:110-120 | The property table address reads back as a word, and no other object's entry changes |
| Properties.ObjectName | object.js:122-125 | An invalid object fails |
| Properties.FirstPropertyAddress | object.js:127-130 | The first record's address exists exactly for a valid object and lies past the length byte |
| Properties.PropertyNumber | object.js:132-140 | A property number is below 32 (64 from version 4), and nonzero only for a nonzero size byte inside memory |
| Properties.PropertyDataAddress | object.js:142-148 | The data follows one size byte, or two exactly when bit 7 is set from version 4 on |
| Properties.SecondSizeLength | object.js:154-155 | The length a second size byte gives lies in 1..64 |
| Properties.PropertyDataLength | object.js:150-160 | A data length lies in 1..64, and in 1..8 up to version 3 |
| Properties.DataLengthFromDataAddress | object.js:162-173 | The length read back from the data address lies in 1..64 |
| Properties.DataLengthAgrees | object.js:162-173 | Read back from the data address, the length is the record's own length, provided a two-byte header's second byte has bit 7 set, as section 12.4.2.1.1 of the Z-Machine Standards Document 1.1 requires |
| Properties.DataLengthDisagrees | object.js:162-173 | A second size byte with bit 7 clear makes the two lengths differ |
| Properties.NextPropertyAddress | object.js:175-177 | The next record lies 2 to 66 bytes on |
| Properties.PropertyFrom | object.js:181-190 | The walk answers 0, or the address, at or after its start, of a record with that number |
| Properties.PropertyAddress | object.js:179-191 | An invalid object fails, a negative id never ends, and otherwise the answer is 0 or a record with that number |
| Properties.GetObjectPropertyAddress | object.js:179-191 | The loop returns PropertyAddress |
| Properties.PropertyDataAddressOf | object.js:193-196 | It succeeds when the lookup does, and is 0 exactly when the property is absent |
| Properties.PropertyData | object.js:198-206 | Data exists exactly when the property does, with 1 to 64 bytes unless it lies past the end of memory |
| Properties.FirstPropertyNumber | object.js:208-211 | For a valid object, a number below 32 (64 from version 4) |
| Properties.NextPropertyNumber | object.js:213-220 | An absent property fails; a result means the property is present |
| Properties.PropertyDataSet | object.js:222-235 | An absent property fails; a result means the property is present, and memory keeps its length |
| Properties.PropertyDataSetThenGet | object.js:222-235 | After setObjectPropertyData the record keeps its header, its data reads back the value, and no byte outside the one or two written changes |
| Properties.SetObjectPropertyData | object.js:222-235 | In place it leaves memory as PropertyDataSet says |
| PropertyTable.SizeFields | decodePropertyTable.js:19-31 | The number, data address and length of a size byte are those the object.js getters give |
| PropertyTable.DecodeProperty | decodeProperty.js:3-26 | None at the terminator, else a record with exactly `dataLength` bytes of data where memory holds them |
| PropertyTable.RecordsFrom | decodePropertyTable.js:11-35 | The record loop fails only by never ending, on a table that runs past memory |
| PropertyTable.ShortNameIsObjectName | decodePropertyTable.js:5-6 | The short name is getObjectName's |
| PropertyTable.TableDataEmpty | decodePropertyTable.js:33 | Every record whose data starts at or after byte 64 gets no data |
| PropertyTable.IntendedRecordsFrom | decodePropertyTable.js:33 | The record loop with the intended slice fails only by never ending, on a table that runs past memory |
| PropertyTable.IntendedRecordsAgree | decodePropertyTable.js:11-35 | With the intended slice, the table walk lists the records decodeProperty reads one at a time, each after the data of the one before |
| PropertyTable.IntendedRecordsRead | decodePropertyTable.js:11-35 | With the intended slice, every listed record has the number and data address the object.js getters read at its size byte, and as data exactly the record's getPropertyDataLength bytes, inside memory; each size byte follows the data of the record before |
| PropertyTable.IntendedRecordStep | decodePropertyTable.js:19-34 | One record of the intended walk is read at its size byte, and the walk goes on right after its data |
| PropertyTable.PropertyFromFinds | object.js:179-191 | On a descending table, getObjectPropertyAddress finds a property exactly when decodePropertyTable lists a record with that number, and stops at that record |
| PropertyTable.RecordsStep | decodePropertyTable.js:11-35 | A record that is not the terminator heads the list, and the rest starts after its data |
| PropertyTable.DescendingHead | decodePropertyTable.js:11-35 | In a descending table the first record has the largest number and no later record repeats it |
| PropertyTable.NumberNotFirst | object.js:181-190 | A record whose number is above the one sought is skipped |
| PropertyTable.ReadRecords | decodePropertyTable.js:11-35 | The loop returns RecordsFrom |
| PropertyTable.DecodePropertyTable | decodePropertyTable.js:4-41 | decodePropertyTable returns DecodedPropertyTable |
| Dictionary.Separators | run.js:107-111 | The separators are `count` characters |
| Dictionary.SeparatorsAt | run.js:110 | Separator `i` is the byte `i` places after the count |
| Dictionary.DictionaryLayout | run.js:103-136 | Separator `i` is the byte after the count; entry `i` starts `i` entry lengths after the first entry, and its encoded word is the bytes stored there; word and data fill the entry length |
| Dictionary.EntryWordInMemory | run.js:124 | An entry's encoded word is read from memory whenever it lies there |
| Dictionary.ReadSeparators | run.js:107-111 | The separator loop returns Separators |
| Dictionary.ReadEntries | run.js:121-133 | The entry loop returns Entries |
| Dictionary.DecodeDictionaryTable | run.js:103-136 | decodeDictionaryTable returns DecodedDictionary |
| Dictionary.LookupEntry | run.js:569-570 | `find` gives the first entry whose encoded word prefixes the encoding, or None when no entry's does |
| Tokenizer.ClassItems | run.js:552 | On success every character of the class body other than `-` is matched by the class |
| Tokenizer.SpaceSeparates | run.js:552 | The space is always a separator |
| Tokenizer.ClassWithoutDash | run.js:552 | Without a `-` the class compiles, and a character separates if and only if it is the space or a separator |
| Tokenizer.Split | run.js:555 | `split` with a capturing group gives at least one piece |
| Tokenizer.SplitJoins | run.js:555 | The pieces of a split put back together give the text |
| Tokenizer.SplitAlternates | run.js:555 | The pieces alternate: runs without separators at even positions and single separators at odd ones |
| Tokenizer.Padded | run.js:558 | `padEnd(n, '\0')` has length at least `n`, keeps the text, and adds only NULs |
| Tokenizer.Tokens | run.js:556-564 | One token per piece |
| Tokenizer.TokenPositions | run.js:556-564 | Token `k` is at `position` plus the length of the text before it, holds that piece, and has its length |
| Tokenizer.Kept | run.js:565 | Every kept word is visible and one of the tokens, and every visible token is kept |
| Tokenizer.WordsLocate | run.js:554-565 | Every word is a piece found at its position: a run without separators or a single separator |
| Input.LowerAscii | run.js:1382 | No A-Z is left, and every character that is not an upper-case ASCII letter is kept |
| Input.Lowered | run.js:1382 | Lowering keeps the length and leaves no A-Z |
| Input.LoweredIdempotent | run.js:1382 | Lowering twice is lowering once |
| Input.FromLineEnd | run.js:1382 | What `.*` leaves is a suffix of the text, empty or starting with a line terminator |
| Input.Stripped | run.js:1382 | `replace(/\n.*/g, '')` is no longer than the text |
| Input.StrippedHasNoNewline | run.js:1382 | No newline is left |
| Input.StrippedWithoutNewline | run.js:1382 | A text without a newline is kept |
| Input.StrippedIdempotent | run.js:1382 | Stripping twice is stripping once |
| Input.StrippedCutsAtNewline | run.js:1382 | A text whose only line terminators are newlines loses everything from its first newline on |
| Input.StrippedOfNewlines | run.js:1382 | A text that starts with a newline and has only newlines as line terminators strips to nothing |
| Parser.MaxInputLength | run.js:537 | The buffer's room is its size byte, less one up to version 4; NaN outside memory |
| Parser.StoredText | run.js:538 | The stored text is a prefix of the input: empty when the room is NaN, and otherwise as long as the input or the room allows |
| Parser.CharsWritten | run.js:543-545 | The character codes are written one per byte, modulo 256 |
| Parser.TextBufferBelow | run.js:536-548 | The text buffer step writes nothing below the byte after the size byte, so the version stays |
| Parser.TextBufferEarly | run.js:536-548 | Up to version 4: the characters from the byte after the size byte on, then a zero, and nothing else |
| Parser.TextBufferLate | run.js:536-548 | From version 5 on: the length after the size byte, then the characters, and nothing else |
| Parser.LookedUp | run.js:566-572 | One lookup per word |
| Parser.LookedUpWord | run.js:566-572 | Word `k` is token `k` with the first entry whose encoded word prefixes its encoding |
| Parser.BlockWritten | run.js:579-590 | A block changes only its four bytes |
| Parser.BlockReadBack | run.js:579-590 | A block reads back as its word |
| Parser.BlocksWritten | run.js:579-590 | The blocks keep the length of memory |
| Parser.BlocksFrame | run.js:579-590 | The blocks change no byte outside them |
| Parser.BlocksReadBack | run.js:579-590 | Every block reads back as its word; later blocks do not touch earlier ones |
| Parser.ShownWords | run.js:575-576 | As many words as the parse buffer's first byte allows, or all of them when that byte is outside memory |
| Parser.ParseBufferLayout | run.js:574-590 | The count after the size byte is the number of words written, and block `k` describes word `k` |
| Parser.ParseBufferFrame | run.js:574-590 | The parse buffer step changes no byte outside the count and the blocks |
| Parser.ParsedTextFails | run.js:550-552 | parseText fails only when it tokenises with separators that make an out-of-order range; without a `-` it never fails |
| Parser.LegacyParsedTextAgrees | parseText.js:21-22 | The two parseText agree exactly when there is nothing to tokenise; otherwise parseText.js fails |
| Parser.WriteChars | run.js:543-545 | The character loop leaves memory as CharsWritten says |
| Parser.FillTextBuffer | run.js:536-548 | The text buffer step leaves memory as TextBufferFilled says |
| Parser.LookUpWords | run.js:566-572 | The lookup loop returns LookedUp |
| Parser.WriteBlock | run.js:579-590 | One block leaves memory as BlockWritten says |
| Parser.WriteBlocks | run.js:579-590 | The block loop leaves memory as BlocksWritten says |
| Parser.WriteParseBuffer | run.js:574-590 | The parse buffer step leaves memory as ParseBufferWritten says |
| Parser.ParseText | run.js:535-592 | parseText leaves memory as ParsedText says, or fails as it does |
| Parser.LegacyParseText | parseText.js:6-64 | parseText.js leaves memory as LegacyParsedText says, or fails as it does |
| Execution.CharOf | run.js:1230-1237 | Outside the surrogate range, the character's code is the low 16 bits of the number |
| ExecutionLaws.WordThenSub | run.js:1480-1487 | Subtracting after reducing to a word is subtracting, then reducing |
| ExecutionLaws.AddThenSub | run.js:799-806 | add then sub of the same operand gives the first operand back, as a word |
| ExecutionLaws.NotIsWordComplement | run.js:1197-1207 | not gives `0xFFFF - a`, and applied twice gives `a` back |
| ExecutionLaws.NotFlipsEveryBit | run.js:1197-1207 | not flips each of the sixteen bits |
| ExecutionLaws.TestChecksEveryFlag | run.js:1488-1497 | test branches exactly when every bit set in the flags is set in the bitmap |
| ExecutionLaws.AnyEqualIsMembership | run.js:1065-1075 | The `some` over the later operands is membership |
| ExecutionLaws.JeFindsTheFirstOperand | run.js:1065-1075 | je branches exactly when some later operand equals the first |
| ExecutionLaws.SignedComparisons | run.js:1097-1107 | jl and jg compare as signed words, and each is the other with the operands swapped |
| ExecutionLaws.SignedDivision | run.js:933-941 | Truncating division of signed words: quotient times divisor plus remainder is the dividend, and the remainder is smaller than the divisor and has the dividend's sign |
| ExecutionLaws.DivModOfWords | run.js:1172-1181 | div and mod read their operands as signed words and truncate |
| ExecutionLaws.DivModAgree | run.js:933-941 | div and mod agree: read back as signed words, quotient times divisor plus remainder is the dividend |
| ExecutionLaws.ShiftLeftLaw | run.js:1155-1171 | log_shift and art_shift by a count 0..15 give the word times 2^k, modulo 2^16 |
| ExecutionLaws.LogShiftRightLaw | run.js:1155-1171 | log_shift by a negative count gives the word divided by 2^k, rounded down |
| ExecutionLaws.UnsignedShiftRight | run.js:1165 | `(a >>> k) & 0xFFFF` of a word is the word divided by 2^k, rounded down |
| ExecutionLaws.ArtShiftRightLaw | run.js:815-830 | art_shift by a negative count gives, read as signed, the signed word divided by 2^k, rounded toward minus infinity |
| ExecutionLaws.SignedShiftRight | run.js:824 | `(n >> k) & 0xFFFF` of a signed word, read as signed, is `n` divided by 2^k, rounded down |
| ExecutionLaws.StorebThenLoadb | run.js:1462-1470 | storeb then loadb at the same place reads the byte back, and no other byte changes |
| ExecutionLaws.StorewThenLoadw | run.js:1471-1479 | storew then loadw at the same place reads the word back, and only its two bytes change |
| ExecutionLaws.WordStore | run.js:1471-1479 | storew writes the word at `a + 2*b` |
| ExecutionLaws.WordReadBack | run.js:1146-1154 | loadw at `a + 2*b` reads the word written there |
| ExecutionLaws.PushThenPull | run.js:1271-1290 | push then pull stores the pushed value in the variable and leaves the stack as it was |
| ExecutionLaws.IncGlobal | run.js:1029-1037 | inc of a global rewrites its word plus one |
| ExecutionLaws.DecGlobal | run.js:907-915 | dec of a global rewrites its word minus one |
| ExecutionLaws.IncThenDec | run.js:907-1037 | inc then dec of a global leaves the whole state as it was |
| ExecutionLaws.DecAfterIncGlobal | run.js:907-915 | dec of a global just raised by one restores the state |
| ExecutionLaws.SteppedGlobal | run.js:1029-1037 | Stepping a global rewrites its word one up or one down |
| ExecutionLaws.CallThenRet | run.js:859-886 | A call followed by ret gives back the caller's state with the value in the call's result variable; call_vn has none |
| ExecutionLaws.JumpIsUnconditional | run.js:1108-1127 | jump is performBranch by its operand: it has no branch bytes, so the jz case it falls into adds nothing |
| ExecutionLaws.PrintingKeepsState | run.js:1216-1262 | The printing instructions leave memory, frames and pc alone |
| ExecutionLaws.PrintNumIsSigned | run.js:1238-1245 | print_num shows the word as a signed number that reads back as that number |
| Runner.OperandValues | run.js:21-23 | One value per operand, constants as they are; only the frames may change |
| Runner.StopsLeaveStateAlone | run.js:10-20 | run yields exactly when the instruction wants input and none was given, and quits exactly at quit; then nothing changes and nothing is printed |
| Runner.StoreResultKeepsPc | run.js:677-687 | Storing a result leaves pc alone |
| Runner.MovedKeepsPc | run.js:1128-1136 | load, store, pull and push leave pc alone |
| Runner.StoringKeepsPc | run.js:796-1514 | The instructions that store a result leave pc alone |
| Runner.ChangingKeepsPc | run.js:1455-1479 | store, pull, push and the memory and object writes leave pc alone |
| Runner.RandomKeepsPc | run.js:1302-1319 | random leaves pc alone |
| Runner.ReadKeepsPc | run.js:1320-1388 | read leaves pc alone |
| Runner.LoadOperands | run.js:21-23 | The operand loop returns OperandValues' values and state |
| Runner.Run | run.js:10-28 | run returns Ran's outcome, with the machine and the output changed as Ran says |
| Interpreter.StoreResultInPlace | run.js:799-806 | The result store leaves the machine in StoreResult's state |
| Interpreter.BranchOnInPlace | run.js:1118-1127 | The branch test leaves the machine in BranchOn's state |
| Interpreter.QueryObject | run.js:977-1015 | The object queries return ObjectValue |
| Interpreter.ReadLinkInPlace | run.js:942-955 | get_child and get_sibling leave the machine in LinkStep's state |
| Interpreter.StepInPlace | run.js:1029-1037 | The step leaves the machine in Stepped's state |
| Interpreter.CountInPlace | run.js:1038-1054 | inc, dec and the _chk forms leave the machine in Counted's state |
| Interpreter.MoveValueInPlace | run.js:1128-1136 | load, store, pull and push leave the machine in ValueMoved's state |
| Interpreter.WriteObjectInPlace | run.js:1439-1445 | The object writes leave memory as ObjectWritten says |
| Interpreter.StoreMemoryInPlace | run.js:1462-1479 | storeb and storew leave memory as StoredTo says |
| Interpreter.CallInPlace | run.js:831-886 | The calls leave the machine in CallStep's state |
| Interpreter.ReturnInPlace | run.js:1397-1424 | The returns leave the machine in ReturnStep's state |
| Interpreter.JumpInPlace | run.js:1108-1127 | jump leaves the machine in JumpStep's state |
| Interpreter.PrintText | run.js:1216-1262 | The printing instructions return PrintedText |
| Interpreter.ReadInPlace | run.js:1320-1388 | read leaves the machine in ReadStep's state |
| Interpreter.RandomInPlace | run.js:1302-1319 | random leaves the machine in RandomStep's state |
| Interpreter.ExecuteStoring | run.js:796-1514 | The storing cases leave the machine in StoringStep's state |
| Interpreter.ExecuteBranching | run.js:796-1514 | The branching cases leave the machine in BranchingStep's state |
| Interpreter.ExecuteChanging | run.js:796-1514 | The changing cases leave the machine in ChangingStep's state |
| Interpreter.ExecuteQuiet | run.js:796-1514 | The silent cases leave the machine in QuietStep's state |
| Interpreter.ExecutePrinting | run.js:1216-1270 | The printing cases leave the machine in PrintingStep's state, and the output gains its text |
| Interpreter.ExecuteInstruction | run.js:796-1514 | executeInstruction leaves the machine in Executed's state, and the output gains the printed text |
| LegacyExecution.LegacyStore | executeInstruction.js:30-31 | With no result variable the store fails, and with one it is run.js's store |
| LegacyExecution.LegacyStepped | executeInstruction.js:144-153 | inc's step through a descriptor is run.js's step up |
| LegacyExecution.LegacyCalled | executeInstruction.js:53-69 | call's frame is performCall's without an argument count |
| LegacyInterpreter.LegacyStoreInPlace | executeInstruction.js:30-31 | The store leaves the machine in LegacyStore's state |
| LegacyInterpreter.ExecuteLegacyStoring | executeInstruction.js:26-41 | The storing cases leave the machine in LegacyStoring's state |
| LegacyInterpreter.LegacyStepInPlace | executeInstruction.js:144-153 | The step leaves the machine in LegacyStepped's state |
| LegacyInterpreter.LegacyReadLinkInPlace | executeInstruction.js:74-87 | get_child and get_sibling leave the machine in LegacyLinkStep's state |
| LegacyInterpreter.LegacyCountInPlace | executeInstruction.js:154-168 | inc and inc_chk leave the machine in their spec state |
| LegacyInterpreter.LegacyCountSteps | executeInstruction.js:154-168 | inc_chk is the step, then an unsigned comparison |
| LegacyInterpreter.ExecuteLegacyBranching | executeInstruction.js:199-261 | The branching cases leave the machine in LegacyBranching's state |
| LegacyInterpreter.LegacyInsertInPlace | executeInstruction.js:169-198 | insert_obj leaves memory as LegacyInserted says |
| LegacyInterpreter.LegacyCallInPlace | executeInstruction.js:42-73 | call leaves the machine in LegacyCalled's state |
| LegacyInterpreter.LegacyMoveInPlace | executeInstruction.js:328-348 | store, pull and push leave the machine in their spec state |
| LegacyInterpreter.LegacyWriteMemoryInPlace | executeInstruction.js:491-508 | storeb, storew, set_attr and insert_obj leave memory as LegacyMemoryWritten says |
| LegacyInterpreter.ExecuteLegacyChanging | executeInstruction.js:448-508 | The changing cases leave the machine in LegacyChanging's state |
| LegacyInterpreter.ExecuteLegacyQuiet | executeInstruction.js:23-543 | The silent cases leave the machine in LegacyQuiet's state |
| LegacyInterpreter.LegacyFillTextBuffer | executeInstruction.js:434-445 | read fills the text buffer as LegacyReadWritten says |
| LegacyInterpreter.LegacyReadInPlace | executeInstruction.js:372-447 | read without input fails before writing; with input it fills the buffer and then fails |
| LegacyInterpreter.ExecuteLegacyCase | executeInstruction.js:23-543 | Every case but read leaves the machine in LegacyExecuted's state |
| LegacyInterpreter.ExecuteLegacyWorking | executeInstruction.js:280-327 | The printing and silent cases leave the machine as LegacyExecuted says |
| LegacyInterpreter.ExecuteLegacyInstruction | executeInstruction.js:23-543 | executeInstruction.js leaves the machine in LegacyExecuted's state and the output gains its text; read leaves its buffer filled before it fails |
| LegacyLaws.LegacyAddSub | executeInstruction.js:26-33 | add and sub store the sum or difference modulo 2^16, as run.js does |
| LegacyLaws.LegacyStoringAsRun | executeInstruction.js:34-41 | With a result variable, and, or and get_parent store what run.js stores |
| LegacyLaws.LegacyStoreNeedsVariable | executeInstruction.js:30-31 | Without a result variable the store fails, where run.js stores nothing |
| LegacyLaws.LegacyLoadbDoublesIndex | executeInstruction.js:262-270 | loadb reads `array + 2*index`; where that byte differs from `array + index`'s it reads a different value than run.js |
| LegacyLaws.LegacyStorebThenLoadb | executeInstruction.js:491-499 | storeb then loadb with the same operands reads the byte back, the two slips agreeing |
| LegacyLaws.LegacyStorewThenLoadw | executeInstruction.js:500-508 | storew then loadw reads the word back |
| LegacyLaws.LegacyJe | executeInstruction.js:199-209 | je branches exactly when a later operand equals the first |
| LegacyLaws.LegacySignedJumps | executeInstruction.js:210-241 | jl and jg compare as signed words |
| LegacyLaws.LegacyTestNeverBranches | executeInstruction.js:517-526 | test never branches |
| LegacyLaws.LegacyTestMissesFlags | executeInstruction.js:521 | `test 1 1` branching on true: run.js moves pc, executeInstruction.js stays |
| LegacyLaws.LegacyIncAsRun | executeInstruction.js:144-153 | inc is run.js's inc |
| LegacyLaws.LegacyIncChkAgreesBelow | executeInstruction.js:154-168 | inc_chk agrees with run.js while the value and the bound are below 0x8000 |
| LegacyLaws.LegacyIncChkUnsigned | executeInstruction.js:163 | inc_chk of 0xFFFE against 0 branches here and not in run.js |
| LegacyLaws.IncChkCompares | executeInstruction.js:154-168 | Both inc_chk: the same increment, compared signed by run.js and unsigned here |
| LegacyLaws.LegacySetAttrClears | executeInstruction.js:476-482 | set_attr clears the attribute: test_attr afterwards does not branch on true |
| LegacyLaws.LegacyMovesAsRun | executeInstruction.js:341-348 | store and push are run.js's |
| LegacyLaws.LegacyPushThenPull | executeInstruction.js:328-348 | push then pull stores the pushed value and leaves the stack as it was |
| LegacyLaws.LegacyCallZero | executeInstruction.js:42-52 | call of routine 0 stores 0 and pushes no frame |
| LegacyLaws.LegacyCallFrame | executeInstruction.js:53-69 | call pushes one frame with an empty stack, the arguments over the defaults, no argument count, the result variable and the return address |
| LegacyLaws.LegacyCallThenReturn | executeInstruction.js:448-454 | Returning from that frame gives back the caller's state with the value stored |
| LegacyLaws.LegacyInsertLinks | executeInstruction.js:169-198 | After insert_obj the parent is the destination, the destination's child is the object, and its sibling is the child read before unlinking |
| LegacyLaws.UnlinkedKeepsLinks | executeInstruction.js:179-192 | The unlinking keeps the version, the object bases and every link inside memory |
| LegacyLaws.LegacyInsertWalkFails | executeInstruction.js:183-190 | An object that is not its parent's first child cannot be moved |
| LegacyLaws.LegacyReinsertLoops | executeInstruction.js:177-197 | Re-inserting a first child into its own parent makes it its own sibling |
| LegacyLaws.MovedReinsertKeepsSibling | run.js:380-406 | run.js's moveObject re-inserting a first child keeps its sibling |
| LegacyLaws.LegacyReadEarly | executeInstruction.js:434-445 | Up to version 4, read writes memory as run.js's text buffer step does |
| LegacyLaws.LegacyReadLate | executeInstruction.js:434-445 | From version 5 on, read writes the characters from two bytes after the size byte and leaves the length byte alone |
| LegacyLaws.LegacyFaults | executeInstruction.js:537-540 | An opcode without a case, the property cases, and read fail |
| LegacyLaws.LegacyPrintingKeepsState | executeInstruction.js:295-327 | The printing cases leave the state alone, and the others print nothing |

## Left out

- Variables.LocalValue: reading a local beyond the routine's count fails with MissingLocal. `run.js:670-671` reads `undefined` there (`run.js:682-683` stores), and a store grows the locals array; the model does not follow `undefined` into later arithmetic.
- Variables.LocalSet: a store to a local beyond the routine's count fails with MissingLocal, where the source grows the array.
- Variables.Pulled: a pull from an empty stack into a global stores 0, as the source does. A pull into a local or onto the stack would store `undefined`; the model fails with StackUnderflow instead.
- Execution.Arity: an instruction given fewer operands than its case reads fails with MissingOperand. The source reads `undefined` and computes on, so `add` with one operand stores `(a + undefined) & 0xFFFF`, which is 0.
- Input.LowerAscii: `toLowerCase` is modelled for A-Z only. JavaScript lowers all of Unicode ('É' becomes 'é', and 'İ' becomes two code units), which changes what `read` stores and tokenises.
- Input.Lowered: lowers letter by letter with LowerAscii, so the same restriction applies.
- Parser.StoredText: a character is a Unicode scalar value. `length`, `slice` and `charCodeAt` count UTF-16 code units, so a character outside the Basic Multilingual Plane counts as one here and as two in the source.
- Parser.CharsWritten: writes one byte per scalar value. The source writes one byte per UTF-16 code unit, so the same difference applies.
- Execution.CharOf: `String.fromCharCode` of a lone surrogate code becomes U+FFFD, because a Dafny string holds no unpaired surrogates.
- Rw16.ByteAt: a read past the end of memory gives 0 where JavaScript gives `undefined`. The two agree inside bit operations, but not when the value is stored as it is: `loadb` into a local, say. An extended opcode byte at the very end of memory then reads as EXT 0.
- Objects.SiblingBefore: the sibling walk of moveObject loops for ever in the source on a cycle that misses the object; the model stops after more links than there are objects and fails with Diverges.
- TextDecoder.DecodeFrom: a string with no end word before the end of memory loops for ever in the source, because every word there reads as 0; the model fails with Diverges.
- LegacyExecution.LegacyUnlinked: the walk of insert_obj (`executeInstruction.js:183-190`) loops for ever when the object is not its parent's first child (up to version 3); the model fails with Diverges.
- PropertyTable.RecordsFrom: a table without a terminator before the end of memory loops for ever in the source; the model fails.
- Properties.PropertyAddress: a negative property id makes the source walk for ever; the model fails.
- The `random` callback, the `input` string and the `output` object are parameters of `run` and of the interpreter methods; the console, `index.js`'s game loop, save files and the debugging printers (`debugInstruction`, `debugZorkmid`) are not modelled.
- The opcode table is data from `index.js`; the model takes it as a parameter (`Opcodes.OpcodeEntry`) and does not restate its entries.
- `save_undo` stores 0xFFFF (`(-1) & 0xFFFF`) and `set_text_style` does nothing, as in the source; there is no undo state and no text style.
- `decodeDictionaryTable.js` is modelled only as far as `parseText.js` reaches it: it throws at once on the undeclared name `header`.
- The `hackmud` directory is not part of this model.
- Execution.Executed: when `print_ret` prints and then the return fails, the source has already appended the text; the model fails the whole step and keeps no partial output. More generally, the state left behind by an instruction that throws half-way is not specified, except for `read` of `executeInstruction.js`, which writes its buffer and then throws.

## Findings

| source | as written | input that shows it | evidently intended | confidence | as-written member | corrected member |
|---|---|---|---|---|---|---|
| decodePropertyTable.js:33 | `memory.slice(address, length)` uses the length as an end position | any record whose data starts at or after byte 64, as every record of a story file does: its data comes out empty | `slice(address, address + length)` | high, not executed | PropertyTable.TableDataEmpty | PropertyTable.IntendedRecordsRead |
| parseText.js:22 | the `decodeDictionaryTable.js` it calls reads the undeclared `header` (decodeDictionaryTable.js:5) | any `parseText.js` call that tokenises: every version 1-4 call | read the dictionary address with getDictionaryAddress, as run.js:103-136 does | high, not executed | Parser.LegacyParsedTextAgrees | Parser.ParsedTextFails |
| executeInstruction.js:480 | `setObjectAttribute(state, o, a)` passes no value, and `undefined` clears the bit | `set_attr 1 3`, then `test_attr 1 3` on true | set the attribute, as run.js:1439-1445 passes `true` | high, not executed | LegacyLaws.LegacySetAttrClears | ObjectLaws.SetAttrThenTest |
| executeInstruction.js:521 | `operands[0] & operands[1] === operands[1]` parses as `a & (b === b)`, which is `a & true`, never `=== branchIf` | `test 1 1` branching on true | `(a & b) === b` | high, not executed | LegacyLaws.LegacyTestMissesFlags | ExecutionLaws.TestChecksEveryFlag |
| executeInstruction.js:163 | the new value and the bound are compared as unsigned words | `inc_chk` of a variable holding 0xFFFE against 0 branches | a signed comparison, as run.js:1038-1054 makes | high, not executed | LegacyLaws.LegacyIncChkUnsigned | LegacyLaws.IncChkCompares |
| executeInstruction.js:267 | loadb and storeb address `array + 2*index`, the word address | `loadb a 1` where the bytes at `a+1` and `a+2` differ | the byte at `array + index` | high, not executed | LegacyLaws.LegacyLoadbDoublesIndex | ExecutionLaws.StorebThenLoadb |
| executeInstruction.js:183-190 | the sibling walk starts from `undefined` instead of the parent's first child | insert_obj of an object that is not its parent's first child | walk from the first child, as object.js:86-94 does | high, not executed | LegacyLaws.LegacyInsertWalkFails | ObjectLists.DetachedUnlinks |
| executeInstruction.js:177 | the destination's first child is read before the object is unlinked | insert_obj of a first child into its own parent: the object becomes its own sibling | read the child after unlinking, as object.js:99-107 does | high, not executed | LegacyLaws.LegacyReinsertLoops | LegacyLaws.MovedReinsertKeepsSibling |
| executeInstruction.js:14-19 | imports `getDefaultProperty` and `getObjectPropertiesAddress`, which object.js does not export (object.js:237-254), so the property cases call `undefined` | any get_prop, get_prop_addr, get_next_prop or put_prop | the exported functions, as run.js:977-1015 uses them | high, not executed | LegacyLaws.LegacyFaults | PropertyTable.PropertyFromFinds |
