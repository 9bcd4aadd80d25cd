# Profi5E assembler, modelled in Dafny

Profi5E is a two-pass assembler for the Profi 5E, an 8085-style trainer board. It reads a
source text line by line. A line is one of four things:

- a label definition `@name`;
- an address directive `XXXX:`;
- an instruction `MNEMONIC arg,arg`;
- a comment.

The assembler resolves label references written as `@name` in the operand field and picks the
variation of the mnemonic whose operand slots accept the tokens. It then encodes the opcode and
at most one user operand: a byte (KO/KA) or a little-endian 16-bit address (ADR). Each
instruction is placed at the current address.

From the instruction list it computes a memory window. It writes the instruction bytes into a
zeroed binary image of that window and counts a warning for each byte that falls outside. It
also produces a hex listing of the window: one row per instruction, with a NOP wherever no
instruction sits.

The project models each source file in its own form.

- `instruction.dfy`, `asm_instruction.dfy`: the instruction records and the operand
  classification, as datatypes and functions.
- `instruction_register.dfy`: the mnemonic table, as a class with a `map` field that
  `Register` overwrites.
- `parser.dfy`: the parser.
  - Functions specify one line (`ParseLineSpec`), one pass (`RunPass`) and a whole
    `parseContent` call (`ParseContentSpec`).
  - `class Parser` holds the mutable label table, cursor and line counter. Its methods are
    proved to follow those functions, and the address-padding loop stays a `while` loop.
- `parser_lemmas.dfy`: what a pass does to labels and to the layout.
- `profi5e.dfy`:
  - the memory window, as a pure function;
  - the placement loop, as a method that writes an `array` in place and is proved equal to a
    reference image;
  - `buildHexString`, as loops proved equal to a listing function whose rows are
    characterised by lemmas.
- `example_program.dfy`: a four-line program (a label, `LD A,0A`, `JMP @start`, `HLT`) against
  a small mnemonic table, carried through `parseContent` to the bytes of the binary image.
- `kotlin_strings.dfy`, `kotlin_numbers.dfy`: the Kotlin library calls the source relies on
  (`split`, `indexOf`, `padStart`, `toString(16)`, `toInt(16)`, `toUByte(16)`, …).

Exceptions become `Result` values carrying an `AsmError` or `ImageError`. Output, timers,
command-line parsing and file access are left out. The option values the code reads become
parameters (`Options`).

Behaviour of the code worth noting:

- An instruction's size is 1 plus the number of bytes actually encoded (0, 1 or 2), not 1
  plus the number of operand slots.
- The image is packed contiguously from `programStart - first`. It is not indexed by each
  instruction's own address.
- Label substitution starts whenever any label name occurs as a substring of the operand
  field, even without an `@`. The label it then looks up is the text after the first `@`,
  or the whole field when there is none.
- Pass 1 does not run inside the `try` block. Its exception escapes unwrapped
  (`Pass1Failure`). Only pass 2 wraps failures with the line counter, and that counter has
  already counted every line when any line is parsed (`LineFailure`).

## Model

| member | source | states |
|---|---|---|
| KotlinStrings.IndexOf | src/main/kotlin/de/neo/profi5e/Parser.kt:80 | `indexOf(c)`: -1 exactly when `c` is absent, otherwise the position of the first `c` |
| KotlinStrings.ContainsAt | src/main/kotlin/de/neo/profi5e/Parser.kt:79 | `contains(sub)` holds exactly when `sub` starts at some position of the string |
| KotlinStrings.LastIndexOf | src/main/kotlin/de/neo/profi5e/extensions/PrimitiveExtensions.kt:6 | `lastIndexOf(c)`: -1 exactly when `c` is absent, otherwise a position of `c` with no `c` after it |
| KotlinStrings.Split | src/main/kotlin/de/neo/profi5e/Parser.kt:86 | `split(c)` yields at least one piece and no piece contains the separator |
| KotlinStrings.Join | src/main/kotlin/de/neo/profi5e/Profi5E.kt:184-188 | the pieces with the separator between them, the text `split` inverts; its meaning is stated by `SplitJoin`, `JoinSplit` and `JoinAvoids` |
| KotlinStrings.SplitJoin | src/main/kotlin/de/neo/profi5e/Parser.kt:86 | splitting a join of separator-free pieces gives the pieces back |
| KotlinStrings.JoinSplit | src/main/kotlin/de/neo/profi5e/Parser.kt:86 | joining the pieces of a split gives the original text back |
| KotlinStrings.JoinAvoids | src/main/kotlin/de/neo/profi5e/Profi5E.kt:180-185 | a character absent from every piece and different from the separator is absent from the join |
| KotlinStrings.DropLast | src/main/kotlin/de/neo/profi5e/Parser.kt:69 | `dropLast(1)` removes exactly the last character; the empty string stays empty |
| KotlinStrings.TerminatedIsJoinPlusSeparator | src/main/kotlin/de/neo/profi5e/Profi5E.kt:184-188 | pieces each followed by a separator equal their join plus one final separator |
| KotlinStrings.TerminatedSnoc | src/main/kotlin/de/neo/profi5e/Profi5E.kt:180-185 | appending one more separator-terminated piece extends the text by that piece and its separator |
| KotlinStrings.DropLastTerminated | src/main/kotlin/de/neo/profi5e/Profi5E.kt:188 | dropping the final separator of separator-terminated pieces leaves their join |
| KotlinStrings.ReplaceAbsent | src/main/kotlin/de/neo/profi5e/Parser.kt:84 | `replace(pat, rep)` leaves a text that does not contain `pat` unchanged |
| KotlinStrings.ReplaceAll | src/main/kotlin/de/neo/profi5e/Parser.kt:84 | `replace(pat, rep)`, scanning left to right and skipping each replaced occurrence; its meaning is stated by `ReplaceAbsent` and `ParserLemmas.ReplaceAtEnd` |
| KotlinStrings.Upper | src/main/kotlin/de/neo/profi5e/instructions/AsmInstruction.kt:55 | `uppercase()` keeps the length |
| KotlinStrings.UpperDigit | src/main/kotlin/de/neo/profi5e/instructions/AsmInstruction.kt:55-58 | a token whose upper-case form is a single digit is that digit |
| KotlinStrings.Repeat | src/main/kotlin/de/neo/profi5e/Parser.kt:101 | the padding is exactly `n` copies of the pad character |
| KotlinStrings.PadStart | src/main/kotlin/de/neo/profi5e/extensions/PrimitiveExtensions.kt:3 | `padStart(length, pad)` has length max(length, \|s\|) and is pad characters followed by `s` |
| KotlinNumbers.NatToHex | src/main/kotlin/de/neo/profi5e/extensions/PrimitiveExtensions.kt:3 | `toString(16)` of a non-negative value is non-empty, lower-case hex, and has no leading zero unless the value is 0 |
| KotlinNumbers.IntToHex | src/main/kotlin/de/neo/profi5e/extensions/PrimitiveExtensions.kt:3 | `Int.toString(16)` writes a negative value as '-' and the digits of its magnitude |
| KotlinNumbers.ParseHex | src/main/kotlin/de/neo/profi5e/Parser.kt:70 | a radix-16 parse succeeds exactly on non-empty texts of hex digits of either case |
| KotlinNumbers.ParseInt | src/main/kotlin/de/neo/profi5e/Parser.kt:70 | `toInt(16)` succeeds exactly when the text is hex and its value fits in `Int`, and then gives that value |
| KotlinNumbers.ParseUByte | src/main/kotlin/de/neo/profi5e/Parser.kt:105 | `toUByte(16)` succeeds exactly when the text is hex with a value of at most 0xFF, and then gives that value |
| KotlinNumbers.HexRoundTrip | src/main/kotlin/de/neo/profi5e/Parser.kt:100 | `toString(16)` followed by `toInt(16)` gives the value back |
| KotlinNumbers.HexWidth | src/main/kotlin/de/neo/profi5e/Parser.kt:101 | a value's hex text has at most `k` digits exactly when the value is below 16^k |
| KotlinNumbers.HexValueConcat | src/main/kotlin/de/neo/profi5e/Parser.kt:102 | the value of two concatenated hex texts is the first shifted by the second's width plus the second |
| KotlinNumbers.HexValueBound | src/main/kotlin/de/neo/profi5e/Parser.kt:102 | a hex text of `n` digits has a value below 16^n |
| KotlinNumbers.HexValueZeroPrefix | src/main/kotlin/de/neo/profi5e/Parser.kt:101 | prepending '0's does not change a hex text's value |
| KotlinNumbers.ZerosValue | src/main/kotlin/de/neo/profi5e/Parser.kt:101 | a run of '0's is a hex text of value 0 |
| PrimitiveExtensions.PrefixedHexString | src/main/kotlin/de/neo/profi5e/extensions/PrimitiveExtensions.kt:3 | the rendering is max(length, digits) long, ends in the value's hex digits and is '0' before them |
| PrimitiveExtensions.UBytePrefixedHexString | src/main/kotlin/de/neo/profi5e/extensions/PrimitiveExtensions.kt:4 | the same for a `UByte` |
| PrimitiveExtensions.ChangeFileExtension | src/main/kotlin/de/neo/profi5e/extensions/PrimitiveExtensions.kt:6 | fails exactly when the name has no '.'; otherwise it replaces everything from the last '.' with the new extension |
| PrimitiveExtensions.PrefixedHexRoundTrip | src/main/kotlin/de/neo/profi5e/extensions/PrimitiveExtensions.kt:3 | a padded rendering of a non-negative value is lower-case hex and parses back to the value |
| PrimitiveExtensions.UBytePrefixedHexRoundTrip | src/main/kotlin/de/neo/profi5e/extensions/PrimitiveExtensions.kt:4 | a padded byte rendering parses back to the byte |
| PrimitiveExtensions.AddressHexWidth | src/main/kotlin/de/neo/profi5e/Profi5E.kt:180 | an address up to 0xFFFF renders in exactly four characters |
| PrimitiveExtensions.UByteHexWidth | src/main/kotlin/de/neo/profi5e/Profi5E.kt:180-182 | a byte renders in exactly two characters |
| PrimitiveExtensions.ByteRenderingExample | src/main/kotlin/de/neo/profi5e/extensions/PrimitiveExtensions.kt:3 | 0x3e at width 2 renders as "3e" (lower case) |
| PrimitiveExtensions.PaddingExample | src/main/kotlin/de/neo/profi5e/extensions/PrimitiveExtensions.kt:3 | 5 at width 4 renders as "0005" |
| PrimitiveExtensions.NoTruncationExample | src/main/kotlin/de/neo/profi5e/extensions/PrimitiveExtensions.kt:3 | `padStart` never truncates: 0x12345 at width 4 renders as "12345" |
| Instructions.Instruction.ByteSize | src/main/kotlin/de/neo/profi5e/instructions/Instruction.kt:7 | an instruction is at least one byte long |
| Instructions.Instruction.ToBytes | src/main/kotlin/de/neo/profi5e/instructions/Instruction.kt:9-14 | the bytes are the opcode followed by the operands, `byteSize` of them |
| Instructions.Instruction.GetNop | src/main/kotlin/de/neo/profi5e/Profi5E.kt:179 | the NOP at an address is the single byte 0x00 placed at that address |
| AsmInstructions.ValueOf | src/main/kotlin/de/neo/profi5e/instructions/AsmInstruction.kt:43-46 | `valueOf` returns only a constant whose name is exactly the text |
| AsmInstructions.ValueOfName | src/main/kotlin/de/neo/profi5e/instructions/AsmInstruction.kt:43-46 | every constant is found by its own name |
| AsmInstructions.ValueOfComplete | src/main/kotlin/de/neo/profi5e/instructions/AsmInstruction.kt:43-46 | `valueOf` succeeds exactly on the names of constants |
| AsmInstructions.IndexName | src/main/kotlin/de/neo/profi5e/instructions/AsmInstruction.kt:58 | a constant named "INDEX_" + s is an INDEX constant and s is its digit |
| AsmInstructions.FromStringSpec | src/main/kotlin/de/neo/profi5e/instructions/AsmInstruction.kt:53-64 | `fromString` returns `k` exactly when `k`'s name is the upper-cased token, or `k` is INDEX_n and the token is the digit n |
| AsmInstructions.FromString | src/main/kotlin/de/neo/profi5e/instructions/AsmInstruction.kt:53-64 | `fromString` returns only a constant named by the upper-cased token or by "INDEX_" + the token; `FromStringSpec` states the converse |
| AsmInstructions.SlotAccepts | src/main/kotlin/de/neo/profi5e/instructions/AsmInstruction.kt:15-19 | one slot of `getVariation`'s check: the token names that kind, or names no kind and the slot is KA, KO or ADR; `FixedTokenNeverFillsUserSlot` states the consequence |
| AsmInstructions.AsmVariation.Accepts | src/main/kotlin/de/neo/profi5e/instructions/AsmInstruction.kt:9-21 | the arity filter and the slot-by-slot check; `GetVariation` states that the chosen variation is the first one accepting the tokens |
| AsmInstructions.AsmVariation.ContainsUserArguments | src/main/kotlin/de/neo/profi5e/instructions/AsmInstruction.kt:30-32 | `any { KA, KO or ADR }`; `GetUserArgumentIndex` and `UserArgumentAccessorsAgree` state that it holds exactly when the index is non-negative |
| AsmInstructions.FromStringIgnoresCase | src/main/kotlin/de/neo/profi5e/instructions/AsmInstruction.kt:53-64 | tokens that agree up to case classify alike |
| AsmInstructions.DigitUpper | src/main/kotlin/de/neo/profi5e/instructions/AsmInstruction.kt:55 | upper-casing leaves a digit alone |
| AsmInstructions.IndexOfFirstUser | src/main/kotlin/de/neo/profi5e/instructions/AsmInstruction.kt:35 | `indexOfFirst` gives the first KA/KO/ADR slot, or -1 exactly when there is none |
| AsmInstructions.FirstUser | src/main/kotlin/de/neo/profi5e/instructions/AsmInstruction.kt:39 | `first { … }` returns only a user kind |
| AsmInstructions.AsmVariation.GetUserArgumentIndex | src/main/kotlin/de/neo/profi5e/instructions/AsmInstruction.kt:34-36 | the first user slot, -1 exactly when `containsUserArguments` is false |
| AsmInstructions.AsmVariation.GetUserArgument | src/main/kotlin/de/neo/profi5e/instructions/AsmInstruction.kt:38-40 | the kind of the first user slot, which is KA, KO or ADR |
| AsmInstructions.UserArgumentAccessorsAgree | src/main/kotlin/de/neo/profi5e/instructions/AsmInstruction.kt:30-40 | the three accessors agree: a user slot exists iff the index is non-negative, and the kind is the slot at that index |
| AsmInstructions.FirstUserAtIndex | src/main/kotlin/de/neo/profi5e/instructions/AsmInstruction.kt:35-39 | `first` returns the slot `indexOfFirst` points at |
| AsmInstructions.FirstAccepting | src/main/kotlin/de/neo/profi5e/instructions/AsmInstruction.kt:12-21 | `firstOrNull` returns the first accepting variation, or none exactly when no variation accepts |
| AsmInstructions.AsmInstruction.GetVariation | src/main/kotlin/de/neo/profi5e/instructions/AsmInstruction.kt:7-23 | the result has as many slots as there are tokens, accepts them and comes first among those that do; "Invalid instruction" exactly when none accepts |
| AsmInstructions.FixedTokenNeverFillsUserSlot | src/main/kotlin/de/neo/profi5e/instructions/AsmInstruction.kt:17-19 | a token that names a register or an index never fills a KO/KA/ADR slot |
| AsmInstructions.FixedTokenExamples | src/main/kotlin/de/neo/profi5e/instructions/AsmInstruction.kt:53-64 | "5" classifies as INDEX_5 and "a" as A, so neither can be a KO operand |
| AsmInstructions.NoTokensMatchNoSlots | src/main/kotlin/de/neo/profi5e/instructions/AsmInstruction.kt:14-21 | an empty token list matches a variation without slots |
| InstructionRegistry.Lookup | src/main/kotlin/de/neo/profi5e/instructions/InstructionRegister.kt:11-13 | a name resolves exactly when it is in the table, to its entry; otherwise "No instruction with name" |
| InstructionRegistry.InstructionRegister.constructor | src/main/kotlin/de/neo/profi5e/instructions/InstructionRegister.kt:5 | the table starts empty |
| InstructionRegistry.InstructionRegister.Register | src/main/kotlin/de/neo/profi5e/instructions/InstructionRegister.kt:7-9 | stores the instruction under its name, replacing an earlier entry, and changes nothing else |
| InstructionRegistry.InstructionRegister.RegisterEach | src/main/kotlin/de/neo/profi5e/Profi5E.kt:36-49 | registering a list in order leaves the table `RegisterAll` describes |
| InstructionRegistry.InstructionRegister.GetByName | src/main/kotlin/de/neo/profi5e/instructions/InstructionRegister.kt:11-13 | the same lookup on the object's table |
| InstructionRegistry.RegisteredNames | src/main/kotlin/de/neo/profi5e/instructions/InstructionRegister.kt:7-9 | after registering a list, a name is known exactly when it was before or some instruction in the list carries it |
| InstructionRegistry.UnregisteredNamesUnchanged | src/main/kotlin/de/neo/profi5e/instructions/InstructionRegister.kt:7-13 | a name no registered instruction carries looks up as before |
| InstructionRegistry.LastRegistrationWins | src/main/kotlin/de/neo/profi5e/instructions/InstructionRegister.kt:7-9 | of several instructions sharing a name, the last registered is found |
| AsmParser.StripComment | src/main/kotlin/de/neo/profi5e/Parser.kt:31 | `split(";")[0]` is a prefix of the line, holds no ';', and is the whole line when there is no ';' |
| AsmParser.SourceLines | src/main/kotlin/de/neo/profi5e/Parser.kt:29-31 | the filtered and stripped lines are at most as many as the input and hold no ';' |
| ParserLemmas.SourceLinesOne | src/main/kotlin/de/neo/profi5e/Parser.kt:29-31 | a single line is kept with its comment stripped exactly when it is a source line, else dropped |
| ParserLemmas.SourceLinesConcat | src/main/kotlin/de/neo/profi5e/Parser.kt:29-31 | the filter works line by line: the source lines of two texts in sequence are those of the first followed by those of the second |
| AsmParser.ReferencedLabel | src/main/kotlin/de/neo/profi5e/Parser.kt:80 | the label read after '@' contains no space |
| AsmParser.SubstituteLabel | src/main/kotlin/de/neo/profi5e/Parser.kt:78-85 | a field mentioning no label is unchanged; "Label not found" exactly when some label is mentioned but the referenced one is unknown |
| AsmParser.OperandTokens | src/main/kotlin/de/neo/profi5e/Parser.kt:86-88 | no operands exactly when the field is blank and has no comma; otherwise the tokens join back to the field |
| AsmParser.EncodeAddress | src/main/kotlin/de/neo/profi5e/Parser.kt:99-103 | fails exactly on a non-hex (or over-`Int`) token or on a value above 0xFFFF; otherwise two bytes, low first, whose value is the token's |
| AsmParser.EncodeByte | src/main/kotlin/de/neo/profi5e/Parser.kt:105-109 | one byte, the token's value, exactly when `toUByte(16)` accepts the token |
| AsmParser.EncodeOperands | src/main/kotlin/de/neo/profi5e/Parser.kt:93-114 | a variation without user slots encodes nothing; an ADR first user slot encodes its token with `EncodeAddress`, any other user slot with `EncodeByte`; a success has the width of that slot's kind |
| AsmParser.EncodeAddressOperand | src/main/kotlin/de/neo/profi5e/Parser.kt:99-103 | the padding `while` loop computes exactly `EncodeAddress` |
| AsmParser.EncodeUserOperand | src/main/kotlin/de/neo/profi5e/Parser.kt:93-114 | the `when (argType)` block as the source runs it computes exactly `EncodeOperands` |
| AsmParser.SplitAddressDigits | src/main/kotlin/de/neo/profi5e/Parser.kt:101-102 | of four hex digits of `v`, the last two read back as `v % 256` and the first two as `v / 256` |
| AsmParser.AssembleInstruction | src/main/kotlin/de/neo/profi5e/Parser.kt:76-118 | an assembled instruction sits at the cursor and is one to three bytes long |
| AsmParser.AssembledInstruction | src/main/kotlin/de/neo/profi5e/Parser.kt:76-118 | an assembled line has the opcode of the variation chosen for its label-substituted operand tokens, those tokens encoded as operands, and the cursor as address |
| AsmParser.Mnemonic | src/main/kotlin/de/neo/profi5e/Parser.kt:76 | the mnemonic `tokens[0]` holds no space |
| AsmParser.OperandField | src/main/kotlin/de/neo/profi5e/Parser.kt:76-78 | the operand field `tokens.getOrElse(1) { "" }` holds no space |
| AsmParser.AssembleMnemonic | src/main/kotlin/de/neo/profi5e/Parser.kt:91-118 | an unknown mnemonic fails with "No instruction with name"; a failed variation choice passes its error on; otherwise it succeeds exactly when the operand encodes, with the chosen variation's opcode, the encoded operands, 1 + the operand width bytes, at the cursor |
| AsmParser.DirectiveEffect | src/main/kotlin/de/neo/profi5e/Parser.kt:68-74 | succeeds exactly when the address text is a hex `Int`, then moves the cursor there keeping the labels; otherwise the number-format failure for that text |
| AsmParser.LineCases | src/main/kotlin/de/neo/profi5e/Parser.kt:59-119 | a line is handled as a label, else as an address directive, else as an instruction, in that order |
| AsmParser.LabelLine | src/main/kotlin/de/neo/profi5e/Parser.kt:61-66 | "@name" binds name to the cursor, emits nothing, never fails and keeps the cursor |
| AsmParser.DirectiveLine | src/main/kotlin/de/neo/profi5e/Parser.kt:68-74 | "XXXX:" moves the cursor to the hex value, failing exactly when the text is not a hex `Int` |
| AsmParser.InstructionLine | src/main/kotlin/de/neo/profi5e/Parser.kt:116-118 | a parsed instruction is placed at the cursor, the cursor moves past it, the labels are kept |
| AsmParser.LineLabelsFrame | src/main/kotlin/de/neo/profi5e/Parser.kt:59-119 | only label lines change the label table |
| AsmParser.ParseLineSpec | src/main/kotlin/de/neo/profi5e/Parser.kt:59-119 | `parseLine` from the labels and cursor before the call; its three cases are stated by `LineCases`, `LabelLine`, `DirectiveLine` and `InstructionLine` |
| AsmParser.RunPass | src/main/kotlin/de/neo/profi5e/Parser.kt:33 | `map { parseLine(it) }` over the lines, stopping at the first failure; stated step by step by `PassStep` and `PassEnd`, over concatenations by `ParserLemmas.RunPassAppend` |
| AsmParser.Placeholders | src/main/kotlin/de/neo/profi5e/Parser.kt:32 | `map { setLabelPlaceholder(it) }` over the lines; `ParserLemmas.PlaceholdersSeed` states which labels it binds |
| AsmParser.ParseContentSpec | src/main/kotlin/de/neo/profi5e/Parser.kt:23-57 | `parseContent` from its two passes; `ParserLemmas.ProgramLayout` and `ExampleProgram.ContentOfExample` state what it yields |
| AsmParser.ContentVerdict | src/main/kotlin/de/neo/profi5e/Parser.kt:28-56 | succeeds exactly when neither pass failed, with pass 2's instructions and every line counted; a pass 1 failure escapes as it is with the line count untouched; a pass 2 failure carries the line count |
| AsmParser.Parser.constructor | src/main/kotlin/de/neo/profi5e/Parser.kt:13-21 | empty labels, reset address 0x8000, cursor 8000 (decimal), counters 0 |
| AsmParser.Parser.SetLabelPlaceholder | src/main/kotlin/de/neo/profi5e/Parser.kt:121-127 | a label line binds its name to the cursor; the line is returned unchanged; nothing else changes |
| AsmParser.Parser.ParseLine | src/main/kotlin/de/neo/profi5e/Parser.kt:59-119 | the new labels, cursor and result are those of `ParseLineSpec`; a failing line leaves the state as it was |
| AsmParser.Parser.AssembleLine | src/main/kotlin/de/neo/profi5e/Parser.kt:76-116 | computes `AssembleInstruction` from the current labels and cursor without changing them |
| AsmParser.Parser.SetLabelPlaceholders | src/main/kotlin/de/neo/profi5e/Parser.kt:32 | the placeholder stage over all lines leaves `Placeholders` of the old table |
| AsmParser.Parser.ParseLines | src/main/kotlin/de/neo/profi5e/Parser.kt:33 | the loop over the lines ends in the state and output `RunPass` describes |
| AsmParser.PassStep | src/main/kotlin/de/neo/profi5e/Parser.kt:33 | a failing line ends the pass with that error and the state before it; a succeeding line appends its instruction and the pass continues from its state |
| AsmParser.PassEnd | src/main/kotlin/de/neo/profi5e/Parser.kt:33 | with no lines left the pass ends in the current state without failure |
| AsmParser.Parser.CountSourceLines | src/main/kotlin/de/neo/profi5e/Parser.kt:44-45 | pass 2's filter keeps `SourceLines` and adds the number of all lines to `lineCount` |
| AsmParser.Parser.PreprocessPass | src/main/kotlin/de/neo/profi5e/Parser.kt:28-33 | pass 1 resets the cursor, seeds placeholders and then runs `RunPass` from the reset address |
| AsmParser.Parser.CompilePass | src/main/kotlin/de/neo/profi5e/Parser.kt:34-46 | pass 2 resets cursor and line count and runs `RunPass` from pass 1's labels |
| AsmParser.Parser.ParseContent | src/main/kotlin/de/neo/profi5e/Parser.kt:23-57 | result, labels, cursor and line count are those of `ParseContentSpec`; the reset values are unchanged |
| ParserLemmas.ReplaceAtEnd | src/main/kotlin/de/neo/profi5e/Parser.kt:84 | replacing a pattern that occurs only at the end of the field replaces just that occurrence |
| ParserLemmas.ReferenceResolves | src/main/kotlin/de/neo/profi5e/Parser.kt:78-85 | a field "p@name" with a known label and no earlier '@' becomes p followed by the label's address in hex |
| ParserLemmas.ResolveExample | src/main/kotlin/de/neo/profi5e/Parser.kt:78-85 | "@start" with start at 0x8000 becomes "8000" |
| ParserLemmas.MentionWithoutAtExample | src/main/kotlin/de/neo/profi5e/Parser.kt:79-81 | a field "A,B" with a label named "A" fails with "Label A,B not found" |
| ParserLemmas.SourceLinesExample | src/main/kotlin/de/neo/profi5e/Parser.kt:29-31 | comment lines and blank lines are dropped; a line blank only before its comment is kept |
| ParserLemmas.PlaceholdersSeed | src/main/kotlin/de/neo/profi5e/Parser.kt:121-127 | the placeholder stage binds exactly the defined labels to the cursor and keeps the others |
| ParserLemmas.RunPassLabelsFrame | src/main/kotlin/de/neo/profi5e/Parser.kt:59-66 | a pass never changes a label that no line defines |
| ParserLemmas.RunPassAppend | src/main/kotlin/de/neo/profi5e/Parser.kt:33 | a pass over xs + ys is the pass over xs followed, unless it failed, by the pass over ys from where it stopped |
| ParserLemmas.ForwardReferenceSeesPlaceholder | src/main/kotlin/de/neo/profi5e/Parser.kt:28-33 | in pass 1, a label defined only later still holds the reset address |
| ParserLemmas.LastDefinitionWins | src/main/kotlin/de/neo/profi5e/Parser.kt:61-62 | after a successful pass a label holds the cursor at its last definition, the table pass 2 starts with |
| ParserLemmas.RunPassContiguous | src/main/kotlin/de/neo/profi5e/Parser.kt:116-117 | without directives a successful pass lays its instructions out back to back and ends the cursor after them |
| ParserLemmas.ContiguousCons | src/main/kotlin/de/neo/profi5e/Parser.kt:116-117 | an instruction at the start followed by a contiguous run is contiguous |
| ParserLemmas.ProgramLayout | src/main/kotlin/de/neo/profi5e/Parser.kt:23-57 | without directives a successful `parseContent` is contiguous from the reset address |
| Profi5E.MinAddress | src/main/kotlin/de/neo/profi5e/Profi5E.kt:154 | `minOf(memoryAddress)` is some instruction's address and at most every other |
| Profi5E.MaxAddress | src/main/kotlin/de/neo/profi5e/Profi5E.kt:155 | `maxOf(memoryAddress)` is some instruction's address and at least every other |
| Profi5E.Window | src/main/kotlin/de/neo/profi5e/Profi5E.kt:156-160 | a program starting at or above the window keeps it; one starting below gets a window of the same length moved to its start |
| Profi5E.GetMemoryRange | src/main/kotlin/de/neo/profi5e/Profi5E.kt:151-161 | fails exactly in auto mode on an empty list |
| Profi5E.GetValue | src/main/kotlin/de/neo/profi5e/Profi5E.kt:153-155 | `cmd.getValue(option, default)`; the window lemmas state its effect for a given and an absent `-ps`, `-ms` and `-me` |
| Profi5E.DefaultWindow | src/main/kotlin/de/neo/profi5e/Profi5E.kt:20-22 | without options the window is 0x8000..0x87FF |
| Profi5E.AutoWindow | src/main/kotlin/de/neo/profi5e/Profi5E.kt:152-160 | auto mode with the program at its lowest address spans the lowest to the highest instruction address |
| Profi5E.ExplicitWindow | src/main/kotlin/de/neo/profi5e/Profi5E.kt:151-161 | explicit `-ms`/`-me` win over the defaults and auto mode; a program start below `-ms` (0x8000 when `-ps` is absent) moves the window down keeping its length |
| Profi5E.AutoWindowFrom | src/main/kotlin/de/neo/profi5e/Profi5E.kt:151-161 | auto mode without bounds spans the lowest to the highest instruction address for any `-ps` at or above the lowest, and moves down to a lower one |
| Profi5E.DefaultWindowFrom | src/main/kotlin/de/neo/profi5e/Profi5E.kt:151-161 | without bounds or auto mode the window is 0x8000..0x87FF for a program start at or above 0x8000 and the same length from a lower one |
| Profi5E.WrittenCount | src/main/kotlin/de/neo/profi5e/Profi5E.kt:113-128 | at most all bytes are written; none from an offset outside the buffer; all when they fit |
| Profi5E.PlacedImage | src/main/kotlin/de/neo/profi5e/Profi5E.kt:108 | the image has the window's size |
| Profi5E.CompileBinary | src/main/kotlin/de/neo/profi5e/Profi5E.kt:108-129 | fails exactly on a negative size; otherwise a fresh array equal to `PlacedImage` of all bytes, with one warning per unwritten byte |
| Profi5E.PlaceStep | src/main/kotlin/de/neo/profi5e/Profi5E.kt:117-127 | one more byte is written at the offset exactly when the offset is inside the buffer, otherwise the image stays |
| Profi5E.EmptyImageIsZero | src/main/kotlin/de/neo/profi5e/Profi5E.kt:108 | the freshly allocated buffer holds zeros |
| Profi5E.ImageLayout | src/main/kotlin/de/neo/profi5e/Profi5E.kt:108-129 | the written bytes appear in order from the offset and every other cell is zero |
| Profi5E.WarningsAreASuffix | src/main/kotlin/de/neo/profi5e/Profi5E.kt:117-126 | once a byte is skipped, every later one is skipped too |
| Profi5E.ListingRows | src/main/kotlin/de/neo/profi5e/Profi5E.kt:177-187 | the walk yields no rows exactly when the window is empty |
| Profi5E.ListingRowsChain | src/main/kotlin/de/neo/profi5e/Profi5E.kt:177-187 | rows start at the first address, each follows the previous one by its size, stay at or below the last address, show the instruction there or a NOP, and the last one reaches past the end |
| Profi5E.RowFields | src/main/kotlin/de/neo/profi5e/Profi5E.kt:180-183 | a row has the four-digit address and one field per instruction byte |
| Profi5E.BuildHexString | src/main/kotlin/de/neo/profi5e/Profi5E.kt:163-189 | computes `HexString`: the window's listing, or the window's failure |
| Profi5E.HexString | src/main/kotlin/de/neo/profi5e/Profi5E.kt:163-189 | fails exactly when the window does (auto mode, no instructions); otherwise the listing of the window |
| Profi5E.AddressMap | src/main/kotlin/de/neo/profi5e/Profi5E.kt:168-171 | `memoryKeyMap`; `AddressMapLastWins` and `AddressMapEntries` state its entries |
| Profi5E.BuildAddressMap | src/main/kotlin/de/neo/profi5e/Profi5E.kt:168-171 | the map loop computes `AddressMap` |
| Profi5E.BuildListing | src/main/kotlin/de/neo/profi5e/Profi5E.kt:176-188 | the `while` loop computes `HexListing`, with the last newline dropped |
| Profi5E.BuildRow | src/main/kotlin/de/neo/profi5e/Profi5E.kt:180-185 | one row's text, the trailing space removed |
| Profi5E.GapRowsAreNops | src/main/kotlin/de/neo/profi5e/Profi5E.kt:179 | an address without an instruction shows a one-byte NOP there |
| Profi5E.AddressMapLastWins | src/main/kotlin/de/neo/profi5e/Profi5E.kt:169-171 | of instructions sharing an address, the last one is shown |
| Profi5E.AddressMapEntries | src/main/kotlin/de/neo/profi5e/Profi5E.kt:169-171 | every map entry is an input instruction keyed by its own address |
| Profi5E.ListingSplits | src/main/kotlin/de/neo/profi5e/Profi5E.kt:176-188 | the listing splits at '\n' into its row texts, and each row at ' ' into its fields |
| Profi5E.RowSplits | src/main/kotlin/de/neo/profi5e/Profi5E.kt:180-184 | a row text has no newline and splits at ' ' into its fields |
| ExampleProgram.ContentOfExample | src/main/kotlin/de/neo/profi5e/Parser.kt:23-57 | `parseContent` on "@start / LD A,0A / JMP @start / HLT" with LD A,KO = 0x3E, JMP ADR = 0xC3 and HLT = 0x76 yields `3E 0A` at 0x8000, `C3 00 80` at 0x8002 and `76` at 0x8005, binds start to 0x8000 and counts four lines |
| ExampleProgram.SplitSource | src/main/kotlin/de/neo/profi5e/Parser.kt:29 | that text splits at '\n' into its four lines |
| ExampleProgram.SourceLinesOfExample | src/main/kotlin/de/neo/profi5e/Parser.kt:29-31 | all four lines are source lines and are kept whole |
| ExampleProgram.PlaceholdersOfExample | src/main/kotlin/de/neo/profi5e/Parser.kt:32 | pass 1 binds start to 0x8000 before any line is parsed |
| ExampleProgram.PassOverExample | src/main/kotlin/de/neo/profi5e/Parser.kt:33 | a pass over the four lines from 0x8000 emits the three instructions back to back and ends at 0x8006 |
| ExampleProgram.LabelStep | src/main/kotlin/de/neo/profi5e/Parser.kt:61-66 | "@start" at 0x8000 binds start there and emits nothing |
| ExampleProgram.LdStep | src/main/kotlin/de/neo/profi5e/Parser.kt:76-118 | "LD A,0A" at 0x8000 chooses LD A,KO and emits `3E 0A`, moving the cursor to 0x8002 |
| ExampleProgram.JmpStep | src/main/kotlin/de/neo/profi5e/Parser.kt:76-118 | "JMP @start" at 0x8002 substitutes 8000 for the reference and emits `C3 00 80`, low byte first, moving the cursor to 0x8005 |
| ExampleProgram.HltStep | src/main/kotlin/de/neo/profi5e/Parser.kt:76-118 | "HLT" at 0x8005 emits `76` alone, moving the cursor to 0x8006 |
| ExampleProgram.PassCons | src/main/kotlin/de/neo/profi5e/Parser.kt:33 | a pass over a succeeding line and the rest is that line's instruction, if any, before the pass over the rest from its state |
| ExampleProgram.ImageOfExample | src/main/kotlin/de/neo/profi5e/Profi5E.kt:108-129 | with no memory options that program fills the default window's buffer with `3E 0A C3 00 80 76` from its first byte and zeros after them |

## Left out

- Reading the source file and writing the `.5e`, `.hex` and binary files (`Parser.parse`,
  `Files.write`) are left out. Printing, verbosity and `logVeryVerbose` are left out. None of
  them affects the computed values.
- Command-line parsing (`run`, `main`, `CommandLine.getValue`, the help text) is left out. The
  numeric option values become the `Options` parameter and `programStart` arguments.
- `loadInstructions` is left out: reading and decoding JSON is I/O. It is represented only by
  `RegisterEach`, which registers a list in order.
- `PerformanceTimer` is left out: clocks and locks.
- The `InstructionRegister` singleton is passed to the parser methods as an object, rather than
  being reached as a global.
- `run` assigns `asmParser.currentAddress` (`Profi5E.kt:98`). That value is overwritten when
  pass 1 starts, so it is not modelled as a separate step.
- `ParseInt`, `ParseUByte`: a leading sign is treated as malformed. `toInt(16)` accepts
  '+' and '-', and `toUByte(16)` accepts '+' only. Only ASCII hex digits are recognised; non-ASCII digits
  that `Character.digit` would accept are not modelled.
- `AsmParser.EncodeAddress`: for a value above 0xFFFF, the source's padding loop never ends.
  The model returns the error `AddressPaddingNeverEnds` instead of diverging.
- `Profi5E.CompileBinary`: the image holds unsigned bytes. The source stores them through
  `toByte()` into a signed `ByteArray` with the same bits.
- `AsmParser.Parser.ParseLine`: `currentAddress` is an unbounded integer. The source's 32-bit
  `Int` wraps once the cursor passes 0x7FFFFFFF, and an address directive near the top
  (`7FFFFFFF:` followed by two `HLT`) reaches that after one instruction: the source places the
  second instruction at -0x80000000, the model at 0x80000000. A label bound there is rendered
  "-80000000" by the source, whose ADR padding loop then never ends; the model, whose cursor
  does not wrap, never produces such a label.
- `Profi5E.Window`, `Profi5E.GetMemoryRange`, `Profi5E.CompileBinary`, `Profi5E.BuildListing`:
  `me - ms`, `ps + programLen`, `second - first + 1`, `programStart - first` and
  `address += byteSize` are unbounded integers in the model, while the source computes them in
  32-bit `Int` and wraps. With `-ms 0 -me 7FFFFFFF` the source's `ps + programLen` wraps to a
  negative end, so `ByteArray` throws NegativeArraySizeException where the model returns an
  image of 0x80000000 cells; with `-me 7FFFFFFF` the source's listing loop
  `while (address <= second)` never ends, because the address wraps past the end, while
  `BuildListing` terminates.
- `KotlinStrings.IsBlank`: only ASCII whitespace counts as blank: the space, U+0009 to U+000D
  and U+001C to U+001F. Kotlin's `isBlank` also treats the Unicode space separators (such as
  U+2003) as blank; those are not modelled.
- `KotlinStrings.Upper`: only ASCII letters are upper-cased. Kotlin's locale-independent
  Unicode case mapping of other characters is not modelled.
