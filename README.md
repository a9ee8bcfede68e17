# CP/M-65 toolchain core, modelled in Dafny

This project models three parts of the CP/M-65 6502 toolchain and proves
properties of them.

- **The assembler back end** (`apps/asm.c`), which runs on the 6502 itself:
  - the tokenizer (numbers in four bases, strings and characters with escapes, identifiers, comments);
  - the opcode classifier (`getB`, `getBProps`, `getInsnProps`, `getInsnLength`, `getBofAM`) and the instruction table lookup;
  - the record buffer that the parser grows in place: byte, fill, expression, symbol, label-definition and end-of-file records, each with a one-byte descriptor;
  - the newest-first symbol list and the scope stack;
  - the `.zp`, `.bss` and `.expand` directives and label definitions;
  - the code-placement pass, which relaxes branches between the 2-byte and 5-byte forms;
  - the output writers: the 128-byte output buffer, the 7-byte header, the nibble-packed relocation stream and the symbol listing.
- **The relocation linker** (`tools/multilink.cc`):
  - image comparison;
  - the same relocation stream encoder;
  - `roundup` and `align`;
  - the code-body patch that subtracts 2 at each memory relocation;
  - the TPA-byte patch.
- **The formatter** (`apps/mkfs.c`):
  - the hex and decimal printers;
  - the disk-geometry arithmetic;
  - the loop that fills the directory area with 0xE5.

The target compiler makes `int` 16 bits wide. So the `int` and `unsigned` expressions of
the assembler and the formatter are computed modulo 2^16 in the model, and
`uint8_t` stores are reduced modulo 2^8. The exception is the code in the
Findings section. There, members model the code as written and show where it goes
wrong, but the rest of the model uses the corrected definitions:

- the `.zp` overflow check, in `AllocateZp`;
- the zero-page shrink of `jsr`, in `ExprPlacement` and the placement pass;
- the 16-bit directory size of `mkfs`, in `Format`.

The Left out section names each of these members.

Files (each holds one module):

- `common.dfy` (`Base`): byte and word types, `Option`, `Result`, `Status`, arithmetic helper lemmas.
- `digits.dfy` (`Digits`): hex and decimal digits, digit-string values, the four-digit hex form.
- `lexer.dfy` (`Lexer`): a specification function of one `consumeToken` call, and the class `Lexer` whose methods do the scanning with loops, proved against it.
- `opcodes.dfy` (`Opcodes`): the opcode classifier, the addressing-mode table, the instruction table and how the parser assembles an opcode.
- `records.dfy` (`Records`): the record datatype, the descriptor encoding, `emitByte` as a function, and the symbol list with its well-formedness.
- `placement.dfy` (`Placement`): `placeCode` as a function, with the lemmas about labels, lengths and branch settling.
- `assembler.dfy` (`Assembler`): the class `Assembler` holding the parser's global state, with its methods proved against the functions above.
- `relocation.dfy` (`Relocation`): the relocation nibble stream, the packing and its decoder.
- `output.dfy` (`Output`): the class `OutputFile` (output buffer, relocation writer, symbol listing).
- `multilink.dfy` (`Multilink`): the linker.
- `mkfs.dfy` (`Mkfs`): the formatter.

Console and disk I/O are parameters or results:

- a source file is a `string`;
- an output file is the sequence of bytes written (`written`, or `file` for what reached the disk);
- a linker input is a `seq<byte>`;
- a BIOS sector write is a `Write(sector, flush)` entry in a list;
- `fatal` is a `Status` or `Result` carrying the message.

## Model

| member | source | states |
|---|---|---|
| Digits.HexDigit | apps/mkfs.c:43-51 | a value below 16 maps to a lower-case hex character, which is a decimal digit exactly when the value is below 10 |
| Digits.HexValue | apps/asm.c:463-469 | the digit value of a hex character, letters of either case counting from 10, is below 16 and below 10 exactly for decimal digits |
| Digits.HexValueOfDigit | apps/asm.c:463-469 | reading a printed hex digit back gives its value |
| Digits.ValueSnoc | apps/asm.c:461-472 | one more digit multiplies the accumulated value by the base and adds the digit (Horner's rule) |
| Digits.Hex16 | apps/asm.c:2013-2018 | the printed form of a 16-bit address is exactly four characters |
| Digits.Hex16Value | apps/asm.c:2013-2018 | those four characters are hex digits whose value is the address |
| Digits.Hex16Injective | apps/asm.c:2013-2018 | different addresses never print the same: the listing is unambiguous |
| Lexer.Next | apps/asm.c:294-318 | `consumeByte` advances one character and stays put at end of input |
| Lexer.CommentEnd | apps/asm.c:363-368 | a comment reaches the first newline or end of file, and no earlier character is either |
| Lexer.BlanksEnd | apps/asm.c:361-374 | after skipping, the current character is neither a blank nor a comment start |
| Lexer.IdentEnd | apps/asm.c:410-418 | an identifier ends at the first character that is not a letter, digit or underscore, and every character before it is one |
| Lexer.NumberStart | apps/asm.c:429-454 | the base chosen is one of 2, 8, 10, 16, and the digits start at or after the number |
| Lexer.LexDigits | apps/asm.c:456-475 | the digit loop stops at the first non-hex character; its only failure is "invalid number" |
| Lexer.LexString | apps/asm.c:481-513 | a string constant that is read successfully ends after its opening quote |
| Lexer.Escape | apps/asm.c:493-505 | exactly the letters `n`, `r`, `t` and `\` are escapes, and they stand for 10, 13, 9 and `\` |
| Lexer.LexCharacter | apps/asm.c:515-548 | a character constant ends within the input; it fails, with "bad escape", exactly when a backslash is followed by a letter that is not an escape |
| Lexer.CharRoundTrip | apps/asm.c:515-548 | any byte but NUL, written as the character or its escape and followed by the quote, reads back as its own code, and the token ends after the quote |
| Lexer.LexNumber | apps/asm.c:424-479 | a number token that is read successfully ends within the input |
| Lexer.LexAt | apps/asm.c:376-550 | a token read successfully ends within the input, and the line count grows by at most one (the newline token) |
| Lexer.Lex | apps/asm.c:351-551 | one `consumeToken` never moves backwards and counts at most one line |
| Lexer.LexDigitsValue | apps/asm.c:456-475 | a run of digits of the base, followed by a non-hex character, is read as its value modulo 2^16, ending after the last digit |
| Lexer.LexDigitsInvalid | apps/asm.c:470-471 | any digit at or above the base in the run makes the number fail with "invalid number" |
| Lexer.NumberValue | apps/asm.c:424-479 | a number written as `0x`, `0b` or `0o` plus digits, `$` plus hex digits, or decimal digits not starting with 0 reads as the digits' value modulo 2^16 in that base, and the token ends after the last digit |
| Lexer.DigitRunValue | apps/asm.c:456-475 | the digit loop started from zero reads a digit run as its value modulo 2^16 |
| Lexer.NumberStartAt | apps/asm.c:429-454 | each prefix selects its base, and the digits start right after it |
| Lexer.HexRoundTrip | apps/asm.c:450-479 | the listing's four hex digits, written after `$`, read back as the same 16-bit value |
| Lexer.EscapeRoundTrip | apps/asm.c:493-505 | exactly the escapes `\n`, `\r`, `\t` and `\\` are accepted, and each stands for its character |
| Lexer.StringStep | apps/asm.c:485-508 | reading the written form of one character (escaped or plain) appends that character |
| Lexer.StringRoundTrip | apps/asm.c:481-513 | any text without quotes or NULs, written as a string constant, is read back unchanged, and the token ends after the closing quote |
| Lexer.Lexer.constructor | apps/asm.c:273-277 | `openFile` sets the line number to 1, and the first `consumeByte` (asm.c:2073) makes the first character of the input current; no token has been read yet |
| Lexer.Lexer.SkipBlanks | apps/asm.c:361-374 | the skipping loop stops where `BlanksEnd` says |
| Lexer.Lexer.ScanDigits | apps/asm.c:456-475 | the digit loop gives the value and end that `LexDigits` gives, or fails with "invalid number" |
| Lexer.Lexer.ScanString | apps/asm.c:481-513 | the string loop gives the text and end that `LexString` gives, or fails with its message |
| Lexer.Lexer.ScanNumber | apps/asm.c:424-479 | the number scan agrees with `LexNumber`, on success and on failure |
| Lexer.Lexer.ScanIdentifier | apps/asm.c:410-422 | the identifier is exactly the characters from the letter up to `IdentEnd` |
| Lexer.Lexer.ScanCharacter | apps/asm.c:515-548 | the character scan gives the value and end `LexCharacter` gives (the character's code, or its escape's, as `CharRoundTrip` states), or fails with "bad escape" |
| Lexer.Lexer.ScanToken | apps/asm.c:376-550 | the token, position and line agree with `LexAt`, and a failure carries its message |
| Lexer.Lexer.ConsumeToken | apps/asm.c:351-551 | `consumeToken` produces the token, position and line `Lex` specifies, or the fatal message `Lex` gives |
| Opcodes.GetB | apps/asm.c:666-712 | the b-value is a multiple of 4 whose index is below 10, and it is `B_REL` exactly for the c=0 and c=3 opcodes with bits 2-4 equal to 100 |
| Opcodes.GetBProps | apps/asm.c:714-730 | every table entry has a length field from 1 to 3, and only the `B_REL` entry is relative |
| Opcodes.GetInsnProps | apps/asm.c:732-740 | every opcode gets a length field from 1 to 3, and it is relative exactly when its bits 0-4 mark a branch |
| Opcodes.GetInsnLength | apps/asm.c:742-745 | every opcode is 1 to 3 bytes long, both JMPs are 3, and every branch (bits 0-4 equal to 0x10) is 2 |
| Opcodes.GetBofAM | apps/asm.c:655-664 | the shift loop indexes the table by the number of the lowest set bit |
| Opcodes.BitScanFindsModeIndex | apps/asm.c:618-664 | for a single addressing-mode flag the bit scan finds that flag's table entry |
| Opcodes.FindInstruction | apps/asm.c:634-653 | the lookup returns the first table entry whose name is the upper-cased word, and returns nothing only when no entry has that name |
| Opcodes.AdjustedMode | apps/asm.c:1536-1546 | every parsed operand mode is mapped to a single real mode, never the implied one |
| Opcodes.FinalMode | apps/asm.c:1545-1546 | the `ldx abs,y` exception keeps the mode a single mode flag |
| Opcodes.AssembleOpcode | apps/asm.c:1535-1551 | an opcode is produced exactly when the instruction accepts the adjusted mode; otherwise the result is the "invalid addressing mode" error |
| Opcodes.AluEncodingLength | apps/asm.c:1535-1551 | in the ALU group the assembled opcode's length is one plus the operand bytes of the mode it was assembled for |
| Opcodes.ShiftEncodingLength | apps/asm.c:1535-1551 | the same holds for the read-modify-write group |
| Opcodes.BranchEncodingLength | apps/asm.c:1548-1551 | a branch keeps its opcode and is two bytes long whatever operand it was given |
| Opcodes.JumpEncodingLength | apps/asm.c:1548-1551 | both forms of `jmp` assemble to three-byte opcodes |
| Records.Descriptor | apps/asm.c:142-150 | the descriptor byte holds the record type in its top three bits and the size in its low five |
| Records.DescriptorDetermines | apps/asm.c:142-150 | records that fit share a descriptor only if they share type and size |
| Records.EmitEndsWith | apps/asm.c:764-777 | `emitByte` adds at most one record, and the last record is then a bytes record that fits and ends with the byte |
| Records.EmitAppends | apps/asm.c:764-777 | after `emitByte` the payload read back in record order is the old payload plus the byte; every record still fits; at most one record is added, and only the last can change |
| Records.EmitAllAppends | apps/asm.c:764-777 | bytes emitted one by one read back in order, however they are split into records |
| Records.EmitOpensOnlyWhenNeeded | apps/asm.c:767-772 | a new bytes record is opened exactly when there is no last record, it is not a bytes record, or it is full (30 payload bytes) |
| Records.Chain | apps/asm.c:811-824 | the list walked from a head holds only symbol records |
| Records.ChainDecreasing | apps/asm.c:826-837 | because each new symbol links to the previous head, the list runs from newest to oldest and never above its head |
| Records.Find | apps/asm.c:811-824 | lookup returns a symbol on the list with the name, or nothing when no symbol on the list has it |
| Records.FindNewest | apps/asm.c:811-824 | lookup finds the newest symbol with the name: one at least as new as any other listed symbol with it |
| Records.ExtendsKeeps | apps/asm.c:749-762 | records appended after a buffer, and fields rewritten in it, keep every earlier pointer sound |
| Records.FindStable | apps/asm.c:889-896 | the list from a saved head, and lookups on it, are unchanged by anything appended or rewritten since it was saved |
| Records.FindAfterAppend | apps/asm.c:826-837 | after appending a symbol as the new head, lookup finds it by its name and finds every other name as before |
| Records.AppendKeeps | apps/asm.c:749-762 | appending a record whose own pointers are sound keeps the buffer well formed |
| Records.EmitKeeps | apps/asm.c:764-777 | emitting a byte keeps the buffer well formed and every head a head |
| Records.UpdateKeeps | apps/asm.c:1694-1706 | rewriting a record's non-pointer fields keeps the buffer well formed |
| Records.SameShapeKeeps | apps/asm.c:1607-1720 | a pass that only rewrites opcodes, lengths and offsets keeps well-formedness and record capacity |
| Placement.Signed16 | apps/asm.c:1684 | a 16-bit difference read as a 16-bit `int` lies in [-32768, 32767] and is congruent to it |
| Placement.ShrinksAsWritten | apps/asm.c:1661-1662 | every opcode the code shrinks (its b-value has `BPROP_SHR`) is a 3-byte instruction |
| Placement.Shrinks | apps/asm.c:1661-1667 | the corrected rule shrinks exactly those opcodes whose bit-3-cleared form is 2 bytes long |
| Placement.JsrShrinkKeepsThreeBytes | apps/asm.c:1661-1667 | see Findings: `jsr` is shrunk although clearing bit 3 leaves a 3-byte `jsr` |
| Placement.ShrinkGivesZeroPageForm | apps/asm.c:1661-1667 | every opcode the corrected rule shrinks becomes the 2-byte zero-page form of the same instruction |
| Placement.ExprPlacement | apps/asm.c:1643-1698 | a byte constant (0x00) is 1 byte and a word constant (0xff) 2; an instruction on a zero-page symbol with a zero-page form has bit 3 of its opcode cleared and is 2 bytes; every other record keeps its opcode, and a non-branch among them gets that opcode's length; in pass 0 a branch gets the default branch size; later, 2 bytes exactly when its displacement is in [-128, 127] and 5 otherwise; it fails exactly for a branch to a constant, to a non-text label, or out of range when `.expand` is off, with those messages |
| Placement.SetOffset | apps/asm.c:1703-1707 | a label definition gives its symbol the current address and changes nothing else |
| Placement.SetSize | apps/asm.c:1694-1698 | a placed expression record takes the new opcode and length and nothing else changes |
| Placement.Place | apps/asm.c:1617-1712 | placing one record changes only that record, or only the symbol a label defines, which gets the current address |
| Placement.Step | apps/asm.c:1614-1714 | one iteration fails exactly when the record is an expression record whose placement fails; otherwise the buffer keeps its shape, and `badProgram` is set afterwards exactly when it was set before or the record is a symbol still of type REFERENCE ("unresolved forward reference") |
| Placement.PlaceFrom | apps/asm.c:1612-1715 | the rest of a pass keeps the buffer's shape; with the end record last, the changed flag is set exactly when some expression record's length changed, and `badProgram` exactly when it was set before or some symbol from here on is still a REFERENCE |
| Placement.PlaceCode | apps/asm.c:1607-1720 | a pass keeps the buffer's shape and a set `badProgram`; with the end record last, it reports a change exactly when some expression record's length changed, and sets `badProgram` exactly when some symbol is still a REFERENCE |
| Placement.ShrinkPlaced | apps/asm.c:1661-1667 | after a pass every instruction on a zero-page symbol with a zero-page form has bit 3 of its opcode cleared and takes 2 bytes |
| Placement.LabelsStep | apps/asm.c:1703-1707 | one step keeps earlier labels at their layout addresses and places the label it defines |
| Placement.LabelsPlaced | apps/asm.c:1607-1720 | after a pass every label holds the address of its definition in the final layout, and `textUsage` is the end of that layout |
| Placement.LayoutAgreesAll | apps/asm.c:1632-1699 | records that move the address equally give identical layouts |
| Placement.QuietStep | apps/asm.c:1680-1699 | a step that changes no length keeps the layout and labels and decides its branch against that layout |
| Placement.QuietPassSettles | apps/asm.c:1607-1720 | a pass that changes no length, starting from consistent labels, keeps the layout and leaves every branch in the form its final displacement calls for |
| Placement.QuietPassIsFinal | apps/asm.c:2085-2093 | when the pass after any pass changes no length (the exit of the relaxation loop), every label is at its final address and every branch is settled |
| Assembler.ZpAllocateAsWritten | apps/asm.c:1226-1231 | the code's check lets an allocation through exactly when the 16-bit sum does not wrap |
| Assembler.ZpOverflowUndetected | apps/asm.c:1223-1232 | see Findings: a `.zp` allocation past 255 bytes succeeds and wraps usage |
| Assembler.ZpAllocate | apps/asm.c:1223-1232 | a zero-page allocation succeeds exactly when it ends inside the 256-byte zero page; usage grows by the size; otherwise "ran out of zero page" |
| Assembler.ZpAgreesInside | apps/asm.c:1226-1231 | the code's check and the corrected one agree on every allocation that ends inside zero page, and differ exactly on those that end past it without wrapping 16 bits |
| Assembler.BssAllocate | apps/asm.c:1234-1243 | a BSS allocation succeeds exactly when the 16-bit usage does not wrap; usage grows by the size; otherwise "ran out of BSS" |
| Assembler.ConstantEncoding | apps/asm.c:796-806 | a constant operand is emitted as the opcode and then the value little-endian, as many bytes as the opcode's length |
| Assembler.Assembler.constructor | apps/asm.c:104-110 | the start state: empty buffer and symbol list, nothing allocated, branches long by default |
| Assembler.Assembler.EmitByte | apps/asm.c:764-777 | the buffer becomes `Emit(old, b)` and its payload gains the byte; the other state is unchanged |
| Assembler.Assembler.EmitBytes | apps/asm.c:798-805 | `emitByte` of each byte in turn: the payload gains exactly the bytes, in order, and the rest of the state is unchanged |
| Assembler.Assembler.AddRecord | apps/asm.c:749-762 | the record goes after every existing one |
| Assembler.Assembler.EmitFill | apps/asm.c:779-783 | a fill record of the requested length is appended |
| Assembler.Assembler.AddExpressionRecord | apps/asm.c:785-807 | an operand with a symbol becomes an unplaced expression record; a constant one is emitted at once, and the payload gains its bytes |
| Assembler.Assembler.LookupSymbol | apps/asm.c:811-824 | the list walk returns what `Find` specifies |
| Assembler.Assembler.AppendSymbol | apps/asm.c:826-837 | the new symbol becomes the head and is found by its name, every other name as before; a name longer than the record allows is fatal and changes nothing |
| Assembler.Assembler.AddOrFindSymbol | apps/asm.c:848-855 | an existing symbol is returned with nothing changed; otherwise one is appended, found afterwards by its name |
| Assembler.Assembler.AddSymbol | apps/asm.c:865-871 | a name lookup already finds is fatal ("symbol exists"); otherwise it is appended as the new head |
| Assembler.Assembler.PushScope | apps/asm.c:880-887 | the head is saved and the depth grows by one; at depth 7 it fails with "too many nested scopes" and changes nothing; the usages, the branch size and `badProgram` stay |
| Assembler.Assembler.PopScope | apps/asm.c:889-896 | the head returns to the saved one, so lookups answer as they did at the push; at depth 0 it fails with "scope underflow" and changes nothing; the usages, the branch size and `badProgram` stay |
| Assembler.Assembler.SetSymbol | apps/asm.c:1228-1230 | the symbol takes the new type and offset, keeping its name and links; every other record is unchanged |
| Assembler.Assembler.AllocateZp | apps/asm.c:1223-1232 | the symbol becomes zero page at the old usage and usage grows, exactly when the corrected `ZpAllocate` succeeds; every other record, the list head, the depth, the BSS and text usages, the branch size and `badProgram` are unchanged |
| Assembler.Assembler.AllocateBss | apps/asm.c:1234-1243 | the symbol becomes BSS at the old usage and usage grows, exactly when `BssAllocate` succeeds; every other record, the list head, the depth, the zero-page and text usages, the branch size and `badProgram` are unchanged |
| Assembler.Assembler.DefineLabel | apps/asm.c:1308-1317 | only an undefined or merely referenced symbol becomes a label: it turns into a text symbol and a label-definition record is appended; otherwise "symbol exists"; the list head, the depth, the usages, the branch size and `badProgram` are unchanged |
| Assembler.Assembler.SetExpand | apps/asm.c:1297-1301 | `.expand` with a non-zero value makes unplaced branches 5 bytes, zero makes them 2; the buffer, the list head, the depth, the usages and `badProgram` are unchanged |
| Assembler.Assembler.PlaceRecord | apps/asm.c:1614-1714 | one iteration of the loop does in place what `Step` describes |
| Assembler.Assembler.PlaceRecords | apps/asm.c:1612-1715 | the loop does in place what `PlaceCode` describes and stops at the first fatal error |
| Assembler.Assembler.PlaceCodePass | apps/asm.c:1607-1720 | a pass leaves the records, `textUsage`, the changed flag and `badProgram` as `PlaceCode` specifies, and keeps the assembler valid |
| Relocation.DeltaNibblesRun | apps/asm.c:1842-1850 | a delta `d` is written as ⌊d/14⌋ nibbles 0xe followed by `d mod 14` |
| Relocation.Pack | tools/multilink.cc:77-84 | n nibbles pack into ⌈n/2⌉ bytes |
| Relocation.PackBytes | tools/multilink.cc:77-84 | byte k is nibble 2k shifted left by 4, or'ed with nibble 2k+1, or with 0 past the end |
| Relocation.PackPad | apps/asm.c:1852-1856 | padding an odd number of nibbles with a zero packs the same as the linker's missing right nibble |
| Relocation.UnpackPack | tools/multilink.cc:77-84 | unpacking gives the nibbles back, plus the zero pad when their count is odd |
| Relocation.DecodeOffsets | tools/multilink.cc:58-76 | the delta nibbles of an offset list, then 0xf, decode to that list whatever follows |
| Relocation.StreamRoundTrip | tools/multilink.cc:58-85 | the packed stream of any offset list decodes to that list |
| Output.Header | apps/asm.c:1815-1824 | the header is 7 bytes (the start address): zero-page usage, the text pages rounded up (when they fit in a byte), the text size little-endian, and `4c 00 00` |
| Output.PagesWrap | apps/asm.c:1818 | the 16-bit `(textUsage + 255) >> 8` is the page count rounded up, modulo 256 |
| Output.ShiftedDigit | apps/asm.c:2013-2018 | at every turn of the shift-and-mask loop the top nibble is the next digit |
| Output.SymbolLine | apps/asm.c:2004-2026 | a listing line is 9 bytes plus the name |
| Output.SymbolLineReadsBack | apps/asm.c:2001-2026 | a listing line reads back as the kind letter, the address in hex (offset plus the variable's offset plus `textUsage` for BSS), the name, and CR LF |
| Output.NibbleStep | apps/asm.c:1831-1840 | a nibble becomes pending when none is, and otherwise completes a byte with the pending one |
| Output.OutputFile.constructor | apps/asm.c:89-90 | an empty file, buffer position 0, no pending nibble |
| Output.OutputFile.FlushOutputBuffer | apps/asm.c:320-324 | all 128 buffer bytes go to the file, including a stale tail past the position |
| Output.OutputFile.StartFile | apps/asm.c:2131 | the next file starts empty at position 0 |
| Output.OutputFile.WriteByte | apps/asm.c:326-335 | the written bytes gain exactly the byte; a full buffer goes to the file first |
| Output.OutputFile.WriteHeader | apps/asm.c:1815-1824 | the written bytes gain `Header(zpUsage, textUsage)` |
| Output.OutputFile.ResetRelocationWriter | apps/asm.c:1826-1829 | no pending nibble, and the stream starts at the current end |
| Output.OutputFile.WriteRelocation | apps/asm.c:1831-1840 | the stream gains the nibble; the completed pairs are on the file, packed |
| Output.OutputFile.WriteRelocationFor | apps/asm.c:1842-1850 | the stream gains `DeltaNibbles(delta)` |
| Output.OutputFile.FlushRelocations | apps/asm.c:1852-1856 | the bytes written since the reset are the packed stream, an odd final nibble paired with 0 |
| Output.OutputFile.WriteRelocationList | apps/asm.c:1976-1978 | the bytes written are the packed delta stream of the addresses plus 0xf, the linker's format |
| Output.OutputFile.WriteOffsets | apps/asm.c:1961-1962 | the stream gains the delta nibbles of each address from the one before |
| Output.OutputFile.WriteBytes | apps/asm.c:2025-2026 | consecutive `writeByte` calls: the written bytes gain exactly those bytes, in order |
| Output.OutputFile.WriteString | apps/asm.c:2020-2023 | the name loop writes the name's bytes, in order |
| Output.OutputFile.WriteHex16 | apps/asm.c:2013-2018 | the shift-and-mask loop writes the four hex digits of the address |
| Output.OutputFile.WriteAddressField | apps/asm.c:2003-2018 | the kind letter, a space, then the address as four hex digits |
| Output.OutputFile.WriteNameField | apps/asm.c:2020-2026 | a space, the name, then CR LF |
| Output.OutputFile.WriteSymbolLine | apps/asm.c:2004-2026 | one listing line is written as `SymbolLine` gives it |
| Output.OutputFile.WriteEntry | apps/asm.c:1993-2028 | a named symbol writes its line, and any other record writes nothing |
| Output.OutputFile.WriteSymbols | apps/asm.c:1981-2041 | the listing is one line per named symbol, in record order up to the end record, then ^Z |
| Multilink.DiffsBelow | tools/multilink.cc:40-53 | at most one offset per byte, and for images up to 64K every listed offset is a position where the images differ |
| Multilink.MaxBelow | tools/multilink.cc:41-51 | every differing first-image byte is at most the maximum |
| Multilink.Compare | tools/multilink.cc:30-56 | images of different sizes fail with the size message; otherwise the result is the differing offsets and the largest first-image byte at them |
| Multilink.DiffsExact | tools/multilink.cc:40-53 | the offset list is strictly increasing and holds exactly the offsets where the images differ |
| Multilink.MaxIsMaximum | tools/multilink.cc:41-51 | the maximum bounds every differing first-image byte and, unless 0, is one of them |
| Multilink.ToBytestream | tools/multilink.cc:58-85 | the output is the packed stream, ⌈nibbles/2⌉ bytes long, and decodes back to the offsets |
| Multilink.DeltaStream | tools/multilink.cc:60-75 | the first loop produces the delta nibbles and the 0xf terminator |
| Multilink.PackNibbles | tools/multilink.cc:77-84 | the second loop packs the nibbles two per byte, high first |
| Multilink.Roundup | tools/multilink.cc:99-102 | the result is a multiple of 128 and, unless the sum wraps, the least one at or above the value |
| Multilink.RoundupWraps | tools/multilink.cc:99-102 | near the top of the 32-bit range the sum wraps and the result is 0 |
| Multilink.Align | tools/multilink.cc:93-97 | zeros are appended up to the next multiple of the power of two, and nothing is appended when the length already is one |
| Multilink.PatchBody | tools/multilink.cc:171-188 | the body is as long as the core; with an increasing list, bytes at the listed offsets lose 2 and every other byte is copied |
| Multilink.PatchTpa | tools/multilink.cc:192-202 | only byte 1 changes: it becomes the larger of itself and the pages the code and relocation bytes need |
| Multilink.TpaCovers | tools/multilink.cc:192-202 | unless the page count wraps, the patched TPA covers the code and the relocation bytes and never shrinks |
| Multilink.WriteOutput | tools/multilink.cc:169-208 | for a core of at least 4 bytes: the body, then the two streams; byte 1 is the larger of the patched body byte and the pages needed; every other body byte is the core byte, less 2 where the memory image differs. A shorter core gives the body alone |
| Multilink.Link | tools/multilink.cc:151-211 | size mismatches fail with their messages. Otherwise, with a core of at least 4 bytes, the output is the body, then the zero-page stream, then the memory stream. Byte 1 is the larger of the patched byte and the pages that the code plus `reloBytesSize` need. Every other body byte is the core byte, less 2 where the memory image differs. A core under 4 bytes gives the body alone, because reading its header fails the stream |
| Mkfs.PrintHex4 | apps/mkfs.c:43-51 | the low nibble prints as its hex digit |
| Mkfs.PrintHex8 | apps/mkfs.c:53-57 | a byte prints as its high digit, then its low digit |
| Mkfs.PrintHex16 | apps/mkfs.c:59-63 | a word prints as four hex digits that read back as the word |
| Mkfs.PrintIp | apps/mkfs.c:69-88 | the loop prints what `Printed` specifies |
| Mkfs.PrintI | apps/mkfs.c:90-93 | `printi` prints the decimal representation of its argument |
| Mkfs.PrintedDecimal | apps/mkfs.c:69-88 | unpadded, any value below ten times the precision prints as its decimal representation, with no leading zeros |
| Mkfs.PrintedLeadingDigit | apps/mkfs.c:77-86 | when the first place prints a digit, every place does and the result is still the decimal representation |
| Mkfs.PrintedZero | apps/mkfs.c:77-86 | zero prints as "0", because the last place is never suppressed |
| Mkfs.PaddedWidth | apps/mkfs.c:69-88 | padded, the width is the number of digits of the precision |
| Mkfs.PadIrrelevant | apps/mkfs.c:77-86 | once a digit has been printed, padding makes no difference |
| Mkfs.PaddedIsSpaced | apps/mkfs.c:69-88 | padded, the output is the unpadded digits with the leading zeros replaced by spaces |
| Mkfs.BlockSize | apps/mkfs.c:111 | the block size is 2^(bsh+7), a multiple of 128 from 128 to 16384 |
| Mkfs.BlockCount | apps/mkfs.c:112 | the block count is `dsm + 1` unless the 16-bit sum wraps |
| Mkfs.DirectoryBlocksAsWritten | apps/mkfs.c:114 | the code's count is the whole blocks in the byte size taken modulo 2^16 |
| Mkfs.DirectoryBlocksWrap | apps/mkfs.c:114 | see Findings: 2048 directory entries with 4K blocks give 0 directory blocks instead of 16 |
| Mkfs.DirectoryBlocks | apps/mkfs.c:114 | the directory blocks are the whole blocks in `drm + 1` entries of 32 bytes, rounded down |
| Mkfs.AsWrittenAgreesBelow | apps/mkfs.c:114 | below 2047 the code's 16-bit product gives the same count |
| Mkfs.DirectorySectors | apps/mkfs.c:148-160 | the sectors written cover the directory's whole blocks: short of its byte size by less than one block, and a whole number of blocks |
| Mkfs.TotalKb | apps/mkfs.c:132 | the reported size is within 2K below the true size of the blocks plus the reserved sectors |
| Mkfs.Filler | apps/mkfs.c:146 | every written sector holds 128 bytes of 0xE5 |
| Mkfs.DirectoryWrites | apps/mkfs.c:148-167 | a completed fill is every sector in turn, then the last selected one again with argument 1, which forces it to the disk |
| Mkfs.FormatDirectory | apps/mkfs.c:148-167 | the fill succeeds exactly when no sector in the directory area fails; it then writes `DirectoryWrites`; on a failure it stops at the first failing sector with "Disk error" |
| Mkfs.Format | apps/mkfs.c:102-167 | a missing drive letter or a file name is a syntax error; an unknown drive fails; otherwise the directory area of `DirectorySectors` sectors (the corrected count) from the reserved ones is filled |

## Left out

- The expression evaluator (`consumeExpressionNode`, `consumeExpression`, `postProcess`) is not modelled. Its operand value, symbol and post-processing flag are parameters of `AddExpressionRecord`. `consumeArgument` is not modelled either; `AssembleOpcode` takes the mode it would return.
- The statement parser (`parse`) and the structured-control directives (`zproc`, `zloop`, `zif` and the rest) are left out. So are `.byte`, `.word`, `.fill` and `.label`. The model has the record operations they call (`EmitByte`, `EmitBytes`, `EmitFill`, `AddExpressionRecord`), but not the statement syntax.
- The include-file stack, the 128-byte sector reads behind `consumeByte`, and the console messages are left out. The tokenizer reads a `string`. A NUL or the end of the string reads as end of file (26).
- The tokenizer's 128-byte token buffer is not bounded. A longer identifier or string would overrun the source's `outputBuffer`; the model keeps reading.
- LexString (Lexer.LexString): a string still open at the end of the input fails here with "unterminated string constant". The source's loop treats only a line end as fatal. At end of file it keeps appending the end-of-file byte 26 and never stops, overrunning the 128-byte buffer, which a terminating function cannot follow. A NUL inside the string is appended as 26 and the string goes on, as in the source.
- ScanString (Lexer.Lexer.ScanString): follows `LexString`, so the same end-of-input case fails here.
- LexCharacter (Lexer.LexCharacter): the character after a character constant is skipped without checking that it is a closing quote, as in the source. Its value is the character's code. This does not model two things. First, the source converts a `char` to `uint16_t`, so the value of a byte above 127 depends on whether the target's `char` is signed. Second, a Dafny string can hold characters above 255, which no input byte can; `CharRoundTrip` is stated for codes below 256.
- ScanCharacter (Lexer.Lexer.ScanCharacter): follows `LexCharacter` and shares its value caveat.
- `writeCode` and the address selection in `writeTextRelocations` and `writeZPRelocations` are left out. The model starts from the lists of relocation addresses: `WriteRelocationList` writes them, and `Relocation` proves the stream decodes back to them.
- The relaxation loop in `main` (asm.c lines 2085-2093) is not a method. `QuietPassIsFinal` states what its exit condition guarantees, but termination of the loop is not claimed.
- AllocateZp (Assembler.Assembler.AllocateZp): uses the corrected `ZpAllocate` of the first Findings row, not the code as written. `.zp` of 100 bytes at usage 200 fails here with "ran out of zero page". The source accepts it and leaves usage 44 (`ZpOverflowUndetected`). `ZpAgreesInside` shows that the two agree on every allocation that ends inside zero page.
- ExprPlacement (Placement.ExprPlacement): uses the corrected `Shrinks` of the second Findings row. A `jsr` to a zero-page symbol stays 3 bytes here; the source sizes it 2 (`JsrShrinkKeepsThreeBytes`). Every other opcode shrinks as in the source.
- PlaceCodePass (Assembler.Assembler.PlaceCodePass): places through `ExprPlacement`, so a `jsr` to a zero-page symbol stays 3 bytes, where the source sizes it 2.
- PlaceCode (Placement.PlaceCode): the same corrected `jsr` sizing, through `ExprPlacement`.
- PlaceFrom (Placement.PlaceFrom): the same corrected `jsr` sizing, through `ExprPlacement`.
- Step (Placement.Step): the same corrected `jsr` sizing, through `ExprPlacement`.
- PlaceRecord (Assembler.Assembler.PlaceRecord): the same corrected `jsr` sizing, through `Step`.
- Opcodes.GetBofAM: a mode of 0 (the source loops forever) and modes with bits above 12 (the source reads past its table) are excluded by its precondition. The parser never passes either.
- Placement: a pass is modelled on a sequence of records. Symbol references are record indices, not pointers into a byte buffer.
- Records.Emit: the model does not simulate the in-place writes to raw memory.
- `printSymbol`, `errormessage` and `cpm_warmboot` are left out. The error paths that warm-boot (`branch to non-text label`, `symbol exists`) are failures with those messages.
- Multilink: command-line parsing, file-system sizes and stream I/O are left out; files are byte sequences. `emitw` is left out because nothing calls it. `roundup` and `align` are modelled, though `main` does not call them.
- Multilink.Compare: the offsets are `uint16_t`, so images over 64K give offsets truncated to 16 bits. `DiffsExact` and `Link`'s per-byte promise are stated only for images up to 64K.
- Multilink.PatchBody: where the source reads `*memi` past the end of the list, the model checks the end of the list first.
- Mkfs: the drive report, the Y/N confirmation and the BIOS calls are left out. A BIOS write is a `Write` entry; `failing` names the sectors whose write reports an error. `cpm.h` is not part of this model, so the disk parameter block fields follow CP/M 2.2: `bsh`, `dsm`, `drm` and `off`.
- Format (Mkfs.Format): formats the corrected `DirectoryBlocks` of the third Findings row, through `DirectorySectors`. With `drm` = 2047 and `bsh` = 5 it formats 512 sectors, where the source's wrapped product formats none (`DirectoryBlocksWrap`). `AsWrittenAgreesBelow` shows that the two agree for every directory below 2048 entries.
- Mkfs.BlockSize: block shifts are limited to 0-7. A shift of 8 or more overflows the 16-bit `1 << (bsh + 7)`, and CP/M 2.2 does not define it.
- Mkfs.FormatDirectory: the 32-bit sector counter is unbounded in the model. It would need 2^32 sectors to wrap.

## Findings

| source | as written | input that shows it | evidently intended | confidence | as-written member | corrected member |
|---|---|---|---|---|---|---|
| apps/asm.c:1226-1231 | `zpUsage + tokenValue` is computed in 16 bits, so the check fires only past 0xffff; the 8-bit `zpUsage` then wraps | `.zp` of 100 bytes when 200 are in use: it succeeds and usage becomes 44 | fail with "ran out of zero page" when the allocation passes the end of the 256-byte zero page | medium, not executed | Assembler.ZpOverflowUndetected | Assembler.ZpAllocate |
| apps/asm.c:1661-1667 | every opcode whose b-value has `BPROP_SHR` is shrunk by clearing bit 3 and given length 2; this includes `jsr` (0x20), whose b-value is `B_ABS` but which has no zero-page form | `jsr` to a `.zp` symbol: the opcode stays 0x20 and is placed as 2 bytes, so one operand byte is missing | shrink only the opcodes whose bit-3-cleared form is their zero-page form | medium, not executed | Placement.JsrShrinkKeepsThreeBytes | Placement.ShrinkGivesZeroPageForm |
| apps/mkfs.c:114 | `(dpb->drm+1) * 32` is computed in the 16-bit `unsigned` of the target and wraps | `drm` = 2047, `bsh` = 5 (2048 entries, 4K blocks): 0 directory blocks are formatted instead of 16 | the directory size in bytes divided by the block size | low, not executed | Mkfs.DirectoryBlocksWrap | Mkfs.DirectoryBlocks |
