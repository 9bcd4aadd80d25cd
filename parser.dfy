/** `Parser.kt`: the two-pass line assembler. The functions below specify one line, one pass
    and a whole program; `class Parser` holds the parser's mutable state and its methods are
    proved to follow those functions. */
module AsmParser {

  import opened Wrappers
  import opened KotlinStrings
  import opened KotlinNumbers
  import opened Errors
  import opened Instructions
  import opened AsmInstructions
  import opened InstructionRegistry

  type Labels = map<string, int>

  /** The initial value of `cursorResetAddress`, where both passes start. */
  const CursorReset: int := 0x8000

  /** The initial value of `currentAddress`: the decimal literal 8000, overwritten when a pass
      starts. */
  const InitialAddress: int := 8000

  // ---------------------------------------------------------------------------------------
  // Source lines

  /** The filter of both passes: lines starting with ';' and blank lines are dropped. */
  predicate IsSourceLine(line: string) {
    !StartsWith(line, ";") && !IsBlank(line)
  }

  /** `split(";")[0]`: the text before the first ';' (see `StripCommentIsFirstPiece`). */
  function StripComment(line: string): (r: string)
    ensures r <= line
    ensures ';' !in r
    ensures ';' !in line ==> r == line
  {
    var i := IndexOf(line, ';');
    if i < 0 then line else line[..i]
  }

  /** The stripped line is the first piece of splitting the line at ';'. */
  lemma StripCommentIsFirstPiece(line: string)
    ensures StripComment(line) == Split(line, ';')[0]
  {
  }

  /** The lines both passes parse, in order: the source lines of `all`, comments stripped.
      A line that is blank only after stripping is kept. */
  function SourceLines(all: seq<string>): (r: seq<string>)
    ensures |r| <= |all|
    ensures forall k :: 0 <= k < |r| ==> ';' !in r[k]
    decreases |all|
  {
    if all == [] then []
    else (if IsSourceLine(all[0]) then [StripComment(all[0])] else []) + SourceLines(all[1..])
  }

  // ---------------------------------------------------------------------------------------
  // Label substitution and operand tokens

  /** The guard `labels.keys.any { token1.contains(it) }`. */
  predicate MentionsLabel(labels: Labels, token1: string) {
    exists key | key in labels :: Contains(token1, key)
  }

  /** `token1.substring(token1.indexOf('@') + 1).split(" ")[0]`: the text after the first '@'
      (the whole field when there is no '@'). */
  function ReferencedLabel(token1: string): (r: string)
    ensures ' ' !in r
  {
    var at := IndexOf(token1, '@');
    if at < 0 then Split(token1, ' ')[0] else Split(token1[at..][1..], ' ')[0]
  }

  /** The `run` block's label substitution in the operand field. */
  function SubstituteLabel(labels: Labels, token1: string): (r: Result<string, AsmError>)
    ensures !MentionsLabel(labels, token1) ==> r == Ok(token1)
    ensures r.Err? <==> MentionsLabel(labels, token1) && ReferencedLabel(token1) !in labels
    ensures r.Err? ==> r.error == LabelNotFound(ReferencedLabel(token1))
  {
    if MentionsLabel(labels, token1) then
      var name := ReferencedLabel(token1);
      if name !in labels then Err(LabelNotFound(name))
      else Ok(ReplaceAll(token1, "@" + name, IntToHex(labels[name])))
    else Ok(token1)
  }

  /** `token1.split(",")`, except that a single blank piece means no operands. */
  function OperandTokens(field: string): (r: seq<string>)
    ensures r == [] <==> ',' !in field && IsBlank(field)
    ensures r != [] ==> Join(r, ',') == field
  {
    var args := Split(field, ',');
    JoinSplit(field, ',');
    if |args| == 1 && IsBlank(args[0]) then [] else args
  }

  // ---------------------------------------------------------------------------------------
  // Operand encoding

  /** The ADR branch: the value in hex, zero-padded to four digits, read back as the low byte
      (last two digits) and the high byte (first two). A value wider than four digits makes
      the padding loop spin forever; that outcome is `AddressPaddingNeverEnds`. */
  function EncodeAddress(arg: string): (r: Result<seq<UByte>, AsmError>)
    ensures r.Err? <==> ParseInt(arg).None? || ParseInt(arg).value > 0xFFFF
    ensures r.Err? ==> r.error == if ParseInt(arg).None? then NumberFormat(arg) else AddressPaddingNeverEnds(arg)
    ensures r.Ok? ==> |r.value| == 2 && r.value[0] as int + 256 * (r.value[1] as int) == ParseInt(arg).value
  {
    match ParseInt(arg)
    case None => Err(NumberFormat(arg))
    case Some(v) => if v > 0xFFFF then Err(AddressPaddingNeverEnds(arg)) else Ok([v % 256, v / 256])
  }

  /** The KO, KA (and any other) branch: one byte, `toUByte(16)`. */
  function EncodeByte(arg: string): (r: Result<seq<UByte>, AsmError>)
    ensures r.Ok? <==> ParseUByte(arg).Some?
    ensures r.Ok? ==> r.value == [ParseUByte(arg).value]
    ensures r.Err? ==> r.error == NumberFormat(arg)
  {
    match ParseUByte(arg)
    case Some(b) => Ok([b])
    case None => Err(NumberFormat(arg))
  }

  /** The number of operand bytes a variation encodes: only its first user slot counts. */
  function OperandWidth(v: AsmVariation): nat {
    if !v.ContainsUserArguments() then 0 else if v.GetUserArgument() == Some(ADR) then 2 else 1
  }

  /** The operand bytes of an instruction line: the token in the variation's first user slot,
      encoded by that slot's kind; nothing when there is no user slot. */
  function EncodeOperands(v: AsmVariation, args: seq<string>): (r: Result<seq<UByte>, AsmError>)
    requires |args| == |v.args|
    ensures r.Ok? ==> |r.value| == OperandWidth(v)
    ensures !v.ContainsUserArguments() ==> r == Ok([])
    ensures v.ContainsUserArguments() && v.GetUserArgument() == Some(ADR) ==>
              r == EncodeAddress(args[v.GetUserArgumentIndex()])
    ensures v.ContainsUserArguments() && v.GetUserArgument() != Some(ADR) ==>
              r == EncodeByte(args[v.GetUserArgumentIndex()])
  {
    if !v.ContainsUserArguments() then Ok([])
    else
      var arg := args[v.GetUserArgumentIndex()];
      if v.GetUserArgument() == Some(ADR) then EncodeAddress(arg) else EncodeByte(arg)
  }

  /** The ADR branch as the source runs it: a `while` loop prepending '0' until four digits. */
  method EncodeAddressOperand(arg: string) returns (r: Result<seq<UByte>, AsmError>)
    ensures r == EncodeAddress(arg)
  {
    var parsed := ParseInt(arg);
    if parsed.None? {
      return Err(NumberFormat(arg));
    }
    var v := parsed.value;
    var digits := IntToHex(v);
    var localArg := digits;
    if |localArg| > 4 {
      HexWidth(v, 4);
      return Err(AddressPaddingNeverEnds(arg));
    }
    while |localArg| != 4
      invariant |digits| <= |localArg| <= 4
      invariant localArg == Repeat('0', |localArg| - |digits|) + digits
      decreases 4 - |localArg|
    {
      localArg := "0" + localArg;
    }
    HexWidth(v, 4);
    var low := ParseUByte(localArg[2..]);
    var high := ParseUByte(localArg[..2]);
    SplitAddressDigits(v, localArg);
    return Ok([low.value, high.value]);
  }

  /** The `when (argType)` block as the source runs it, the ADR branch through its padding loop. */
  method EncodeUserOperand(v: AsmVariation, args: seq<string>) returns (r: Result<seq<UByte>, AsmError>)
    requires |args| == |v.args|
    ensures r == EncodeOperands(v, args)
  {
    if !v.ContainsUserArguments() {
      return Ok([]);
    }
    var arg := args[v.GetUserArgumentIndex()];
    if v.GetUserArgument() == Some(ADR) {
      r := EncodeAddressOperand(arg);
    } else {
      r := EncodeByte(arg);
    }
  }

  /** Four hex digits of `v`, split in two, read back as `v`'s low and high byte. */
  lemma SplitAddressDigits(v: nat, text: string)
    requires |text| == 4 && |NatToHex(v)| <= 4
    requires text == Repeat('0', 4 - |NatToHex(v)|) + NatToHex(v)
    ensures ParseUByte(text[2..]) == Some(v % 256)
    ensures ParseUByte(text[..2]) == Some(v / 256)
  {
    var hiText, loText := text[..2], text[2..];
    assert IsHexText(text) && HexValue(text) == v by {
      HexRoundTrip(v);
      HexValueZeroPrefix(4 - |NatToHex(v)|, NatToHex(v));
    }
    assert text == hiText + loText;
    HexHalves(text, hiText, loText);
    var hi, lo := HexValue(hiText), HexValue(loText);
    HexValueBound(hiText);
    HexValueBound(loText);
    assert Pow16(2) == 256;
    DivModByte(v, hi, lo);
  }

  /** The halves of a hex text are hex texts whose values combine to the whole. */
  lemma HexHalves(text: string, hiText: string, loText: string)
    requires IsHexText(text) && text == hiText + loText && |loText| == 2
    ensures IsHexText(hiText) && IsHexText(loText)
    ensures HexValue(text) == HexValue(hiText) * 256 + HexValue(loText)
  {
    assert IsHexText(hiText) by {
      forall i | 0 <= i < |hiText| ensures DigitValue(hiText[i]).Some? {
        assert hiText[i] == text[i];
      }
    }
    assert IsHexText(loText) by {
      forall i | 0 <= i < |loText| ensures DigitValue(loText[i]).Some? {
        assert loText[i] == text[|hiText| + i];
      }
    }
    HexValueConcat(hiText, loText);
    assert Pow16(2) == 256;
  }

  lemma DivModByte(v: int, hi: int, lo: int)
    requires 0 <= lo < 256 && v == hi * 256 + lo
    ensures v % 256 == lo && v / 256 == hi
  {
  }

  // ---------------------------------------------------------------------------------------
  // One line

  /** What `parseLine` leaves behind: the label table, the cursor and the instruction, if any. */
  datatype LineEffect = LineEffect(labels: Labels, address: int, emitted: Option<Instruction>)

  /** The instruction-line branch of `parseLine`: the operand field (the second space-separated
      token) with its label reference substituted, split at ',', the mnemonic (the first token)
      looked up, its variation chosen and the first user operand encoded. */
  function AssembleInstruction(catalog: Catalog, labels: Labels, address: int, line: string): (r: Result<Instruction, AsmError>)
    ensures r.Ok? ==> r.value.memoryAddress == address && 1 <= r.value.ByteSize() <= 3
  {
    match SubstituteLabel(labels, OperandField(line))
    case Err(e) => Err(e)
    case Ok(field) => AssembleMnemonic(catalog, Mnemonic(line), OperandTokens(field), address)
  }

  /** An assembled instruction line carries the opcode of the variation chosen for its
      operand tokens after label substitution, and those tokens encoded as its operands. */
  lemma AssembledInstruction(catalog: Catalog, labels: Labels, address: int, line: string)
    ensures var r := AssembleInstruction(catalog, labels, address, line);
            r.Ok? ==>
              SubstituteLabel(labels, OperandField(line)).Ok?
              && var tokens := OperandTokens(SubstituteLabel(labels, OperandField(line)).value);
                 Mnemonic(line) in catalog && catalog[Mnemonic(line)].GetVariation(tokens).Ok?
                 && var v := catalog[Mnemonic(line)].GetVariation(tokens).value;
                    r.value.opcode == v.code && r.value.operands == EncodeOperands(v, tokens).value
                    && r.value.memoryAddress == address
  {
  }

  /** The first space-separated token of an instruction line. */
  function Mnemonic(line: string): (r: string)
    ensures ' ' !in r
  {
    Split(line, ' ')[0]
  }

  /** The second space-separated token of an instruction line, or "" when there is none. */
  function OperandField(line: string): (r: string)
    ensures ' ' !in r
  {
    var tokens := Split(line, ' ');
    if |tokens| > 1 then tokens[1] else ""
  }

  /** The rest of that branch once the operands are known: mnemonic `name` looked up, its
      variation for `args` chosen and the first user operand encoded. */
  function AssembleMnemonic(catalog: Catalog, name: string, args: seq<string>, address: int): (r: Result<Instruction, AsmError>)
    ensures r.Ok? ==> r.value.memoryAddress == address && 1 <= r.value.ByteSize() <= 3
    ensures name !in catalog ==> r == Err(UnknownInstruction(name))
    ensures name in catalog && catalog[name].GetVariation(args).Err? ==>
              r == Err(catalog[name].GetVariation(args).error)
    ensures name in catalog && catalog[name].GetVariation(args).Ok? ==>
              var v := catalog[name].GetVariation(args).value;
              var operands := EncodeOperands(v, args);
              (r.Ok? <==> operands.Ok?)
              && (r.Err? ==> r.error == operands.error)
              && (r.Ok? ==> r.value.opcode == v.code && r.value.operands == operands.value
                            && r.value.ByteSize() == 1 + OperandWidth(v))
  {
    match Lookup(catalog, name)
    case Err(e) => Err(e)
    case Ok(asm) =>
      match asm.GetVariation(args)
      case Err(e) => Err(e)
      case Ok(v) =>
        match EncodeOperands(v, args)
        case Err(e) => Err(e)
        case Ok(operands) => Ok(Instruction(v.code, operands, address))
  }

  /** `parseLine(line)` from the label table and cursor before the call. */
  function ParseLineSpec(catalog: Catalog, labels: Labels, address: int, line: string): Result<LineEffect, AsmError>
  {
    if StartsWith(line, "@") then Ok(LineEffect(labels[line[1..] := address], address, None))
    else if EndsWith(line, ":") then DirectiveEffect(labels, DropLast(line))
    else InstructionEffect(labels, address, AssembleInstruction(catalog, labels, address, line))
  }

  /** `parseLine`'s three cases, by the shape of the line. */
  lemma LineCases(catalog: Catalog, labels: Labels, address: int, line: string)
    ensures StartsWith(line, "@") ==>
              ParseLineSpec(catalog, labels, address, line) == Ok(LineEffect(labels[line[1..] := address], address, None))
    ensures IsDirective(line) ==> ParseLineSpec(catalog, labels, address, line) == DirectiveEffect(labels, DropLast(line))
    ensures !StartsWith(line, "@") && !EndsWith(line, ":") ==>
              ParseLineSpec(catalog, labels, address, line)
              == InstructionEffect(labels, address, AssembleInstruction(catalog, labels, address, line))
  {
  }

  /** What a directive line with the text `target` before its ':' leaves behind: the cursor
      moved to that hex value, or the number-format failure. */
  function DirectiveEffect(labels: Labels, target: string): (r: Result<LineEffect, AsmError>)
    ensures r.Ok? <==> ParseInt(target).Some?
    ensures r.Ok? ==> r.value == LineEffect(labels, ParseInt(target).value, None)
    ensures r.Err? ==> r.error == NumberFormat(target)
  {
    match ParseInt(target)
    case Some(a) => Ok(LineEffect(labels, a, None))
    case None => Err(NumberFormat(target))
  }

  /** What an instruction line leaves behind: its failure, or the instruction emitted and the
      cursor moved past it. */
  function InstructionEffect(labels: Labels, address: int, assembled: Result<Instruction, AsmError>): Result<LineEffect, AsmError> {
    match assembled
    case Err(e) => Err(e)
    case Ok(inst) => Ok(LineEffect(labels, address + inst.ByteSize(), Some(inst)))
  }

  /** An address directive "XXXX:": a line ending in ':' that is not a label line. */
  predicate IsDirective(line: string) {
    !StartsWith(line, "@") && EndsWith(line, ":")
  }

  /** The line "@name" that defines label `name`. */
  predicate DefinesLabel(line: string, name: string) {
    StartsWith(line, "@") && line[1..] == name
  }

  /** A label line binds the text after '@' to the cursor, emits nothing, never fails and
      leaves the cursor where it was. */
  lemma LabelLine(catalog: Catalog, labels: Labels, address: int, line: string)
    requires StartsWith(line, "@")
    ensures var r := ParseLineSpec(catalog, labels, address, line);
              r.Ok? && r.value.emitted.None? && r.value.address == address
              && r.value.labels == labels[line[1..] := address]
  {
    LineCases(catalog, labels, address, line);
  }

  /** A directive "XXXX:" moves the cursor to the hex value before the colon, and fails when
      that text is no hex number within `Int`. */
  lemma DirectiveLine(catalog: Catalog, labels: Labels, address: int, line: string)
    requires IsDirective(line)
    ensures var r := ParseLineSpec(catalog, labels, address, line);
              (r.Ok? <==> ParseInt(line[..|line| - 1]).Some?)
              && (r.Ok? ==> r.value == LineEffect(labels, ParseInt(line[..|line| - 1]).value, None))
              && (r.Err? ==> r.error == NumberFormat(line[..|line| - 1]))
  {
    LineCases(catalog, labels, address, line);
  }

  /** An instruction line that parses yields an instruction placed at the cursor, one to three
      bytes long, moves the cursor past it and leaves the labels alone. */
  lemma InstructionLine(catalog: Catalog, labels: Labels, address: int, line: string)
    requires !StartsWith(line, "@") && !EndsWith(line, ":")
    requires ParseLineSpec(catalog, labels, address, line).Ok?
    ensures var e := ParseLineSpec(catalog, labels, address, line).value;
              e.emitted.Some? && e.emitted.value.memoryAddress == address
              && 1 <= e.emitted.value.ByteSize() <= 3
              && e.address == address + e.emitted.value.ByteSize()
              && e.labels == labels
  {
    LineCases(catalog, labels, address, line);
  }

  /** Only label lines touch the label table. */
  lemma LineLabelsFrame(catalog: Catalog, labels: Labels, address: int, line: string)
    requires !StartsWith(line, "@")
    requires ParseLineSpec(catalog, labels, address, line).Ok?
    ensures ParseLineSpec(catalog, labels, address, line).value.labels == labels
  {
    LineCases(catalog, labels, address, line);
    InstructionEffectLabels(labels, address, AssembleInstruction(catalog, labels, address, line));
  }

  lemma InstructionEffectLabels(labels: Labels, address: int, assembled: Result<Instruction, AsmError>)
    ensures var r := InstructionEffect(labels, address, assembled);
              r.Ok? ==> r.value.labels == labels
  {
  }

  // ---------------------------------------------------------------------------------------
  // One pass and the whole program

  /** A pass over the source lines: the final table and cursor, the instructions emitted and,
      if a line failed, that line's error (the pass stops there). */
  datatype PassOutcome = PassOutcome(labels: Labels, address: int, emitted: seq<Instruction>, failure: Option<AsmError>)

  function Emitted(o: Option<Instruction>): seq<Instruction> {
    if o.Some? then [o.value] else []
  }

  function Prepend(front: seq<Instruction>, o: PassOutcome): PassOutcome {
    o.(emitted := front + o.emitted)
  }

  /** `lines.map { parseLine(it) }` (pass 1) and `lines.mapNotNull { parseLine(it) }` (pass 2). */
  function RunPass(catalog: Catalog, labels: Labels, address: int, lines: seq<string>): PassOutcome
    decreases |lines|
  {
    if lines == [] then PassOutcome(labels, address, [], None)
    else
      match ParseLineSpec(catalog, labels, address, lines[0])
      case Err(e) => PassOutcome(labels, address, [], Some(e))
      case Ok(eff) => Prepend(Emitted(eff.emitted), RunPass(catalog, eff.labels, eff.address, lines[1..]))
  }

  /** A pass that has emitted `emitted` and continues over `rest` from `labels` and `address`
      ends in `goal`. */
  predicate PassedTo(catalog: Catalog, goal: PassOutcome, emitted: seq<Instruction>, labels: Labels,
                     address: int, rest: seq<string>) {
    goal == Prepend(emitted, RunPass(catalog, labels, address, rest))
  }

  /** One line of a pass: a failing line ends the pass with its error, otherwise the pass
      continues after it. */
  lemma PassStep(catalog: Catalog, goal: PassOutcome, emitted: seq<Instruction>, labels: Labels,
                 address: int, rest: seq<string>)
    requires rest != [] && PassedTo(catalog, goal, emitted, labels, address, rest)
    ensures var s := ParseLineSpec(catalog, labels, address, rest[0]);
            (s.Err? ==> goal == PassOutcome(labels, address, emitted, Some(s.error)))
            && (s.Ok? ==> PassedTo(catalog, goal, emitted + Emitted(s.value.emitted), s.value.labels,
                                   s.value.address, rest[1..]))
  {
    var s := ParseLineSpec(catalog, labels, address, rest[0]);
    if s.Ok? {
      var tail := RunPass(catalog, s.value.labels, s.value.address, rest[1..]);
      ConcatAssoc(emitted, Emitted(s.value.emitted), tail.emitted);
    } else {
      assert emitted + [] == emitted;
    }
  }

  /** A pass with no lines left ends where it stands. */
  lemma PassEnd(catalog: Catalog, goal: PassOutcome, emitted: seq<Instruction>, labels: Labels,
                address: int, rest: seq<string>)
    requires rest == [] && PassedTo(catalog, goal, emitted, labels, address, rest)
    ensures goal == PassOutcome(labels, address, emitted, None)
  {
    assert emitted + [] == emitted;
  }

  /** `lines.map { setLabelPlaceholder(it) }`: every label line binds its name to the cursor,
      which does not move. */
  function Placeholders(labels: Labels, address: int, lines: seq<string>): Labels
    decreases |lines|
  {
    if lines == [] then labels
    else
      var seeded := if StartsWith(lines[0], "@") then labels[lines[0][1..] := address] else labels;
      Placeholders(seeded, address, lines[1..])
  }

  /** `parseContent()` as a whole: its result, and the label table, cursor and line count it
      leaves behind. */
  datatype ContentOutcome = ContentOutcome(result: Result<seq<Instruction>, ContentError>,
                                           labels: Labels, address: int, lineCount: int)

  /** A failure of `parseContent`: pass 1 lets the line's exception escape as it is; pass 2
      wraps it in a ParseException carrying `lineCount`. */
  datatype ContentError = Pass1Failure(cause: AsmError) | LineFailure(line: int, cause: AsmError)

  function ParseContentSpec(catalog: Catalog, content: string, labels: Labels, cursorReset: int,
                            lineReset: int, lineCount: int): ContentOutcome
  {
    var all := Split(content, '\n');
    var lines := SourceLines(all);
    var first := RunPass(catalog, Placeholders(labels, cursorReset, lines), cursorReset, lines);
    ContentVerdict(first, RunPass(catalog, first.labels, cursorReset, lines), lineReset + |all|, lineCount)
  }

  /** The outcome of `parseContent` from its two passes: pass 1's failure escapes with the
      line count untouched; after pass 1 the line count is `counted`, and pass 2 either
      fails at `counted` or yields its instructions. */
  function ContentVerdict(first: PassOutcome, second: PassOutcome, counted: int, lineCount: int): (r: ContentOutcome)
    ensures r.result.Ok? <==> first.failure.None? && second.failure.None?
    ensures r.result.Ok? ==> r.result.value == second.emitted && r.lineCount == counted
    ensures first.failure.Some? ==> r.result == Err(Pass1Failure(first.failure.value)) && r.lineCount == lineCount
    ensures first.failure.None? && second.failure.Some? ==>
              r.result == Err(LineFailure(counted, second.failure.value)) && r.lineCount == counted
  {
    if first.failure.Some? then
      ContentOutcome(Err(Pass1Failure(first.failure.value)), first.labels, first.address, lineCount)
    else if second.failure.Some? then
      ContentOutcome(Err(LineFailure(counted, second.failure.value)), second.labels, second.address, counted)
    else
      ContentOutcome(Ok(second.emitted), second.labels, second.address, counted)
  }

  // ---------------------------------------------------------------------------------------
  // The parser object

  /** `class Parser(content)`. */
  class Parser {
    const content: string
    var labels: Labels
    var cursorResetAddress: int
    var lineResetCount: int
    var currentAddress: int
    var lineCount: int

    constructor(content: string)
      ensures this.content == content && labels == map[]
      ensures cursorResetAddress == CursorReset && lineResetCount == 0
      ensures currentAddress == InitialAddress && lineCount == 0
    {
      this.content := content;
      labels := map[];
      cursorResetAddress := CursorReset;
      lineResetCount := 0;
      currentAddress := InitialAddress;
      lineCount := 0;
    }

    /** `setLabelPlaceholder(line)`: a label line binds its name to the cursor; the line is
        passed on unchanged. */
    method SetLabelPlaceholder(line: string) returns (r: string)
      modifies this
      ensures r == line
      ensures labels == if StartsWith(line, "@") then old(labels)[line[1..] := currentAddress] else old(labels)
      ensures currentAddress == old(currentAddress) && lineCount == old(lineCount)
      ensures cursorResetAddress == old(cursorResetAddress) && lineResetCount == old(lineResetCount)
    {
      if StartsWith(line, "@") {
        labels := labels[line[1..] := currentAddress];
      }
      return line;
    }

    /** `parseLine(line)`: follows `ParseLineSpec`; a failing line leaves the state as it was. */
    method ParseLine(register: InstructionRegister, line: string) returns (r: Result<Option<Instruction>, AsmError>)
      modifies this
      ensures var s := ParseLineSpec(register.instructions, old(labels), old(currentAddress), line);
                (s.Ok? ==> r == Ok(s.value.emitted) && labels == s.value.labels && currentAddress == s.value.address)
                && (s.Err? ==> r == Err(s.error) && labels == old(labels) && currentAddress == old(currentAddress))
      ensures lineCount == old(lineCount)
      ensures cursorResetAddress == old(cursorResetAddress) && lineResetCount == old(lineResetCount)
    {
      LineCases(register.instructions, labels, currentAddress, line);
      if StartsWith(line, "@") {
        labels := labels[line[1..] := currentAddress];
        return Ok(None);
      }
      if EndsWith(line, ":") {
        var address := DropLast(line);
        var parsed := ParseInt(address);
        if parsed.None? {
          return Err(NumberFormat(address));
        }
        currentAddress := parsed.value;
        return Ok(None);
      }
      var assembled := AssembleLine(register, line);
      if assembled.Err? {
        return Err(assembled.error);
      }
      var instruction := assembled.value;
      currentAddress := currentAddress + instruction.ByteSize();
      return Ok(Some(instruction));
    }

    /** The instruction-line branch of `parseLine`, which reads the labels and the cursor and
        changes nothing. */
    method AssembleLine(register: InstructionRegister, line: string) returns (r: Result<Instruction, AsmError>)
      ensures r == AssembleInstruction(register.instructions, labels, currentAddress, line)
    {
      var tokens := Split(line, ' ');
      var token1 := if |tokens| > 1 then tokens[1] else "";
      assert tokens[0] == Mnemonic(line) && token1 == OperandField(line);
      var substituted := SubstituteLabel(labels, token1);
      if substituted.Err? {
        return Err(substituted.error);
      }
      var args := OperandTokens(substituted.value);
      var found := register.GetByName(tokens[0]);
      if found.Err? {
        return Err(found.error);
      }
      var variation := found.value.GetVariation(args);
      if variation.Err? {
        return Err(variation.error);
      }
      var asm := variation.value;
      var encoded := EncodeUserOperand(asm, args);
      if encoded.Err? {
        return Err(encoded.error);
      }
      return Ok(Instruction(asm.code, encoded.value, currentAddress));
    }

    /** The placeholder stage of pass 1, over every line before any is parsed. */
    method SetLabelPlaceholders(lines: seq<string>)
      modifies this
      ensures labels == Placeholders(old(labels), currentAddress, lines)
      ensures currentAddress == old(currentAddress) && lineCount == old(lineCount)
      ensures cursorResetAddress == old(cursorResetAddress) && lineResetCount == old(lineResetCount)
    {
      var i := 0;
      while i < |lines|
        invariant 0 <= i <= |lines|
        invariant Placeholders(old(labels), currentAddress, lines) == Placeholders(labels, currentAddress, lines[i..])
        invariant currentAddress == old(currentAddress) && lineCount == old(lineCount)
        invariant cursorResetAddress == old(cursorResetAddress) && lineResetCount == old(lineResetCount)
      {
        assert lines[i..][1..] == lines[i + 1..];
        var _ := SetLabelPlaceholder(lines[i]);
        i := i + 1;
      }
    }

    /** One pass of `parseLine` over the lines, stopping at the first failing line. */
    method ParseLines(register: InstructionRegister, lines: seq<string>)
      returns (emitted: seq<Instruction>, failure: Option<AsmError>)
      modifies this
      ensures var o := RunPass(register.instructions, old(labels), old(currentAddress), lines);
                labels == o.labels && currentAddress == o.address && emitted == o.emitted && failure == o.failure
      ensures lineCount == old(lineCount)
      ensures cursorResetAddress == old(cursorResetAddress) && lineResetCount == old(lineResetCount)
    {
      emitted := [];
      ghost var catalog := register.instructions;
      ghost var goal := RunPass(catalog, labels, currentAddress, lines);
      var i := 0;
      assert lines[0..] == lines;
      while i < |lines|
        invariant 0 <= i <= |lines|
        invariant PassedTo(catalog, goal, emitted, labels, currentAddress, lines[i..])
        invariant lineCount == old(lineCount)
        invariant cursorResetAddress == old(cursorResetAddress) && lineResetCount == old(lineResetCount)
      {
        assert lines[i..][0] == lines[i] && lines[i..][1..] == lines[i + 1..];
        ghost var step := ParseLineSpec(catalog, labels, currentAddress, lines[i]);
        PassStep(catalog, goal, emitted, labels, currentAddress, lines[i..]);
        var r := ParseLine(register, lines[i]);
        if r.Err? {
          return emitted, Some(r.error);
        }
        emitted := emitted + Emitted(r.value);
        i := i + 1;
      }
      PassEnd(catalog, goal, emitted, labels, currentAddress, lines[i..]);
      return emitted, None;
    }

    /** Pass 2's filter: `lineCount++` runs for every line, the kept lines are stripped. */
    method CountSourceLines(all: seq<string>) returns (lines: seq<string>)
      modifies this
      ensures lines == SourceLines(all)
      ensures lineCount == old(lineCount) + |all|
      ensures labels == old(labels) && currentAddress == old(currentAddress)
      ensures cursorResetAddress == old(cursorResetAddress) && lineResetCount == old(lineResetCount)
    {
      lines := [];
      var i := 0;
      while i < |all|
        invariant 0 <= i <= |all|
        invariant lines + SourceLines(all[i..]) == SourceLines(all)
        invariant lineCount == old(lineCount) + i
        invariant labels == old(labels) && currentAddress == old(currentAddress)
        invariant cursorResetAddress == old(cursorResetAddress) && lineResetCount == old(lineResetCount)
      {
        assert all[i..][0] == all[i] && all[i..][1..] == all[i + 1..];
        lineCount := lineCount + 1;
        if IsSourceLine(all[i]) {
          lines := lines + [StripComment(all[i])];
        }
        i := i + 1;
      }
      assert all[|all|..] == [];
    }

    /** The first half of `parseContent`: the cursor reset, the placeholder stage, then every
        line parsed for its labels. */
    method PreprocessPass(register: InstructionRegister, lines: seq<string>) returns (failure: Option<AsmError>)
      modifies this
      ensures var o := RunPass(register.instructions, Placeholders(old(labels), old(cursorResetAddress), lines),
                               old(cursorResetAddress), lines);
                labels == o.labels && currentAddress == o.address && failure == o.failure
      ensures lineCount == old(lineCount)
      ensures cursorResetAddress == old(cursorResetAddress) && lineResetCount == old(lineResetCount)
    {
      currentAddress := cursorResetAddress;
      SetLabelPlaceholders(lines);
      var _, f := ParseLines(register, lines);
      return f;
    }

    /** The second half of `parseContent`: cursor and line count reset, every line counted,
        the source lines parsed again and the instructions collected. */
    method CompilePass(register: InstructionRegister, all: seq<string>)
      returns (emitted: seq<Instruction>, failure: Option<AsmError>)
      modifies this
      ensures var o := RunPass(register.instructions, old(labels), old(cursorResetAddress), SourceLines(all));
                labels == o.labels && currentAddress == o.address && emitted == o.emitted && failure == o.failure
      ensures lineCount == old(lineResetCount) + |all|
      ensures cursorResetAddress == old(cursorResetAddress) && lineResetCount == old(lineResetCount)
    {
      currentAddress := cursorResetAddress;
      lineCount := lineResetCount;
      var lines := CountSourceLines(all);
      emitted, failure := ParseLines(register, lines);
    }

    /** `parseContent()`: placeholders, pass 1 from `cursorResetAddress`, then the cursor and
        `lineCount` reset and pass 2, whose failure reports `lineCount`. */
    method ParseContent(register: InstructionRegister) returns (r: Result<seq<Instruction>, ContentError>)
      modifies this
      ensures var o := ParseContentSpec(register.instructions, content, old(labels), old(cursorResetAddress),
                                        old(lineResetCount), old(lineCount));
                r == o.result && labels == o.labels && currentAddress == o.address && lineCount == o.lineCount
      ensures cursorResetAddress == old(cursorResetAddress) && lineResetCount == old(lineResetCount)
    {
      var all := Split(content, '\n');
      var failure := PreprocessPass(register, SourceLines(all));
      if failure.Some? {
        return Err(Pass1Failure(failure.value));
      }
      var emitted, failure2 := CompilePass(register, all);
      if failure2.Some? {
        return Err(LineFailure(lineCount, failure2.value));
      }
      return Ok(emitted);
    }
  }
}
