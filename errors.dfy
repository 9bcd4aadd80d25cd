/** The exceptions the assembler core can raise, one constructor per throw site. */
module Errors {

  datatype AsmError =
    /** `InstructionRegister.getByName`: IllegalArgumentException for an unknown mnemonic */
    | UnknownInstruction(name: string)
    /** `AsmInstruction.getVariation`: IllegalArgumentException when no variation matches */
    | InvalidInstruction(name: string, args: seq<string>)
    /** `Parser.parseLine`: IllegalArgumentException for a label that was never recorded */
    | LabelNotFound(labelName: string)
    /** `String.toInt(16)` / `String.toUByte(16)`: NumberFormatException */
    | NumberFormat(text: string)
    /** `Parser.parseLine`: the ADR zero-padding loop never ends for a value wider than four
        hex digits; the program hangs instead of returning */
    | AddressPaddingNeverEnds(text: string)
}
