/** `instructions/Instruction.kt`: an encoded instruction, that is an opcode, its operand
    bytes and the address the parser placed it at. */
module Instructions {

  import opened KotlinNumbers

  /** `Instruction(opcode, operands, memoryAddress)`; `memoryAddress` is the field the callers
      construct and read. */
  datatype Instruction = Instruction(opcode: UByte, operands: seq<UByte>, memoryAddress: int)
  {
    /** `byteSize`: the opcode byte plus one byte per operand. */
    function ByteSize(): (n: nat)
      ensures n >= 1
    {
      |operands| + 1
    }

    /** `toBytes()`: the opcode, then the operands in order. */
    function ToBytes(): (r: seq<UByte>)
      ensures |r| == ByteSize()
      ensures r[0] == opcode && r[1..] == operands
    {
      [opcode] + operands
    }

    /** `getNop(address)`: the one-byte no-operation 0x00 placed at `address`. */
    static function GetNop(address: int): (r: Instruction)
      ensures r.ToBytes() == [0x00] && r.ByteSize() == 1
      ensures r.memoryAddress == address
    {
      Instruction(0x00, [], address)
    }
  }
}
