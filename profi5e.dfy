/** `Profi5E.kt`: the memory window of the program, the binary image the instructions are
    written into, and the hex listing of the window. */
module Profi5E {

  import opened Wrappers
  import opened KotlinStrings
  import opened KotlinNumbers
  import opened Instructions
  import opened PrimitiveExtensions

  const DefaultMemStart: int := 0x8000
  const DefaultMemEnd: int := 0x87FF
  const DefaultProgramStart: int := 0x8000

  /** The options the image construction reads, already converted to numbers: `-ps`, `-ms` and
      `-me` (`None` when not given) and the flag `-ma`. */
  datatype Options = Options(programStart: Option<int>, memStart: Option<int>, memEnd: Option<int>, memAuto: bool)

  /** The failures of image construction. */
  datatype ImageError =
    /** `minOf`/`maxOf` on an empty instruction list in auto mode: NoSuchElementException */
    | EmptyInstructionList
    /** `ByteArray(n)` for a window whose end lies before its start: NegativeArraySizeException */
    | NegativeBufferSize

  /** `cmd.getValue(option, default)`: the option's value when given, else the default. */
  function GetValue(option: Option<int>, default: int): int {
    if option.Some? then option.value else default
  }

  /** `instructions.minOf(Instruction::memoryAddress)` */
  function MinAddress(insts: seq<Instruction>): (r: int)
    requires insts != []
    ensures exists i :: 0 <= i < |insts| && insts[i].memoryAddress == r
    ensures forall i :: 0 <= i < |insts| ==> r <= insts[i].memoryAddress
    decreases |insts|
  {
    if |insts| == 1 then insts[0].memoryAddress
    else
      var rest := MinAddress(insts[1..]);
      assert forall i :: 1 <= i < |insts| ==> insts[i] == insts[1..][i - 1];
      Min(insts[0].memoryAddress, rest)
  }

  /** `instructions.maxOf(Instruction::memoryAddress)` */
  function MaxAddress(insts: seq<Instruction>): (r: int)
    requires insts != []
    ensures exists i :: 0 <= i < |insts| && insts[i].memoryAddress == r
    ensures forall i :: 0 <= i < |insts| ==> insts[i].memoryAddress <= r
    decreases |insts|
  {
    if |insts| == 1 then insts[0].memoryAddress
    else
      var rest := MaxAddress(insts[1..]);
      assert forall i :: 1 <= i < |insts| ==> insts[i] == insts[1..][i - 1];
      Max(insts[0].memoryAddress, rest)
  }

  /** The window arithmetic of `getMemoryRange`: a program starting above the memory start
      keeps the configured window; one starting below it gets a window of the same length
      moved down to its start. */
  function Window(ms: int, me: int, ps: int): (w: (int, int))
    ensures ps >= ms ==> w == (ms, me)
    ensures ps <= ms ==> w == (ps, ps + (me - ms))
  {
    var programLen := me - ms;
    (Min(ms, ps), Min(me, ps + programLen))
  }

  /** `getMemoryRange(instructions)`. Both defaults are evaluated before the options are
      consulted, so auto mode fails on an empty list even when `-ms` and `-me` are given. */
  function GetMemoryRange(insts: seq<Instruction>, opts: Options): (r: Result<(int, int), ImageError>)
    ensures r.Err? <==> opts.memAuto && insts == []
    ensures r.Err? ==> r.error == EmptyInstructionList
  {
    if opts.memAuto && insts == [] then Err(EmptyInstructionList)
    else
      var ps := GetValue(opts.programStart, DefaultProgramStart);
      var ms := GetValue(opts.memStart, if opts.memAuto then MinAddress(insts) else DefaultMemStart);
      var me := GetValue(opts.memEnd, if opts.memAuto then MaxAddress(insts) else DefaultMemEnd);
      Ok(Window(ms, me, ps))
  }

  /** With no options the window is the default one, 0x8000..0x87FF. */
  lemma DefaultWindow(insts: seq<Instruction>)
    ensures GetMemoryRange(insts, Options(None, None, None, false)) == Ok((0x8000, 0x87FF))
  {
  }

  /** In auto mode, without explicit bounds and with the program starting at its lowest
      address, the window spans exactly the lowest to the highest instruction address. */
  lemma AutoWindow(insts: seq<Instruction>)
    requires insts != []
    ensures GetMemoryRange(insts, Options(Some(MinAddress(insts)), None, None, true))
            == Ok((MinAddress(insts), MaxAddress(insts)))
  {
  }

  /** `-ms` and `-me` take precedence over both the defaults and auto mode; `-ps` (0x8000
      when absent) only moves the window down when the program starts below `-ms`. */
  lemma ExplicitWindow(insts: seq<Instruction>, ps: Option<int>, ms: int, me: int, auto: bool)
    requires auto ==> insts != []
    ensures var start := GetValue(ps, DefaultProgramStart);
            var r := GetMemoryRange(insts, Options(ps, Some(ms), Some(me), auto));
            (start >= ms ==> r == Ok((ms, me)))
            && (start < ms ==> r == Ok((start, start + (me - ms))))
  {
  }

  /** Auto mode without bounds: the window spans the lowest to the highest instruction address,
      moved down to the program start (0x8000 when absent) when that lies below it. */
  lemma AutoWindowFrom(insts: seq<Instruction>, ps: Option<int>)
    requires insts != []
    ensures var start := GetValue(ps, DefaultProgramStart);
            var lo, hi := MinAddress(insts), MaxAddress(insts);
            var r := GetMemoryRange(insts, Options(ps, None, None, true));
            (start >= lo ==> r == Ok((lo, hi)))
            && (start < lo ==> r == Ok((start, start + (hi - lo))))
  {
  }

  /** Without bounds or auto mode the window is 0x8000..0x87FF for any program start at or
      above 0x8000, and the same 2 KiB moved down to a lower one. */
  lemma DefaultWindowFrom(insts: seq<Instruction>, ps: Option<int>)
    ensures var start := GetValue(ps, DefaultProgramStart);
            var r := GetMemoryRange(insts, Options(ps, None, None, false));
            (start >= 0x8000 ==> r == Ok((0x8000, 0x87FF)))
            && (start < 0x8000 ==> r == Ok((start, start + 0x7FF)))
  {
  }

  // ---------------------------------------------------------------------------------------
  // The binary image

  /** The bytes of the instructions, in order, as the placement loop visits them. */
  function Flatten(insts: seq<Instruction>): (r: seq<UByte>)
    decreases |insts|
  {
    if insts == [] then [] else Flatten(insts[..|insts| - 1]) + insts[|insts| - 1].ToBytes()
  }

  /** How many of `total` bytes the placement loop writes into a buffer of `size` bytes when it
      starts at `offset`: it writes while the offset is inside the buffer, and the offset only
      moves on a write. */
  function WrittenCount(offset: int, size: nat, total: nat): (w: nat)
    ensures w <= total
    ensures offset < 0 || offset >= size ==> w == 0
    ensures 0 <= offset && offset + total <= size ==> w == total
  {
    if offset < 0 then 0 else Min(total, Max(0, size - offset))
  }

  /** The buffer after placing `bytes` from `offset`: the written prefix of `bytes` from
      `offset` on, zeros everywhere else. */
  function PlacedImage(bytes: seq<UByte>, offset: int, size: nat): (r: seq<UByte>)
    ensures |r| == size
  {
    var w := WrittenCount(offset, size, |bytes|);
    seq(size, k requires 0 <= k < size => if offset <= k < offset + w then bytes[k - offset] else 0)
  }

  /** The placement loop of `run`: allocates the zeroed buffer for the window and writes the
      bytes of all instructions into it contiguously from `programStart - first`, counting a
      warning for every byte that falls outside. */
  method CompileBinary(insts: seq<Instruction>, programStart: int, memRange: (int, int))
    returns (bin: Result<array<UByte>, ImageError>, warnings: nat)
    ensures bin.Err? <==> memRange.1 - memRange.0 + 1 < 0
    ensures bin.Err? ==> bin.error == NegativeBufferSize && warnings == 0
    ensures bin.Ok? ==>
              var size := memRange.1 - memRange.0 + 1;
              var offset := programStart - memRange.0;
              var total := |Flatten(insts)|;
              fresh(bin.value) && bin.value.Length == size
              && bin.value[..] == PlacedImage(Flatten(insts), offset, size)
              && warnings == total - WrittenCount(offset, size, total)
  {
    var n := memRange.1 - memRange.0 + 1;
    if n < 0 {
      return Err(NegativeBufferSize), 0;
    }
    var buffer := new UByte[n](_ => 0);
    var offset0 := programStart - memRange.0;
    var offset := offset0;
    warnings := 0;
    ghost var done: seq<UByte> := [];
    var i := 0;
    while i < |insts|
      invariant 0 <= i <= |insts|
      invariant done == Flatten(insts[..i])
      invariant offset == offset0 + WrittenCount(offset0, n, |done|)
      invariant warnings == |done| - WrittenCount(offset0, n, |done|)
      invariant buffer[..] == PlacedImage(done, offset0, n)
    {
      var bytes := insts[i].ToBytes();
      var j := 0;
      while j < |bytes|
        invariant 0 <= j <= |bytes|
        invariant done == Flatten(insts[..i]) + bytes[..j]
        invariant offset == offset0 + WrittenCount(offset0, n, |done|)
        invariant warnings == |done| - WrittenCount(offset0, n, |done|)
        invariant buffer[..] == PlacedImage(done, offset0, n)
      {
        var byte := bytes[j];
        PlaceStep(done, byte, offset0, n);
        if offset >= n {
          warnings := warnings + 1;
        } else if offset < 0 {
          warnings := warnings + 1;
        } else {
          buffer[offset] := byte;
          offset := offset + 1;
        }
        done := done + [byte];
        assert bytes[..j + 1] == bytes[..j] + [byte];
        j := j + 1;
      }
      assert bytes[..j] == bytes;
      assert insts[..i + 1][..i] == insts[..i];
      i := i + 1;
    }
    assert insts[..i] == insts;
    return Ok(buffer), warnings;
  }

  /** One byte of the placement loop: written at the current offset when that lies inside the
      buffer (the written count grows by one), otherwise only counted as a warning. */
  lemma PlaceStep(done: seq<UByte>, b: UByte, offset0: int, size: nat)
    ensures var w := WrittenCount(offset0, size, |done|);
            var offset := offset0 + w;
            var w' := WrittenCount(offset0, size, |done| + 1);
            var before := PlacedImage(done, offset0, size);
            var after := PlacedImage(done + [b], offset0, size);
            (0 <= offset < size ==> w' == w + 1 && after == before[offset := b])
            && (!(0 <= offset < size) ==> w' == w && after == before)
  {
    var w := WrittenCount(offset0, size, |done|);
    var offset := offset0 + w;
    var w' := WrittenCount(offset0, size, |done| + 1);
    var before := PlacedImage(done, offset0, size);
    var after := PlacedImage(done + [b], offset0, size);
    if 0 <= offset < size {
      assert offset0 >= 0 && w == |done|;
      forall k | 0 <= k < size ensures after[k] == before[offset := b][k] {
        if offset0 <= k < offset {
          assert (done + [b])[k - offset0] == done[k - offset0];
        }
      }
    } else {
      forall k | 0 <= k < size ensures after[k] == before[k] {
        if offset0 <= k < offset0 + w {
          assert (done + [b])[k - offset0] == done[k - offset0];
        }
      }
    }
  }

  /** A fresh buffer holds only zeros. */
  lemma EmptyImageIsZero(offset: int, size: nat)
    ensures forall k :: 0 <= k < size ==> PlacedImage([], offset, size)[k] == 0
  {
  }

  /** The image holds the written bytes in order from the start offset, zeros before and
      after them. */
  lemma ImageLayout(bytes: seq<UByte>, offset: int, size: nat)
    ensures var w := WrittenCount(offset, size, |bytes|);
            var image := PlacedImage(bytes, offset, size);
            (forall k :: 0 <= k < w ==> image[offset + k] == bytes[k])
            && (forall k :: 0 <= k < size && (k < offset || k >= offset + w) ==> image[k] == 0)
  {
    var w := WrittenCount(offset, size, |bytes|);
    var image := PlacedImage(bytes, offset, size);
    forall k | 0 <= k < w ensures image[offset + k] == bytes[k] {
      assert 0 <= offset + k < size;
    }
  }

  /** Once a byte is counted as a warning, every later one is too: the written bytes are a
      prefix of the byte stream. */
  lemma WarningsAreASuffix(offset: int, size: nat, n: nat, m: nat)
    requires n <= m
    requires WrittenCount(offset, size, n) < n
    ensures WrittenCount(offset, size, m) == WrittenCount(offset, size, n)
  {
  }

  // ---------------------------------------------------------------------------------------
  // The hex listing

  /** `memoryKeyMap`: each instruction under its address, a later instruction replacing an
      earlier one at the same address. */
  function AddressMap(insts: seq<Instruction>): map<int, Instruction>
    decreases |insts|
  {
    if insts == [] then map[]
    else
      var last := insts[|insts| - 1];
      AddressMap(insts[..|insts| - 1])[last.memoryAddress := last]
  }

  /** `memoryKeyMap[address] ?: Instruction.getNop(address)` */
  function InstructionAt(m: map<int, Instruction>, address: int): Instruction {
    if address in m then m[address] else Instruction.GetNop(address)
  }

  /** One row of the listing: the address and the instruction shown there. */
  datatype Row = Row(address: int, inst: Instruction)

  /** The rows the `while` loop of `buildHexString` visits, from `address` to `last`. */
  function ListingRows(m: map<int, Instruction>, address: int, last: int): (rows: seq<Row>)
    ensures rows == [] <==> address > last
    decreases last + 1 - address
  {
    if address > last then []
    else
      var inst := InstructionAt(m, address);
      [Row(address, inst)] + ListingRows(m, address + inst.ByteSize(), last)
  }

  /** The listing starts at the window's first address; each row's successor starts right
      after it; every row starts at or below `last` and the walk stops at the first address
      past it; each row shows the instruction stored at its address, or a NOP. */
  lemma {:induction false} ListingRowsChain(m: map<int, Instruction>, address: int, last: int)
    ensures var rows := ListingRows(m, address, last);
            (rows != [] ==> rows[0].address == address)
            && (forall k :: 0 <= k < |rows| ==> rows[k].address <= last)
            && (forall k :: 0 <= k < |rows| ==> rows[k].inst == InstructionAt(m, rows[k].address))
            && (forall k :: 0 <= k < |rows| - 1 ==>
                  rows[k + 1].address == rows[k].address + rows[k].inst.ByteSize())
            && (rows != [] ==> rows[|rows| - 1].address + rows[|rows| - 1].inst.ByteSize() > last)
    decreases last + 1 - address
  {
    if address <= last {
      var inst := InstructionAt(m, address);
      var rest := ListingRows(m, address + inst.ByteSize(), last);
      ListingRowsChain(m, address + inst.ByteSize(), last);
      var rows := ListingRows(m, address, last);
      assert rows == [Row(address, inst)] + rest;
      forall k | 0 <= k < |rows|
        ensures rows[k].address <= last && rows[k].inst == InstructionAt(m, rows[k].address)
      {
        if k > 0 {
          assert rows[k] == rest[k - 1];
        }
      }
      forall k | 0 <= k < |rows| - 1
        ensures rows[k + 1].address == rows[k].address + rows[k].inst.ByteSize()
      {
        assert rows[k + 1] == rest[k];
        if k > 0 {
          assert rows[k] == rest[k - 1];
        }
      }
      if rest != [] {
        assert rows[|rows| - 1] == rest[|rest| - 1];
      }
    }
  }

  /** Every byte in two hex digits, in order. */
  function ByteFields(bytes: seq<UByte>): (fields: seq<string>)
    ensures |fields| == |bytes|
    decreases |bytes|
  {
    if bytes == [] then []
    else ByteFields(bytes[..|bytes| - 1]) + [UBytePrefixedHexString(bytes[|bytes| - 1], 2)]
  }

  /** The fields of a row: the address in four hex digits, then every byte of the instruction
      in two. */
  function RowFields(row: Row): (fields: seq<string>)
    ensures |fields| == 1 + row.inst.ByteSize()
    ensures fields[0] == PrefixedHexString(row.address, 4)
  {
    [PrefixedHexString(row.address, 4)] + ByteFields(row.inst.ToBytes())
  }

  /** Field `k` of the byte fields renders byte `k`. */
  lemma {:induction false} ByteFieldAt(bytes: seq<UByte>, k: nat)
    requires k < |bytes|
    ensures ByteFields(bytes)[k] == UBytePrefixedHexString(bytes[k], 2)
    decreases |bytes|
  {
    if k < |bytes| - 1 {
      var init := bytes[..|bytes| - 1];
      assert init[k] == bytes[k];
      ByteFieldAt(init, k);
    }
  }

  /** A row as printed: its fields separated by single spaces. */
  function RowText(row: Row): string {
    Join(RowFields(row), ' ')
  }

  function RowTexts(rows: seq<Row>): (texts: seq<string>)
    ensures |texts| == |rows|
  {
    seq(|rows|, i requires 0 <= i < |rows| => RowText(rows[i]))
  }

  /** The listing of the window `first..last`: one row per line, no final newline. */
  function HexListing(m: map<int, Instruction>, first: int, last: int): string {
    Join(RowTexts(ListingRows(m, first, last)), '\n')
  }

  /** `buildHexString(instructions)` */
  function HexString(insts: seq<Instruction>, opts: Options): (r: Result<string, ImageError>)
    ensures r.Err? <==> opts.memAuto && insts == []
    ensures r.Err? ==> r.error == EmptyInstructionList
  {
    match GetMemoryRange(insts, opts)
    case Err(e) => Err(e)
    case Ok(w) => Ok(HexListing(AddressMap(insts), w.0, w.1))
  }

  /** `buildHexString(instructions)` as the source runs it: fills the address map, then walks
      the window appending a row per step to a text buffer. */
  method BuildHexString(insts: seq<Instruction>, opts: Options) returns (r: Result<string, ImageError>)
    ensures r == HexString(insts, opts)
  {
    var memRange := GetMemoryRange(insts, opts);
    if memRange.Err? {
      return Err(memRange.error);
    }
    var memoryKeyMap := BuildAddressMap(insts);
    var hexContent := BuildListing(memoryKeyMap, memRange.value.0, memRange.value.1);
    return Ok(hexContent);
  }

  /** The first loop of `buildHexString`: every instruction stored under its address. */
  method BuildAddressMap(insts: seq<Instruction>) returns (memoryKeyMap: map<int, Instruction>)
    ensures memoryKeyMap == AddressMap(insts)
  {
    memoryKeyMap := map[];
    var i := 0;
    while i < |insts|
      invariant 0 <= i <= |insts|
      invariant memoryKeyMap == AddressMap(insts[..i])
    {
      assert insts[..i + 1][..i] == insts[..i];
      memoryKeyMap := memoryKeyMap[insts[i].memoryAddress := insts[i]];
      i := i + 1;
    }
    assert insts[..i] == insts;
  }

  /** The `while` loop of `buildHexString`: a row per step from `first` while the address is
      at most `last`, each ended by a newline, and the final newline dropped. */
  method BuildListing(memoryKeyMap: map<int, Instruction>, first: int, last: int) returns (listing: string)
    ensures listing == HexListing(memoryKeyMap, first, last)
  {
    var hexContent: string := "";
    var address := first;
    ghost var all := ListingRows(memoryKeyMap, first, last);
    ghost var rowsDone: seq<Row> := [];
    while address <= last
      invariant WalkedTo(memoryKeyMap, all, rowsDone, address, last)
      invariant Printed(hexContent, rowsDone)
      decreases last + 1 - address
    {
      var inst := InstructionAt(memoryKeyMap, address);
      var row := Row(address, inst);
      var text := BuildRow(address, inst);
      ListingTextSnoc(hexContent, rowsDone, row, text);
      hexContent := hexContent + text + "\n";
      ListingRowsStep(memoryKeyMap, all, rowsDone, address, last);
      rowsDone := rowsDone + [row];
      address := address + inst.ByteSize();
    }
    ListingDone(memoryKeyMap, first, last, address, rowsDone, hexContent);
    return DropLast(hexContent);
  }

  /** The text of one row as the loop body appends it: address and opcode each followed by a
      space, then every operand followed by a space, then the last space removed. */
  method BuildRow(address: int, inst: Instruction) returns (text: string)
    ensures text == RowText(Row(address, inst))
  {
    ghost var head := PrefixedHexString(address, 4);
    ghost var bytes := inst.ToBytes();
    text := PrefixedHexString(address, 4) + " " + UBytePrefixedHexString(inst.opcode, 2) + " ";
    RowTextHead(head, bytes);
    var j := 0;
    while j < |inst.operands|
      invariant 0 <= j <= |inst.operands|
      invariant text == Terminated([head] + ByteFields(bytes[..j + 1]), ' ')
    {
      RowTextStep(head, bytes, j + 1);
      text := text + UBytePrefixedHexString(inst.operands[j], 2) + " ";
      j := j + 1;
    }
    assert bytes[..j + 1] == bytes;
    TerminatedIsJoinPlusSeparator(RowFields(Row(address, inst)), ' ');
    text := text[..|text| - 1];
  }

  /** The address and opcode fields, each followed by a space, start every row. */
  lemma RowTextHead(head: string, bytes: seq<UByte>)
    requires bytes != []
    ensures Terminated([head] + ByteFields(bytes[..1]), ' ')
            == head + " " + UBytePrefixedHexString(bytes[0], 2) + " "
  {
    var f := UBytePrefixedHexString(bytes[0], 2);
    assert bytes[..1][..0] == [];
    assert ByteFields(bytes[..1]) == [f];
    assert [f][1..] == [];
    assert Terminated([f], ' ') == f + " ";
    assert ([head] + [f])[1..] == [f];
  }

  /** Appending the field of byte `n` to the text of the fields before it. */
  lemma RowTextStep(head: string, bytes: seq<UByte>, n: nat)
    requires n < |bytes|
    ensures Terminated([head] + ByteFields(bytes[..n + 1]), ' ')
            == Terminated([head] + ByteFields(bytes[..n]), ' ') + UBytePrefixedHexString(bytes[n], 2) + " "
  {
    var field := UBytePrefixedHexString(bytes[n], 2);
    assert bytes[..n + 1][..n] == bytes[..n];
    assert ByteFields(bytes[..n + 1]) == ByteFields(bytes[..n]) + [field];
    assert [head] + ByteFields(bytes[..n + 1]) == ([head] + ByteFields(bytes[..n])) + [field];
    TerminatedSnoc([head] + ByteFields(bytes[..n]), field, ' ');
  }

  /** The walk has produced the rows `done` of `all` and continues at `address`. */
  predicate WalkedTo(m: map<int, Instruction>, all: seq<Row>, done: seq<Row>, address: int, last: int) {
    all == done + ListingRows(m, address, last)
  }

  /** One step of the walk moves the row at `address` from the rows ahead to the rows done. */
  lemma ListingRowsStep(m: map<int, Instruction>, all: seq<Row>, done: seq<Row>, address: int, last: int)
    requires address <= last
    requires WalkedTo(m, all, done, address, last)
    ensures WalkedTo(m, all, done + [Row(address, InstructionAt(m, address))],
                     address + InstructionAt(m, address).ByteSize(), last)
  {
    var inst := InstructionAt(m, address);
    var rest := ListingRows(m, address + inst.ByteSize(), last);
    ListingRowsUnfold(m, address, last);
    ConcatAssoc(done, [Row(address, inst)], rest);
  }

  /** The walk's first row, then the walk from the address after it. */
  lemma ListingRowsUnfold(m: map<int, Instruction>, address: int, last: int)
    requires address <= last
    ensures ListingRows(m, address, last)
            == [Row(address, InstructionAt(m, address))]
               + ListingRows(m, address + InstructionAt(m, address).ByteSize(), last)
  {
  }

  /** Once the walk has passed `last`, the rows done are the whole listing. */
  lemma ListingDone(m: map<int, Instruction>, first: int, last: int, address: int, rows: seq<Row>, content: string)
    requires address > last
    requires WalkedTo(m, ListingRows(m, first, last), rows, address, last)
    requires Printed(content, rows)
    ensures DropLast(content) == HexListing(m, first, last)
  {
    assert rows + [] == rows;
    DropLastTerminated(RowTexts(rows), '\n');
  }

  /** `content` holds the texts of `rows`, each followed by a newline. */
  predicate Printed(content: string, rows: seq<Row>) {
    content == Terminated(RowTexts(rows), '\n')
  }

  /** Appending a row to the listing appends its text and a newline. */
  lemma ListingTextSnoc(content: string, rows: seq<Row>, row: Row, text: string)
    requires Printed(content, rows) && text == RowText(row)
    ensures Printed(content + text + "\n", rows + [row])
  {
    RowsSnoc(rows, row);
    TerminatedSnoc(RowTexts(rows), RowText(row), '\n');
  }

  lemma RowsSnoc(rows: seq<Row>, row: Row)
    ensures RowTexts(rows + [row]) == RowTexts(rows) + [RowText(row)]
  {
  }

  /** Gaps in the map are shown as one-byte NOPs at their own address. */
  lemma GapRowsAreNops(m: map<int, Instruction>, address: int)
    requires address !in m
    ensures InstructionAt(m, address).ToBytes() == [0x00]
    ensures InstructionAt(m, address).memoryAddress == address
  {
  }

  /** When two instructions share an address, the later one is shown. */
  lemma {:induction false} AddressMapLastWins(insts: seq<Instruction>, i: nat)
    requires i < |insts|
    requires forall j :: i < j < |insts| ==> insts[j].memoryAddress != insts[i].memoryAddress
    ensures insts[i].memoryAddress in AddressMap(insts)
    ensures AddressMap(insts)[insts[i].memoryAddress] == insts[i]
    decreases |insts|
  {
    var init := insts[..|insts| - 1];
    if i < |insts| - 1 {
      assert forall j :: i < j < |init| ==> init[j] == insts[j];
      assert init[i] == insts[i];
      AddressMapLastWins(init, i);
    }
  }

  /** Every entry of the map is one of the instructions, under its own address. */
  lemma {:induction false} AddressMapEntries(insts: seq<Instruction>, address: int)
    requires address in AddressMap(insts)
    ensures AddressMap(insts)[address].memoryAddress == address
    ensures exists i :: 0 <= i < |insts| && insts[i] == AddressMap(insts)[address]
    decreases |insts|
  {
    var init := insts[..|insts| - 1];
    if insts[|insts| - 1].memoryAddress != address {
      AddressMapEntries(init, address);
      var i :| 0 <= i < |init| && init[i] == AddressMap(init)[address];
      assert insts[i] == init[i];
    }
  }

  /** No row text contains a newline or spans a space inside a field: the listing splits back
      into its rows at '\n', and each row into its fields at ' '. */
  lemma ListingSplits(m: map<int, Instruction>, first: int, last: int)
    requires first <= last
    ensures Split(HexListing(m, first, last), '\n') == RowTexts(ListingRows(m, first, last))
    ensures forall k :: 0 <= k < |ListingRows(m, first, last)| ==>
              Split(RowTexts(ListingRows(m, first, last))[k], ' ') == RowFields(ListingRows(m, first, last)[k])
  {
    var rows := ListingRows(m, first, last);
    var texts := RowTexts(rows);
    forall k | 0 <= k < |rows|
      ensures '\n' !in texts[k]
      ensures Split(texts[k], ' ') == RowFields(rows[k])
    {
      RowSplits(rows[k]);
    }
    SplitJoin(texts, '\n');
  }

  /** A row's text holds no newline, and splits back into its fields at ' '. */
  lemma RowSplits(row: Row)
    ensures '\n' !in RowText(row)
    ensures Split(RowText(row), ' ') == RowFields(row)
  {
    var fields := RowFields(row);
    var bytes := row.inst.ToBytes();
    forall k | 0 <= k < |fields|
      ensures ' ' !in fields[k] && '\n' !in fields[k]
    {
      if k == 0 {
        AddressFieldChars(row.address);
      } else {
        ByteFieldAt(bytes, k - 1);
        assert fields[k] == ByteFields(bytes)[k - 1];
        ByteFieldChars(bytes[k - 1]);
      }
    }
    SplitJoin(fields, ' ');
    JoinAvoids(fields, ' ', '\n');
  }

  /** An address field holds zeros, an optional minus sign and hex digits. */
  lemma AddressFieldChars(address: int)
    ensures ' ' !in PrefixedHexString(address, 4) && '\n' !in PrefixedHexString(address, 4)
  {
    var d := IntToHex(address);
    assert forall i :: 0 <= i < |d| ==> d[i] == '-' || IsLowerHexChar(d[i]) by {
      if address < 0 {
        var m := NatToHex(-address);
        assert forall i :: 1 <= i < |d| ==> d[i] == m[i - 1];
      }
    }
    PaddedFieldChars(PrefixedHexString(address, 4), d);
  }

  /** A byte field holds hex digits only. */
  lemma ByteFieldChars(b: UByte)
    ensures ' ' !in UBytePrefixedHexString(b, 2) && '\n' !in UBytePrefixedHexString(b, 2)
  {
    PaddedFieldChars(UBytePrefixedHexString(b, 2), NatToHex(b));
  }

  /** A text made of '0's followed by hex digits and minus signs has no space or newline. */
  lemma PaddedFieldChars(s: string, d: string)
    requires |d| <= |s| && s[|s| - |d|..] == d
    requires forall i :: 0 <= i < |s| - |d| ==> s[i] == '0'
    requires forall i :: 0 <= i < |d| ==> d[i] == '-' || IsLowerHexChar(d[i])
    ensures ' ' !in s && '\n' !in s
  {
    var pad := |s| - |d|;
    forall i | pad <= i < |s| ensures s[i] == d[i - pad] {
      assert s[pad..][i - pad] == s[i];
    }
  }
}
