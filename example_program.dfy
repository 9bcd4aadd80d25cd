/** A whole `parseContent` run on a small program: a label, an instruction with a byte operand,
    a jump back to the label and an instruction without operands, against a four-variation
    catalog. */
module ExampleProgram {

  import opened Wrappers
  import opened KotlinStrings
  import opened KotlinNumbers
  import opened Errors
  import opened Instructions
  import opened AsmInstructions
  import opened InstructionRegistry
  import opened AsmParser
  import opened ParserLemmas
  import Profi5E

  /** LD A,KO -> 0x3E; LD A,B -> 0x78; JMP ADR -> 0xC3; HLT -> 0x76. */
  function SmallCatalog(): Catalog {
    map["LD" := AsmInstruction("LD", [AsmVariation([A, KO], 0x3E), AsmVariation([A, B], 0x78)]),
        "JMP" := AsmInstruction("JMP", [AsmVariation([ADR], 0xC3)]),
        "HLT" := AsmInstruction("HLT", [AsmVariation([], 0x76)])]
  }

  const Source: string := "@start\nLD A,0A\nJMP @start\nHLT"

  const Lines: seq<string> := ["@start", "LD A,0A", "JMP @start", "HLT"]

  const Start: Labels := map["start" := 0x8000]

  /** The program as the assembler emits it: `3E 0A` at 0x8000, `C3 00 80` at 0x8002 and
      `76` at 0x8005. */
  const Program: seq<Instruction> :=
    [Instruction(0x3E, [0x0A], 0x8000), Instruction(0xC3, [0x00, 0x80], 0x8002), Instruction(0x76, [], 0x8005)]

  /** The text splits into its four lines. */
  lemma SplitSource()
    ensures Split(Source, '\n') == Lines
  {
    JoinLines();
    NoNewlines();
    SplitJoin(Lines, '\n');
  }

  lemma JoinLines()
    ensures Join(Lines, '\n') == Source
  {
    assert Join(Lines[3..], '\n') == "HLT";
    assert Join(Lines[2..], '\n') == "JMP @start\nHLT";
    assert Join(Lines[1..], '\n') == "LD A,0A\nJMP @start\nHLT";
  }

  lemma NoNewlines()
    ensures forall k | 0 <= k < |Lines| :: '\n' !in Lines[k]
  {
  }

  /** A line that neither starts with ';' nor holds one nor is blank. */
  predicate Plain(line: string) {
    line != [] && line[0] != ';' && !IsWhitespace(line[0]) && ';' !in line
  }

  /** A plain line is kept whole. */
  lemma KeptWhole(line: string)
    requires Plain(line)
    ensures SourceLines([line]) == [line]
  {
    assert !StartsWith(line, ";");
    assert [line][1..] == [];
  }

  /** All four lines are source lines without comments. */
  lemma SourceLinesOfExample()
    ensures SourceLines(Lines) == Lines
  {
    KeptFour("@start", "LD A,0A", "JMP @start", "HLT");
    FourLines();
  }

  /** Four plain lines are kept whole. */
  lemma KeptFour(a: string, b: string, c: string, d: string)
    requires Plain(a) && Plain(b) && Plain(c) && Plain(d)
    ensures SourceLines([a] + ([b] + ([c] + ([d] + [])))) == [a] + ([b] + ([c] + ([d] + [])))
  {
    KeptWhole(a);
    KeptWhole(b);
    KeptWhole(c);
    KeptWhole(d);
    assert [d] + [] == [d];
    SourceLinesConcat([c], [d]);
    SourceLinesConcat([b], [c] + [d]);
    SourceLinesConcat([a], [b] + ([c] + [d]));
  }

  // ---------------------------------------------------------------------------------------
  // The instruction line "LD A,0A"

  /** A text without the separator is one piece. */
  lemma SplitWhole(s: string, c: char)
    requires c !in s
    ensures Split(s, c) == [s]
  {
  }

  /** Two separator-free pieces joined by the separator split back into them. */
  lemma SplitTwo(x: string, y: string, c: char)
    requires c !in x && c !in y
    ensures Split(x + [c] + y, c) == [x, y]
  {
    assert Join([x, y], c) == x + [c] + Join([x, y][1..], c);
    assert [x, y][1..] == [y];
    SplitJoin([x, y], c);
  }

  /** No label of `Start` occurs in a text shorter than "start". */
  lemma NoMention(field: string)
    requires |field| < 5
    ensures SubstituteLabel(Start, field) == Ok(field)
  {
    ContainsAt(field, "start");
    assert !MentionsLabel(Start, field);
  }

  lemma LdTokens()
    ensures Mnemonic("LD A,0A") == "LD" && OperandField("LD A,0A") == "A,0A"
    ensures OperandTokens("A,0A") == ["A", "0A"]
  {
    LdSplits();
  }

  /** The line splits at ' ' into mnemonic and operand field, the field at ',' into two tokens. */
  lemma LdSplits()
    ensures Split("LD A,0A", ' ') == ["LD", "A,0A"]
    ensures Split("A,0A", ',') == ["A", "0A"]
  {
    SplitTwo("LD", "A,0A", ' ');
    assert "LD" + [' '] + "A,0A" == "LD A,0A";
    SplitTwo("A", "0A", ',');
    assert "A" + [','] + "0A" == "A,0A";
  }

  /** "0A" names no operand kind, so it fills a user slot. */
  lemma ByteTokenIsUserValue()
    ensures FromString("0A") == None
  {
    assert Upper("0A") == "0A";
    assert |"INDEX_" + "0A"| == 8;
  }

  lemma LdVariation()
    ensures SmallCatalog()["LD"].GetVariation(["A", "0A"]) == Ok(AsmVariation([A, KO], 0x3E))
  {
    assert Upper("A") == "A";
    ByteTokenIsUserValue();
    assert AsmVariation([A, KO], 0x3E).Accepts(["A", "0A"]);
  }

  lemma LdOperands()
    ensures EncodeOperands(AsmVariation([A, KO], 0x3E), ["A", "0A"]) == Ok([0x0A])
  {
    var v := AsmVariation([A, KO], 0x3E);
    assert IsUserKind(v.args[1]);
    assert v.GetUserArgumentIndex() == 1;
    assert v.GetUserArgument() == Some(KO);
    assert HexValue("0A") == 10 by {
      assert "0A"[..1] == "0";
    }
  }

  // ---------------------------------------------------------------------------------------
  // The instruction line "JMP @start"

  lemma JmpFields()
    ensures Split("JMP @start", ' ') == ["JMP", "@start"]
  {
    SplitTwo("JMP", "@start", ' ');
    assert "JMP" + [' '] + "@start" == "JMP @start";
  }

  /** The reference is replaced by the label's address, one operand token "8000". */
  lemma JmpTokens()
    ensures Mnemonic("JMP @start") == "JMP" && OperandField("JMP @start") == "@start"
    ensures SubstituteLabel(Start, "@start") == Ok("8000")
    ensures OperandTokens("8000") == ["8000"]
  {
    JmpFields();
    ResolveExample();
    JmpArgs();
  }

  lemma JmpArgs()
    ensures OperandTokens("8000") == ["8000"]
  {
    SplitWhole("8000", ',');
    assert !IsWhitespace("8000"[0]);
  }

  /** "8000" names no operand kind, so it fills a user slot. */
  lemma AddressTokenIsUserValue()
    ensures FromString("8000") == None
  {
    assert Upper("8000") == "8000";
    assert |"INDEX_" + "8000"| == 10;
  }

  lemma JmpVariation()
    ensures SmallCatalog()["JMP"].GetVariation(["8000"]) == Ok(AsmVariation([ADR], 0xC3))
  {
    AddressTokenIsUserValue();
    assert AsmVariation([ADR], 0xC3).Accepts(["8000"]);
  }

  /** 0x8000 is encoded low byte first. */
  lemma JmpOperands()
    ensures EncodeOperands(AsmVariation([ADR], 0xC3), ["8000"]) == Ok([0x00, 0x80])
  {
    var v := AsmVariation([ADR], 0xC3);
    assert IsUserKind(v.args[0]);
    assert v.GetUserArgumentIndex() == 0;
    assert v.GetUserArgument() == Some(ADR);
    assert HexValue("8000") == 0x8000 by {
      assert "8000"[..3] == "800" && "800"[..2] == "80" && "80"[..1] == "8";
    }
  }

  // ---------------------------------------------------------------------------------------
  // The instruction line "HLT"

  lemma HltTokens()
    ensures Mnemonic("HLT") == "HLT" && OperandField("HLT") == ""
    ensures SubstituteLabel(Start, "") == Ok("")
    ensures OperandTokens("") == []
  {
    SplitWhole("HLT", ' ');
    NoMention("");
    SplitWhole("", ',');
  }

  lemma HltVariation()
    ensures SmallCatalog()["HLT"].GetVariation([]) == Ok(AsmVariation([], 0x76))
  {
    assert AsmVariation([], 0x76).Accepts([]);
  }

  // ---------------------------------------------------------------------------------------
  // The passes

  lemma LabelStep()
    ensures ParseLineSpec(SmallCatalog(), Start, 0x8000, "@start") == Ok(LineEffect(Start, 0x8000, None))
  {
    LabelLine(SmallCatalog(), Start, 0x8000, "@start");
    assert "@start"[1..] == "start";
    assert Start["start" := 0x8000] == Start;
  }

  /** `parseContent` on the text from a fresh parser (no labels, cursor and line counters at
      their start values): pass 1 binds `start` to 0x8000, pass 2 yields `3E 0A`, `C3 00 80`
      and `76` at 0x8000, 0x8002 and 0x8005, and four lines are counted. */
  lemma ContentOfExample()
    ensures ParseContentSpec(SmallCatalog(), Source, map[], 0x8000, 0, 0)
            == ContentOutcome(Ok(Program), Start, 0x8006, 4)
  {
    SplitSource();
    SourceLinesOfExample();
    PlaceholdersOfExample();
    PassOverExample();
  }

  /** Pass 1 seeds `start` with the cursor it starts from. */
  lemma PlaceholdersOfExample()
    ensures Placeholders(map[], 0x8000, Lines) == Start
  {
    var rest := ["LD A,0A"] + (["JMP @start"] + (["HLT"] + []));
    FourLines();
    PlaceholderCons(map[], "@start", rest);
    assert "@start"[1..] == "start";
    PlaceholderCons(Start, "LD A,0A", ["JMP @start"] + (["HLT"] + []));
    PlaceholderCons(Start, "JMP @start", ["HLT"] + []);
    PlaceholderCons(Start, "HLT", []);
    assert map[]["start" := 0x8000] == Start;
    assert "LD A,0A"[0] == 'L' && "JMP @start"[0] == 'J' && "HLT"[0] == 'H';
  }

  /** Pass 1 over a line and the lines after it, from 0x8000. */
  lemma PlaceholderCons(labels: Labels, line: string, rest: seq<string>)
    ensures Placeholders(labels, 0x8000, [line] + rest)
            == Placeholders(if StartsWith(line, "@") then labels[line[1..] := 0x8000] else labels, 0x8000, rest)
  {
    assert ([line] + rest)[0] == line && ([line] + rest)[1..] == rest;
  }

  /** With no memory options the program goes into the default window from its first byte:
      the buffer starts `3E 0A C3 00 80 76` and is zero after them, with nothing out of range. */
  lemma ImageOfExample()
    ensures Profi5E.GetMemoryRange(Program, Profi5E.Options(None, None, None, false)) == Ok((0x8000, 0x87FF))
    ensures Profi5E.Flatten(Program) == [0x3E, 0x0A, 0xC3, 0x00, 0x80, 0x76]
    ensures var image := Profi5E.PlacedImage(Profi5E.Flatten(Program), 0, 0x800);
            image[..6] == Profi5E.Flatten(Program) && forall k :: 6 <= k < 0x800 ==> image[k] == 0
    ensures Profi5E.WrittenCount(0, 0x800, 6) == 6
  {
    Profi5E.DefaultWindow(Program);
    ProgramBytes();
    Profi5E.ImageLayout(Profi5E.Flatten(Program), 0, 0x800);
  }

  lemma ProgramBytes()
    ensures Profi5E.Flatten(Program) == [0x3E, 0x0A, 0xC3, 0x00, 0x80, 0x76]
  {
    assert Program[..2][..1] == [Program[0]] && Program[..2] == [Program[0], Program[1]];
    assert Profi5E.Flatten(Program[..1]) == [0x3E, 0x0A];
    assert Profi5E.Flatten(Program[..2]) == [0x3E, 0x0A, 0xC3, 0x00, 0x80];
  }

  /** One pass over the four lines from 0x8000 with `start` bound: the three instructions back
      to back, the cursor after the last one and the labels as they were. */
  lemma PassOverExample()
    ensures RunPass(SmallCatalog(), Start, 0x8000, Lines) == PassOutcome(Start, 0x8006, Program, None)
  {
    PassFromLabel();
    FourLines();
    ThreeInstructions();
  }

  lemma PassFromLabel()
    ensures RunPass(SmallCatalog(), Start, 0x8000, ["@start"] + (["LD A,0A"] + (["JMP @start"] + (["HLT"] + []))))
            == PassOutcome(Start, 0x8006, [] + ([Program[0]] + ([Program[1]] + ([Program[2]] + []))), None)
  {
    LabelStep();
    PassFromLd();
    PassCons(SmallCatalog(), Start, 0x8000, "@start", ["LD A,0A"] + (["JMP @start"] + (["HLT"] + [])),
             LineEffect(Start, 0x8000, None),
             PassOutcome(Start, 0x8006, [Program[0]] + ([Program[1]] + ([Program[2]] + [])), None));
  }

  lemma PassFromLd()
    ensures RunPass(SmallCatalog(), Start, 0x8000, ["LD A,0A"] + (["JMP @start"] + (["HLT"] + [])))
            == PassOutcome(Start, 0x8006, [Program[0]] + ([Program[1]] + ([Program[2]] + [])), None)
  {
    LdStep();
    PassFromJmp();
    PassCons(SmallCatalog(), Start, 0x8000, "LD A,0A", ["JMP @start"] + (["HLT"] + []),
             LineEffect(Start, 0x8002, Some(Program[0])),
             PassOutcome(Start, 0x8006, [Program[1]] + ([Program[2]] + []), None));
  }

  lemma PassFromJmp()
    ensures RunPass(SmallCatalog(), Start, 0x8002, ["JMP @start"] + (["HLT"] + []))
            == PassOutcome(Start, 0x8006, [Program[1]] + ([Program[2]] + []), None)
  {
    JmpStep();
    PassFromHlt();
    PassCons(SmallCatalog(), Start, 0x8002, "JMP @start", ["HLT"] + [],
             LineEffect(Start, 0x8005, Some(Program[1])), PassOutcome(Start, 0x8006, [Program[2]] + [], None));
  }

  lemma PassFromHlt()
    ensures RunPass(SmallCatalog(), Start, 0x8005, ["HLT"] + []) == PassOutcome(Start, 0x8006, [Program[2]] + [], None)
  {
    HltStep();
    PassEmpty(SmallCatalog(), Start, 0x8006);
    PassCons(SmallCatalog(), Start, 0x8005, "HLT", [], LineEffect(Start, 0x8006, Some(Program[2])),
             PassOutcome(Start, 0x8006, [], None));
  }

  lemma FourLines()
    ensures Lines == ["@start"] + (["LD A,0A"] + (["JMP @start"] + (["HLT"] + [])))
  {
  }

  lemma ThreeInstructions()
    ensures Program == [] + ([Program[0]] + ([Program[1]] + ([Program[2]] + [])))
  {
  }

  lemma LdStep()
    ensures ParseLineSpec(SmallCatalog(), Start, 0x8000, "LD A,0A") == Ok(LineEffect(Start, 0x8002, Some(Program[0])))
  {
    LdTokens();
    NoMention("A,0A");
    LdVariation();
    LdOperands();
    LineCases(SmallCatalog(), Start, 0x8000, "LD A,0A");
  }

  lemma JmpStep()
    ensures ParseLineSpec(SmallCatalog(), Start, 0x8002, "JMP @start") == Ok(LineEffect(Start, 0x8005, Some(Program[1])))
  {
    JmpTokens();
    JmpVariation();
    JmpOperands();
    LineCases(SmallCatalog(), Start, 0x8002, "JMP @start");
  }

  lemma HltStep()
    ensures ParseLineSpec(SmallCatalog(), Start, 0x8005, "HLT") == Ok(LineEffect(Start, 0x8006, Some(Program[2])))
  {
    HltTokens();
    HltVariation();
    LineCases(SmallCatalog(), Start, 0x8005, "HLT");
  }

  /** A pass over a line that succeeds with `eff`, followed by the pass over the lines after
      it from where that line left off. */
  lemma PassCons(catalog: Catalog, labels: Labels, address: int, line: string, rest: seq<string>,
                 eff: LineEffect, tail: PassOutcome)
    requires ParseLineSpec(catalog, labels, address, line) == Ok(eff)
    requires RunPass(catalog, eff.labels, eff.address, rest) == tail
    ensures RunPass(catalog, labels, address, [line] + rest) == Prepend(Emitted(eff.emitted), tail)
  {
    assert ([line] + rest)[0] == line && ([line] + rest)[1..] == rest;
  }

  /** A pass over no lines ends where it started. */
  lemma PassEmpty(catalog: Catalog, labels: Labels, address: int)
    ensures RunPass(catalog, labels, address, []) == PassOutcome(labels, address, [], None)
  {
  }
}
