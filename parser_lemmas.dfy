/** Properties of the two-pass assembler of `Parser.kt`: how label references are resolved,
    which addresses the labels hold when each pass reaches a line, and where the emitted
    instructions are placed. */
module ParserLemmas {

  import opened Wrappers
  import opened KotlinStrings
  import opened KotlinNumbers
  import opened Errors
  import opened Instructions
  import opened InstructionRegistry
  import opened AsmParser

  // ---------------------------------------------------------------------------------------
  // Label substitution

  /** `replace` on a text whose only occurrence of the pattern is at its end. */
  lemma {:induction false} ReplaceAtEnd(p: string, pat: string, rep: string)
    requires pat != [] && pat[0] !in p
    ensures ReplaceAll(p + pat, pat, rep) == p + rep
    decreases |p|
  {
    var s := p + pat;
    if p == [] {
      assert s == pat;
      assert ReplaceAll(s[|pat|..], pat, rep) == [] by {
        assert s[|pat|..] == [];
      }
      assert ReplaceAll(s, pat, rep) == rep + ReplaceAll(s[|pat|..], pat, rep);
    } else {
      assert s[0] == p[0];
      assert !(pat <= s) by {
        assert s[0] != pat[0];
      }
      assert ReplaceAll(s, pat, rep) == [s[0]] + ReplaceAll(s[1..], pat, rep);
      assert s[1..] == p[1..] + pat;
      ReplaceAtEnd(p[1..], pat, rep);
      assert p == [p[0]] + p[1..];
    }
  }

  /** A reference "@name" after operand text without '@' is replaced by the label's address
      in unpadded lower-case hex. */
  lemma ReferenceResolves(labels: Labels, p: string, name: string)
    requires '@' !in p && ' ' !in name && name in labels
    ensures SubstituteLabel(labels, p + "@" + name) == Ok(p + IntToHex(labels[name]))
  {
    var token1 := p + "@" + name;
    assert token1[|p|] == '@';
    assert token1[|p| + 1..] == name;
    assert MentionsLabel(labels, token1) by {
      assert name <= token1[|p| + 1..];
      ContainsAt(token1, name);
    }
    assert token1[..|p|] == p;
    assert IndexOf(token1, '@') == |p|;
    assert Split(name, ' ') == [name];
    assert ReferencedLabel(token1) == name;
    assert token1 == p + ("@" + name);
    ReplaceAtEnd(p, "@" + name, IntToHex(labels[name]));
  }

  /** A label at 0x8000 referenced as "@start" becomes "8000". */
  lemma ResolveExample()
    ensures SubstituteLabel(map["start" := 0x8000], "@start") == Ok("8000")
  {
    assert HexChar(8) == '8' && HexChar(0) == '0';
    assert NatToHex(8) == "8";
    assert NatToHex(0x80) == "80";
    assert NatToHex(0x800) == "800";
    assert NatToHex(0x8000) == "8000";
    assert IntToHex(0x8000) == "8000";
    assert "" + "@" + "start" == "@start";
    var labels := map["start" := 0x8000];
    ReferenceResolves(labels, "", "start");
    assert labels["start"] == 0x8000;
    assert "" + IntToHex(0x8000) == "8000";
  }

  /** Substitution is triggered by any label name occurring in the operand field, '@' or not:
      with a label "A", the field "A,B" is read as a reference to the label "A,B", which does
      not exist. */
  lemma MentionWithoutAtExample()
    ensures SubstituteLabel(map["A" := 0x8000], "A,B") == Err(LabelNotFound("A,B"))
  {
    var labels := map["A" := 0x8000];
    var token1 := "A,B";
    assert Contains(token1, "A");
    assert "A" in labels;
    assert MentionsLabel(labels, token1);
    assert IndexOf(token1, '@') == -1;
    assert token1[0..] == token1;
    assert IndexOf(token1, ' ') == -1;
    assert ReferencedLabel(token1) == token1;
  }

  // ---------------------------------------------------------------------------------------
  // Source lines

  /** Comment lines and blank lines are dropped; other lines lose their comment, and a line
      that is blank only once its comment is gone is kept. */
  lemma SourceLinesExample()
    ensures SourceLines([";only a comment", "", "  ;note"]) == ["  "]
  {
    var all := [";only a comment", "", "  ;note"];
    DroppedLines();
    KeptLine();
    assert all[1..][1..] == all[2..] && all[2..][1..] == [];
    assert SourceLines(all[2..][1..]) == [];
    assert SourceLines(all[2..]) == ["  "];
    assert SourceLines(all[1..]) == ["  "];
  }

  /** One line on its own: kept with its comment stripped when it is a source line, dropped
      otherwise. */
  lemma SourceLinesOne(line: string)
    ensures SourceLines([line]) == if IsSourceLine(line) then [StripComment(line)] else []
  {
    assert [line][1..] == [];
  }

  /** The filter works line by line: the source lines of two texts in sequence are those of
      the first followed by those of the second. */
  lemma {:induction false} SourceLinesConcat(xs: seq<string>, ys: seq<string>)
    ensures SourceLines(xs + ys) == SourceLines(xs) + SourceLines(ys)
    decreases |xs|
  {
    if xs == [] {
      assert xs + ys == ys;
    } else {
      var head := if IsSourceLine(xs[0]) then [StripComment(xs[0])] else [];
      assert (xs + ys)[0] == xs[0] && (xs + ys)[1..] == xs[1..] + ys;
      SourceLinesConcat(xs[1..], ys);
      ConcatAssoc(head, SourceLines(xs[1..]), SourceLines(ys));
    }
  }

  /** A comment line and an empty line are not source lines. */
  lemma DroppedLines()
    ensures !IsSourceLine(";only a comment") && !IsSourceLine("")
  {
    assert StartsWith(";only a comment", ";");
  }

  /** "  ;note" is a source line: not a comment line and not blank, because of the ';'. Its
      stripped form is the two leading spaces. */
  lemma KeptLine()
    ensures IsSourceLine("  ;note") && StripComment("  ;note") == "  "
  {
    KeptLineIsSource();
    KeptLineStripped();
  }

  lemma KeptLineIsSource()
    ensures IsSourceLine("  ;note")
  {
    var kept := "  ;note";
    assert kept[2] == ';' && !IsWhitespace(kept[2]);
    assert kept[0] != ';';
  }

  lemma KeptLineStripped()
    ensures StripComment("  ;note") == "  "
  {
    var kept := "  ;note";
    NoteCommentStart();
    assert kept[..2] == "  ";
  }

  /** The comment of "  ;note" starts at position 2. */
  lemma NoteCommentStart()
    ensures IndexOf("  ;note", ';') == 2
  {
    var kept := "  ;note";
    assert kept[1..][1..] == ";note";
    assert IndexOf(";note", ';') == 0;
    assert IndexOf(kept[1..], ';') == 1;
  }

  // ---------------------------------------------------------------------------------------
  // Labels during a pass

  /** Label `name` is defined by one of `lines`. */
  predicate DefinedIn(lines: seq<string>, name: string) {
    exists k :: 0 <= k < |lines| && DefinesLabel(lines[k], name)
  }

  lemma DefinedInCons(lines: seq<string>, name: string)
    requires lines != []
    ensures DefinedIn(lines, name) <==> DefinesLabel(lines[0], name) || DefinedIn(lines[1..], name)
  {
    if DefinedIn(lines, name) {
      var k :| 0 <= k < |lines| && DefinesLabel(lines[k], name);
      if k > 0 {
        assert lines[1..][k - 1] == lines[k];
      }
    }
    if DefinedIn(lines[1..], name) {
      var k :| 0 <= k < |lines[1..]| && DefinesLabel(lines[1..][k], name);
      assert lines[k + 1] == lines[1..][k];
    }
  }

  /** The placeholder stage binds every label the lines define to the cursor, and nothing
      else. */
  lemma {:induction false} PlaceholdersSeed(labels: Labels, address: int, lines: seq<string>, name: string)
    ensures var seeded := Placeholders(labels, address, lines);
              (name in seeded <==> name in labels || DefinedIn(lines, name))
              && (DefinedIn(lines, name) ==> seeded[name] == address)
              && (!DefinedIn(lines, name) && name in labels ==> seeded[name] == labels[name])
    decreases |lines|
  {
    if lines != [] {
      var first := if StartsWith(lines[0], "@") then labels[lines[0][1..] := address] else labels;
      PlaceholdersSeed(first, address, lines[1..], name);
      DefinedInCons(lines, name);
    }
  }

  /** A pass changes a label only at the lines defining it. */
  lemma {:induction false} RunPassLabelsFrame(catalog: Catalog, labels: Labels, address: int,
                                              lines: seq<string>, name: string)
    requires !DefinedIn(lines, name)
    ensures var o := RunPass(catalog, labels, address, lines);
              (name in o.labels <==> name in labels) && (name in labels ==> o.labels[name] == labels[name])
    decreases |lines|
  {
    if lines != [] {
      DefinedInCons(lines, name);
      var step := ParseLineSpec(catalog, labels, address, lines[0]);
      if step.Ok? {
        var eff := step.value;
        if StartsWith(lines[0], "@") {
          LabelLine(catalog, labels, address, lines[0]);
        } else {
          LineLabelsFrame(catalog, labels, address, lines[0]);
        }
        RunPassLabelsFrame(catalog, eff.labels, eff.address, lines[1..], name);
        assert RunPass(catalog, labels, address, lines).labels
               == RunPass(catalog, eff.labels, eff.address, lines[1..]).labels;
      }
    }
  }

  /** A pass over `xs + ys` is the pass over `xs` followed, unless it failed, by the pass over
      `ys` from the labels and cursor it left. */
  lemma {:induction false} RunPassAppend(catalog: Catalog, labels: Labels, address: int,
                                         xs: seq<string>, ys: seq<string>)
    ensures var o := RunPass(catalog, labels, address, xs);
              RunPass(catalog, labels, address, xs + ys)
              == if o.failure.Some? then o else Prepend(o.emitted, RunPass(catalog, o.labels, o.address, ys))
    decreases |xs|
  {
    if xs == [] {
      assert xs + ys == ys;
    } else {
      var zs := xs + ys;
      assert zs[0] == xs[0] && zs[1..] == xs[1..] + ys;
      var step := ParseLineSpec(catalog, labels, address, xs[0]);
      if step.Ok? {
        var eff := step.value;
        var front := Emitted(eff.emitted);
        var o := RunPass(catalog, eff.labels, eff.address, xs[1..]);
        assert RunPass(catalog, labels, address, xs) == Prepend(front, o);
        assert RunPass(catalog, labels, address, zs)
               == Prepend(front, RunPass(catalog, eff.labels, eff.address, xs[1..] + ys));
        RunPassAppend(catalog, eff.labels, eff.address, xs[1..], ys);
        if o.failure.None? {
          ConcatAssoc(front, o.emitted, RunPass(catalog, o.labels, o.address, ys).emitted);
        }
      }
    }
  }

  /** A forward reference in pass 1 sees the placeholder: when line `i` is reached, a label
      defined only at or after line `i` still holds the address the pass started from. */
  lemma ForwardReferenceSeesPlaceholder(catalog: Catalog, labels: Labels, reset: int,
                                        lines: seq<string>, i: nat, name: string)
    requires i <= |lines|
    requires DefinedIn(lines[i..], name) && !DefinedIn(lines[..i], name)
    ensures var o := RunPass(catalog, Placeholders(labels, reset, lines), reset, lines[..i]);
              name in o.labels && o.labels[name] == reset
  {
    var k :| 0 <= k < |lines[i..]| && DefinesLabel(lines[i..][k], name);
    assert lines[i + k] == lines[i..][k];
    assert DefinedIn(lines, name);
    PlaceholdersSeed(labels, reset, lines, name);
    RunPassLabelsFrame(catalog, Placeholders(labels, reset, lines), reset, lines[..i], name);
  }

  /** After a pass that does not fail, a label holds the cursor at its last defining line:
      this is the table pass 2 starts from. */
  lemma LastDefinitionWins(catalog: Catalog, labels: Labels, address: int,
                           lines: seq<string>, k: nat, name: string)
    requires k < |lines| && DefinesLabel(lines[k], name) && !DefinedIn(lines[k + 1..], name)
    requires RunPass(catalog, labels, address, lines).failure.None?
    ensures var o := RunPass(catalog, labels, address, lines);
              name in o.labels && o.labels[name] == RunPass(catalog, labels, address, lines[..k]).address
  {
    var xs, ys := lines[..k], lines[k..];
    assert lines == xs + ys;
    RunPassAppend(catalog, labels, address, xs, ys);
    var o := RunPass(catalog, labels, address, xs);
    assert o.failure.None?;
    assert ys[0] == lines[k] && ys[1..] == lines[k + 1..];
    LabelLine(catalog, o.labels, o.address, ys[0]);
    var eff := ParseLineSpec(catalog, o.labels, o.address, ys[0]).value;
    RunPassLabelsFrame(catalog, eff.labels, eff.address, ys[1..], name);
  }

  // ---------------------------------------------------------------------------------------
  // Placement of the emitted instructions

  /** The instructions follow each other without gaps from `start`. */
  predicate Contiguous(insts: seq<Instruction>, start: int) {
    (|insts| > 0 ==> insts[0].memoryAddress == start)
    && forall k :: 0 <= k < |insts| - 1 ==>
         insts[k + 1].memoryAddress == insts[k].memoryAddress + insts[k].ByteSize()
  }

  predicate NoDirectives(lines: seq<string>) {
    forall k :: 0 <= k < |lines| ==> !IsDirective(lines[k])
  }

  /** The bytes the instructions occupy. */
  function TotalSize(insts: seq<Instruction>): nat
    decreases |insts|
  {
    if insts == [] then 0 else insts[0].ByteSize() + TotalSize(insts[1..])
  }

  /** Without address directives, a pass places its instructions back to back from the cursor
      it starts at and ends just past the last of them (also when it stops at a failing line). */
  lemma {:induction false} RunPassContiguous(catalog: Catalog, labels: Labels, address: int, lines: seq<string>)
    requires NoDirectives(lines)
    ensures var o := RunPass(catalog, labels, address, lines);
              Contiguous(o.emitted, address) && o.address == address + TotalSize(o.emitted)
    decreases |lines|
  {
    if lines != [] {
      var step := ParseLineSpec(catalog, labels, address, lines[0]);
      if step.Ok? {
        var eff := step.value;
        var rest := RunPass(catalog, eff.labels, eff.address, lines[1..]);
        assert RunPass(catalog, labels, address, lines) == Prepend(Emitted(eff.emitted), rest);
        assert NoDirectives(lines[1..]) by {
          forall k | 0 <= k < |lines[1..]| ensures !IsDirective(lines[1..][k]) {
            assert lines[1..][k] == lines[k + 1];
          }
        }
        RunPassContiguous(catalog, eff.labels, eff.address, lines[1..]);
        if StartsWith(lines[0], "@") {
          LabelLine(catalog, labels, address, lines[0]);
          assert Emitted(eff.emitted) + rest.emitted == rest.emitted;
        } else {
          assert !IsDirective(lines[0]);
          InstructionLine(catalog, labels, address, lines[0]);
          ContiguousCons(eff.emitted.value, rest.emitted, address);
        }
      }
    }
  }

  /** An instruction at `start` followed by instructions laid out from just past it. */
  lemma ContiguousCons(inst: Instruction, rest: seq<Instruction>, start: int)
    requires inst.memoryAddress == start && Contiguous(rest, start + inst.ByteSize())
    ensures Contiguous([inst] + rest, start)
    ensures TotalSize([inst] + rest) == inst.ByteSize() + TotalSize(rest)
  {
    var all := [inst] + rest;
    assert all[1..] == rest;
    forall k | 0 <= k < |all| - 1
      ensures all[k + 1].memoryAddress == all[k].memoryAddress + all[k].ByteSize()
    {
      if k > 0 {
        assert all[k] == rest[k - 1] && all[k + 1] == rest[k];
      }
    }
  }

  // ---------------------------------------------------------------------------------------
  // The whole program

  /** Both passes start at `cursorResetAddress`: without directives, a successful program is
      laid out back to back from there. */
  lemma ProgramLayout(catalog: Catalog, content: string, labels: Labels, reset: int,
                      lineReset: int, lineCount: int)
    requires NoDirectives(SourceLines(Split(content, '\n')))
    ensures var o := ParseContentSpec(catalog, content, labels, reset, lineReset, lineCount);
              o.result.Ok? ==> Contiguous(o.result.value, reset) && o.address == reset + TotalSize(o.result.value)
  {
    var lines := SourceLines(Split(content, '\n'));
    var first := RunPass(catalog, Placeholders(labels, reset, lines), reset, lines);
    RunPassContiguous(catalog, first.labels, reset, lines);
  }
}
