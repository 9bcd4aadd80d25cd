/** `instructions/InstructionRegister.kt`: the table of known mnemonics, filled once at start-up
    and queried by the parser. */
module InstructionRegistry {

  import opened Wrappers
  import opened Errors
  import opened AsmInstructions

  type Catalog = map<string, AsmInstruction>

  /** The query `getByName` makes: the instruction registered under `name`, or the
      "No instruction with name" failure. */
  function Lookup(m: Catalog, name: string): (r: Result<AsmInstruction, AsmError>)
    ensures r.Ok? <==> name in m
    ensures r.Ok? ==> r.value == m[name] && r.value in m.Values
    ensures r.Err? ==> r.error == UnknownInstruction(name)
  {
    if name in m then Ok(m[name]) else Err(UnknownInstruction(name))
  }

  /** The table after registering `xs` in order, starting from `m`. */
  function RegisterAll(m: Catalog, xs: seq<AsmInstruction>): Catalog
    decreases |xs|
  {
    if xs == [] then m
    else
      var x := xs[|xs| - 1];
      RegisterAll(m, xs[..|xs| - 1])[x.name := x]
  }

  /** `object InstructionRegister`: a name-keyed table that `register` overwrites. */
  class InstructionRegister {
    var instructions: Catalog

    constructor()
      ensures instructions == map[]
    {
      instructions := map[];
    }

    /** `register(instruction)`: stores `instruction` under its name, replacing any earlier entry. */
    method Register(instruction: AsmInstruction)
      modifies this
      ensures instructions == old(instructions)[instruction.name := instruction]
    {
      instructions := instructions[instruction.name := instruction];
    }

    /** Registering a list of instructions one after the other, as start-up does. */
    method RegisterEach(xs: seq<AsmInstruction>)
      modifies this
      ensures instructions == RegisterAll(old(instructions), xs)
    {
      var i := 0;
      while i < |xs|
        invariant 0 <= i <= |xs|
        invariant instructions == RegisterAll(old(instructions), xs[..i])
      {
        assert xs[..i + 1][..i] == xs[..i];
        Register(xs[i]);
        i := i + 1;
      }
      assert xs[..|xs|] == xs;
    }

    /** `getByName(name)`: the registered instruction, or IllegalArgumentException. */
    function GetByName(name: string): (r: Result<AsmInstruction, AsmError>)
      reads this
      ensures r.Ok? <==> name in instructions
      ensures r.Ok? ==> r.value == instructions[name] && r.value in instructions.Values
      ensures r.Err? ==> r.error == UnknownInstruction(name)
    {
      Lookup(instructions, name)
    }
  }

  /** After registering a list, a name is known exactly when it was known before or one of
      the list's instructions carries it. */
  lemma {:induction false} RegisteredNames(m: Catalog, xs: seq<AsmInstruction>, name: string)
    ensures name in RegisterAll(m, xs) <==>
              name in m || exists j :: 0 <= j < |xs| && xs[j].name == name
    decreases |xs|
  {
    if xs != [] {
      var init := xs[..|xs| - 1];
      RegisteredNames(m, init, name);
      if exists j :: 0 <= j < |xs| && xs[j].name == name {
        var j :| 0 <= j < |xs| && xs[j].name == name;
        if j < |init| {
          assert init[j] == xs[j];
        }
      }
      if exists j :: 0 <= j < |init| && init[j].name == name {
        var j :| 0 <= j < |init| && init[j].name == name;
        assert xs[j] == init[j];
      }
    }
  }

  /** Names no instruction of the list carries keep their earlier lookup result. */
  lemma {:induction false} UnregisteredNamesUnchanged(m: Catalog, xs: seq<AsmInstruction>, name: string)
    requires forall j :: 0 <= j < |xs| ==> xs[j].name != name
    ensures Lookup(RegisterAll(m, xs), name) == Lookup(m, name)
    decreases |xs|
  {
    if xs != [] {
      var init := xs[..|xs| - 1];
      assert forall j :: 0 <= j < |init| ==> init[j] == xs[j];
      UnregisteredNamesUnchanged(m, init, name);
    }
  }

  /** When several instructions share a name, the last one registered is the one found. */
  lemma {:induction false} LastRegistrationWins(m: Catalog, xs: seq<AsmInstruction>, i: nat)
    requires i < |xs|
    requires forall j :: i < j < |xs| ==> xs[j].name != xs[i].name
    ensures Lookup(RegisterAll(m, xs), xs[i].name) == Ok(xs[i])
    decreases |xs|
  {
    var init := xs[..|xs| - 1];
    if i < |xs| - 1 {
      assert forall j :: i < j < |init| ==> init[j] == xs[j];
      assert init[i] == xs[i];
      LastRegistrationWins(m, init, i);
    }
  }
}
