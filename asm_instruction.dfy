/** `instructions/AsmInstruction.kt`: operand kinds, instruction variations and the choice of
    the variation that fits a list of operand tokens. */
module AsmInstructions {

  import opened Wrappers
  import opened KotlinStrings
  import opened KotlinNumbers
  import opened Errors

  type IndexNumber = n: int | 0 <= n < 8

  /** `AsmArg`: registers and flags (A .. F, SP), the user-value kinds KO, KA (one byte) and
      ADR (two bytes), and the enum constants INDEX_0 .. INDEX_7, written `Index(0)` ..
      `Index(7)`. */
  datatype AsmArg = A | B | C | D | E | H | L | M | F | KO | KA | ADR | SP | Index(n: IndexNumber)

  function DigitChar(n: IndexNumber): char {
    ('0' as int + n) as char
  }

  /** The enum constant's declared name. */
  function Name(k: AsmArg): string {
    match k
    case A => "A"
    case B => "B"
    case C => "C"
    case D => "D"
    case E => "E"
    case H => "H"
    case L => "L"
    case M => "M"
    case F => "F"
    case KO => "KO"
    case KA => "KA"
    case ADR => "ADR"
    case SP => "SP"
    case Index(n) => "INDEX_" + [DigitChar(n)]
  }

  /** `AsmArg.valueOf(name)`: the constant named exactly `name`; `None` where it throws. */
  function ValueOf(name: string): (r: Option<AsmArg>)
    ensures r.Some? ==> Name(r.value) == name
  {
    if name == "A" then Some(A)
    else if name == "B" then Some(B)
    else if name == "C" then Some(C)
    else if name == "D" then Some(D)
    else if name == "E" then Some(E)
    else if name == "H" then Some(H)
    else if name == "L" then Some(L)
    else if name == "M" then Some(M)
    else if name == "F" then Some(F)
    else if name == "KO" then Some(KO)
    else if name == "KA" then Some(KA)
    else if name == "ADR" then Some(ADR)
    else if name == "SP" then Some(SP)
    else if |name| == 7 && name[..6] == "INDEX_" && '0' <= name[6] <= '7' then
      assert name == "INDEX_" + [name[6]];
      Some(Index(name[6] as int - '0' as int))
    else None
  }

  /** `AsmArg.fromString(arg)`: the constant named by `arg` in upper case, else INDEX_`arg`,
      else null (`None`). */
  function FromString(arg: string): (r: Option<AsmArg>)
    ensures r.Some? ==> Name(r.value) == Upper(arg) || Name(r.value) == "INDEX_" + arg
  {
    var byName := ValueOf(Upper(arg));
    if byName.Some? then byName else ValueOf("INDEX_" + arg)
  }

  /** The kinds whose slot takes a value written by the user. */
  predicate IsUserKind(k: AsmArg) {
    k == KO || k == KA || k == ADR
  }

  /** The check `getVariation` makes for one slot: the token names that very kind, or it
      names no kind at all and the slot takes a user value. */
  predicate SlotAccepts(slot: AsmArg, token: string) {
    var arg := FromString(token);
    arg == Some(slot) || (arg.None? && IsUserKind(slot))
  }

  /** `indexOfFirst { it is KA, KO or ADR }` */
  function IndexOfFirstUser(slots: seq<AsmArg>): (r: int)
    ensures -1 <= r < |slots|
    ensures r >= 0 <==> exists i :: 0 <= i < |slots| && IsUserKind(slots[i])
    ensures r >= 0 ==> IsUserKind(slots[r]) && forall j :: 0 <= j < r ==> !IsUserKind(slots[j])
    decreases |slots|
  {
    if slots == [] then -1
    else if IsUserKind(slots[0]) then 0
    else
      var k := IndexOfFirstUser(slots[1..]);
      assert forall i :: 1 <= i < |slots| ==> slots[i] == slots[1..][i - 1];
      if k < 0 then -1 else k + 1
  }

  /** `first { it is KA, KO or ADR }`; `None` where it throws NoSuchElementException. */
  function FirstUser(slots: seq<AsmArg>): (r: Option<AsmArg>)
    ensures r.Some? ==> IsUserKind(r.value)
    decreases |slots|
  {
    if slots == [] then None
    else if IsUserKind(slots[0]) then Some(slots[0])
    else FirstUser(slots[1..])
  }

  /** `AsmVariation(args, code)`: one operand pattern of a mnemonic and its opcode. */
  datatype AsmVariation = AsmVariation(args: seq<AsmArg>, code: UByte)
  {
    /** The slot-by-slot check inside `getVariation`, together with its arity filter. */
    predicate Accepts(tokens: seq<string>) {
      |args| == |tokens| && forall i | 0 <= i < |args| :: SlotAccepts(args[i], tokens[i])
    }

    /** `containsUserArguments()` */
    predicate ContainsUserArguments() {
      exists i | 0 <= i < |args| :: IsUserKind(args[i])
    }

    /** `getUserArgumentIndex()`: the first user-value slot, or -1. */
    function GetUserArgumentIndex(): (r: int)
      ensures -1 <= r < |args|
      ensures r >= 0 <==> ContainsUserArguments()
      ensures r >= 0 ==> IsUserKind(args[r]) && forall j :: 0 <= j < r ==> !IsUserKind(args[j])
    {
      IndexOfFirstUser(args)
    }

    /** `getUserArgument()`: the kind of the first user-value slot. */
    function GetUserArgument(): (r: Option<AsmArg>)
      ensures r.Some? ==> IsUserKind(r.value)
    {
      FirstUser(args)
    }
  }

  /** The position of the first variation that accepts `tokens`. */
  function FirstAccepting(vs: seq<AsmVariation>, tokens: seq<string>): (r: Option<nat>)
    ensures r.Some? ==> r.value < |vs| && vs[r.value].Accepts(tokens)
    ensures r.Some? ==> forall j :: 0 <= j < r.value ==> !vs[j].Accepts(tokens)
    ensures r.None? ==> forall j :: 0 <= j < |vs| ==> !vs[j].Accepts(tokens)
    decreases |vs|
  {
    if vs == [] then None
    else if vs[0].Accepts(tokens) then Some(0)
    else
      assert forall j :: 1 <= j < |vs| ==> vs[j] == vs[1..][j - 1];
      match FirstAccepting(vs[1..], tokens)
      case Some(i) => Some(i + 1)
      case None => None
  }

  /** `AsmInstruction(name, variations)`: a mnemonic and its variations in declaration order. */
  datatype AsmInstruction = AsmInstruction(name: string, variations: seq<AsmVariation>)
  {
    /** `getVariation(args)`: the first variation, in declaration order, with as many slots as
        there are tokens and whose every slot accepts its token; IllegalArgumentException
        when there is none. */
    function GetVariation(tokens: seq<string>): (r: Result<AsmVariation, AsmError>)
      ensures r.Ok? ==> |r.value.args| == |tokens| && r.value.Accepts(tokens)
      ensures r.Ok? ==> exists i :: 0 <= i < |variations| && variations[i] == r.value
                          && forall j :: 0 <= j < i ==> !variations[j].Accepts(tokens)
      ensures r.Err? <==> forall i :: 0 <= i < |variations| ==> !variations[i].Accepts(tokens)
      ensures r.Err? ==> r.error == InvalidInstruction(name, tokens)
    {
      match FirstAccepting(variations, tokens)
      case Some(i) => Ok(variations[i])
      case None => Err(InvalidInstruction(name, tokens))
    }
  }

  /** Every constant is found by its own name. */
  lemma ValueOfName(k: AsmArg)
    ensures ValueOf(Name(k)) == Some(k)
  {
    match k
    case Index(n) =>
      var name := Name(k);
      assert |name| == 7 && name[..6] == "INDEX_" && name[6] == DigitChar(n);
    case _ =>
  }

  /** `valueOf` fails exactly on the strings that are no constant's name. */
  lemma ValueOfComplete(name: string)
    ensures ValueOf(name).Some? <==> exists k :: Name(k) == name
  {
    if exists k :: Name(k) == name {
      var k :| Name(k) == name;
      ValueOfName(k);
    }
  }

  /** Only the single digits 0 .. 7 follow the prefix "INDEX_" in a constant's name. */
  lemma IndexName(k: AsmArg, arg: string)
    requires Name(k) == "INDEX_" + arg
    ensures k.Index? && arg == [DigitChar(k.n)]
  {
    if k.Index? {
      assert arg == ("INDEX_" + arg)[6..];
    }
  }

  /** `fromString` in full: the token is a constant's name up to case, or it is one of the
      digits 0 .. 7 naming INDEX_0 .. INDEX_7; null otherwise. */
  lemma {:induction false} FromStringSpec(arg: string, k: AsmArg)
    ensures FromString(arg) == Some(k) <==>
              Name(k) == Upper(arg) || (k.Index? && arg == [DigitChar(k.n)])
  {
    var byName := ValueOf(Upper(arg));
    if Name(k) == Upper(arg) {
      ValueOfName(k);
    } else if k.Index? && arg == [DigitChar(k.n)] {
      assert Upper(arg) == arg by {
        assert Upper(arg)[0] == UpperChar(arg[0]);
      }
      assert byName == None by {
        ValueOfComplete(Upper(arg));
        forall k' ensures Name(k') != Upper(arg) {
          match k' {
            case Index(_) => assert |Name(k')| == 7;
            case _ =>
          }
        }
      }
      ValueOfName(k);
      assert "INDEX_" + arg == Name(k);
    } else if FromString(arg) == Some(k) {
      if byName.None? {
        IndexName(k, arg);
      }
    }
  }

  /** `fromString` ignores case: tokens equal up to case name the same kind. */
  lemma {:induction false} FromStringIgnoresCase(s: string, t: string)
    requires Upper(s) == Upper(t)
    ensures FromString(s) == FromString(t)
  {
    if ValueOf(Upper(s)).None? {
      var fs := ValueOf("INDEX_" + s);
      var ft := ValueOf("INDEX_" + t);
      if fs.Some? {
        IndexName(fs.value, s);
        DigitUpper(s);
        UpperDigit(t, s[0]);
      } else if ft.Some? {
        IndexName(ft.value, t);
        DigitUpper(t);
        UpperDigit(s, t[0]);
      }
    }
  }

  lemma DigitUpper(s: string)
    requires |s| == 1 && '0' <= s[0] <= '9'
    ensures Upper(s) == s
  {
    assert Upper(s)[0] == UpperChar(s[0]);
  }

  /** A token that names a fixed kind (a register, flag or index digit) never fills a
      user-value slot. */
  lemma FixedTokenNeverFillsUserSlot(slot: AsmArg, token: string)
    requires IsUserKind(slot)
    requires FromString(token).Some? && !IsUserKind(FromString(token).value)
    ensures !SlotAccepts(slot, token)
  {
  }

  /** "5" names INDEX_5 and "a" names register A, so neither can be a one-byte value. */
  lemma FixedTokenExamples()
    ensures FromString("5") == Some(Index(5))
    ensures FromString("a") == Some(A)
    ensures !SlotAccepts(KO, "5") && !SlotAccepts(KO, "a")
  {
    FromStringSpec("5", Index(5));
    assert Upper("a") == "A" by {
      assert Upper("a")[0] == UpperChar('a');
    }
    FromStringSpec("a", A);
  }

  /** With no tokens, every variation without slots accepts. */
  lemma NoTokensMatchNoSlots(v: AsmVariation)
    requires v.args == []
    ensures v.Accepts([])
  {
  }

  /** The three accessors of the user-value slot agree: it exists exactly when the index is
      not -1, and then `getUserArgument()` is the slot at that index. */
  lemma {:induction false} UserArgumentAccessorsAgree(v: AsmVariation)
    ensures v.ContainsUserArguments() <==> v.GetUserArgumentIndex() >= 0
    ensures v.ContainsUserArguments() ==> v.GetUserArgument() == Some(v.args[v.GetUserArgumentIndex()])
    ensures !v.ContainsUserArguments() ==> v.GetUserArgument() == None
  {
    FirstUserAtIndex(v.args);
  }

  lemma {:induction false} FirstUserAtIndex(slots: seq<AsmArg>)
    ensures IndexOfFirstUser(slots) >= 0 ==> FirstUser(slots) == Some(slots[IndexOfFirstUser(slots)])
    ensures IndexOfFirstUser(slots) < 0 ==> FirstUser(slots) == None
    decreases |slots|
  {
    if slots != [] && !IsUserKind(slots[0]) {
      FirstUserAtIndex(slots[1..]);
    }
  }
}
