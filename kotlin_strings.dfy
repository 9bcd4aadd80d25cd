/** The Kotlin standard-library string operations the assembler relies on, on ASCII text.
    A Kotlin `String` is a `seq<char>` here. */
module KotlinStrings {

  import opened Wrappers

  /** `String.startsWith(prefix)` */
  predicate StartsWith(s: string, prefix: string) {
    prefix <= s
  }

  /** `String.endsWith(suffix)` */
  predicate EndsWith(s: string, suffix: string) {
    |suffix| <= |s| && s[|s| - |suffix|..] == suffix
  }

  /** `String.indexOf(c)`: the first position of `c`, or -1 when there is none. */
  function IndexOf(s: string, c: char): (r: int)
    ensures -1 <= r < |s|
    ensures r == -1 <==> c !in s
    ensures 0 <= r ==> s[r] == c && c !in s[..r]
  {
    if s == [] then -1
    else if s[0] == c then 0
    else
      var k := IndexOf(s[1..], c);
      assert s == [s[0]] + s[1..];
      if k < 0 then -1
      else
        assert s[..k + 1] == [s[0]] + s[1..][..k];
        k + 1
  }

  /** `String.lastIndexOf(c)`: the last position of `c`, or -1 when there is none. */
  function LastIndexOf(s: string, c: char): (r: int)
    ensures -1 <= r < |s|
    ensures r == -1 <==> c !in s
    ensures 0 <= r ==> s[r] == c && c !in s[r + 1..]
  {
    if s == [] then -1
    else if s[|s| - 1] == c then |s| - 1
    else
      assert s == s[..|s| - 1] + [s[|s| - 1]];
      var k := LastIndexOf(s[..|s| - 1], c);
      if k >= 0 then assert s[k + 1..] == s[..|s| - 1][k + 1..] + [s[|s| - 1]]; k else k
  }

  /** `String.contains(other)`: `sub` occurs somewhere in `s` (always true for an empty `sub`). */
  predicate Contains(s: string, sub: string)
    decreases |s|
  {
    sub <= s || (s != [] && Contains(s[1..], sub))
  }

  /** `sub` occurs in `s` exactly when it is a prefix of some suffix of `s`. */
  lemma {:induction false} ContainsAt(s: string, sub: string)
    ensures Contains(s, sub) <==> exists i | 0 <= i <= |s| :: sub <= s[i..]
    decreases |s|
  {
    assert s[0..] == s;
    if s != [] {
      ContainsAt(s[1..], sub);
      if exists i | 0 <= i <= |s[1..]| :: sub <= s[1..][i..] {
        var i :| 0 <= i <= |s[1..]| && sub <= s[1..][i..];
        assert s[1..][i..] == s[i + 1..];
      }
      if exists i | 0 <= i <= |s| :: sub <= s[i..] {
        var i :| 0 <= i <= |s| && sub <= s[i..];
        if i > 0 {
          assert s[1..][i - 1..] == s[i..];
        }
      }
    }
  }

  /** `String.split(c)` with a one-character delimiter and no limit: every piece, trailing
      empty ones included, so there is always at least one. */
  function Split(s: string, c: char): (r: seq<string>)
    ensures |r| >= 1
    ensures forall k :: 0 <= k < |r| ==> c !in r[k]
    decreases |s|
  {
    var i := IndexOf(s, c);
    if i < 0 then [s] else [s[..i]] + Split(s[i..][1..], c)
  }

  /** `joinToString(c)` for a one-character separator. */
  function Join(parts: seq<string>, c: char): string
    decreases |parts|
  {
    if parts == [] then ""
    else if |parts| == 1 then parts[0]
    else parts[0] + [c] + Join(parts[1..], c)
  }

  /** Every part followed by `c`: what a builder holds after appending `part + c` per part. */
  function Terminated(parts: seq<string>, c: char): string
    decreases |parts|
  {
    if parts == [] then "" else parts[0] + [c] + Terminated(parts[1..], c)
  }

  /** `String.dropLast(1)` */
  function DropLast(s: string): (r: string)
    ensures |s| > 0 ==> s == r + [s[|s| - 1]]
    ensures |s| == 0 ==> r == ""
  {
    if s == [] then s else s[..|s| - 1]
  }

  /** `String.replace(old, new)`: every non-overlapping occurrence, scanning left to right. */
  function ReplaceAll(s: string, pat: string, rep: string): string
    requires pat != []
    decreases |s|
  {
    if |s| < |pat| then s
    else if pat <= s then rep + ReplaceAll(s[|pat|..], pat, rep)
    else [s[0]] + ReplaceAll(s[1..], pat, rep)
  }

  /** `Char.uppercaseChar()` on ASCII letters. */
  function UpperChar(c: char): char {
    if 'a' <= c <= 'z' then (c as int - 32) as char else c
  }

  /** `String.uppercase()` on ASCII text. */
  function Upper(s: string): (r: string)
    ensures |r| == |s|
  {
    seq(|s|, i requires 0 <= i < |s| => UpperChar(s[i]))
  }

  /** `Char.isWhitespace()` restricted to ASCII. */
  predicate IsWhitespace(c: char) {
    c == ' ' || '\t' <= c <= '\r' || '\U{1C}' <= c <= '\U{1F}'
  }

  /** `CharSequence.isBlank()`: empty or only whitespace. */
  predicate IsBlank(s: string) {
    forall i | 0 <= i < |s| :: IsWhitespace(s[i])
  }

  /** `n` copies of `c` */
  function Repeat(c: char, n: nat): (r: string)
    ensures |r| == n && forall i :: 0 <= i < n ==> r[i] == c
  {
    seq(n, _ => c)
  }

  /** `String.padStart(length, pad)`: prepends `pad` up to `length`; a longer string is kept whole. */
  function PadStart(s: string, length: nat, pad: char): (r: string)
    ensures |r| == Max(length, |s|)
    ensures r == Repeat(pad, |r| - |s|) + s
  {
    if |s| >= length then s else Repeat(pad, length - |s|) + s
  }

  /** Splitting at `c` recovers the parts that were joined with `c`. */
  lemma {:induction false} SplitJoin(parts: seq<string>, c: char)
    requires |parts| >= 1
    requires forall k :: 0 <= k < |parts| ==> c !in parts[k]
    ensures Split(Join(parts, c), c) == parts
    decreases |parts|
  {
    if |parts| > 1 {
      var s := Join(parts, c);
      var p := parts[0];
      assert s == p + ([c] + Join(parts[1..], c));
      assert s[..|p|] == p;
      assert s[|p|] == c;
      assert IndexOf(s, c) == |p| by {
        var i := IndexOf(s, c);
        forall j | 0 <= j < i ensures s[j] != c {
          assert s[..i][j] == s[j];
        }
        forall j | 0 <= j < |p| ensures s[j] != c {
          assert s[j] == p[j];
        }
      }
      assert s[|p| + 1..] == Join(parts[1..], c);
      SplitJoin(parts[1..], c);
    }
  }

  /** Joining the pieces of a split with the same delimiter gives the original text back. */
  lemma {:induction false} JoinSplit(s: string, c: char)
    ensures Join(Split(s, c), c) == s
    decreases |s|
  {
    var i := IndexOf(s, c);
    if i >= 0 {
      var rest := s[i + 1..];
      var tail := Split(rest, c);
      JoinSplit(rest, c);
      var parts := [s[..i]] + tail;
      assert Split(s, c) == parts;
      assert |parts| > 1 && parts[0] == s[..i] && parts[1..] == tail;
      assert Join(parts, c) == s[..i] + [c] + Join(tail, c);
      CutAt(s, i);
    }
  }

  /** A text is the part before position `i`, the character there and the part after it. */
  lemma CutAt(s: string, i: nat)
    requires i < |s|
    ensures s == s[..i] + [s[i]] + s[i + 1..]
  {
  }

  /** A character that is not the separator and occurs in no part does not occur in the
      joined text. */
  lemma {:induction false} JoinAvoids(parts: seq<string>, sep: char, c: char)
    requires c != sep
    requires forall k :: 0 <= k < |parts| ==> c !in parts[k]
    ensures c !in Join(parts, sep)
    decreases |parts|
  {
    if |parts| > 1 {
      assert forall k :: 0 <= k < |parts[1..]| ==> parts[1..][k] == parts[k + 1];
      JoinAvoids(parts[1..], sep, c);
    }
  }

  /** A terminated list is the joined list plus one final separator. */
  lemma {:induction false} TerminatedIsJoinPlusSeparator(parts: seq<string>, c: char)
    requires |parts| >= 1
    ensures Terminated(parts, c) == Join(parts, c) + [c]
    decreases |parts|
  {
    if |parts| > 1 {
      TerminatedIsJoinPlusSeparator(parts[1..], c);
    }
  }

  /** Appending one more terminated part at the end. */
  lemma {:induction false} TerminatedSnoc(parts: seq<string>, x: string, c: char)
    ensures Terminated(parts + [x], c) == Terminated(parts, c) + x + [c]
    decreases |parts|
  {
    if parts != [] {
      assert (parts + [x])[1..] == parts[1..] + [x];
      TerminatedSnoc(parts[1..], x, c);
    }
  }

  /** Dropping the final separator of a terminated list gives the joined list (both empty
      for no parts). */
  lemma DropLastTerminated(parts: seq<string>, c: char)
    ensures DropLast(Terminated(parts, c)) == Join(parts, c)
  {
    if parts != [] {
      TerminatedIsJoinPlusSeparator(parts, c);
    }
  }

  /** `replace` leaves a text without any occurrence of the pattern untouched. */
  lemma {:induction false} ReplaceAbsent(s: string, pat: string, rep: string)
    requires pat != []
    requires !Contains(s, pat)
    ensures ReplaceAll(s, pat, rep) == s
    decreases |s|
  {
    if |s| >= |pat| {
      ReplaceAbsent(s[1..], pat, rep);
    }
  }

  /** `uppercase` only changes lower-case letters: a digit can come only from itself. */
  lemma UpperDigit(s: string, d: char)
    requires '0' <= d <= '9'
    requires Upper(s) == [d]
    ensures s == [d]
  {
    assert Upper(s)[0] == UpperChar(s[0]);
  }
}
