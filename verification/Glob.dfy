/**
  Hostname globs and the anchored, case-insensitive regular expression the engine
  compiles them to. The expression is produced as text, read back by a reader for the
  fragment it uses, and searched with the usual meaning of each operator; the main
  theorem says that this agrees with the recursive meaning of the glob.
*/
module Glob {
  import opened Wrappers

  /** Case folding of single characters, a library function kept uninterpreted. */
  type Folding = char -> char

  const META: string := "\\.+*?()|[]{}^$"

  /** Escapes a character that is special in a regular expression. */
  function QuoteMeta(c: char): string {
    if c in META then ['\\', c] else [c]
  }

  /** The expression for one glob character. */
  function Piece(c: char): string {
    match c
    case '*' => ".*"
    case '?' => "."
    case _ => QuoteMeta(c)
  }

  function GlobBody(pattern: string): string {
    if pattern == "" then "" else Piece(pattern[0]) + GlobBody(pattern[1..])
  }

  const PREFIX: string := "(?i)^"

  lemma {:induction false} GlobBodyAppend(pattern: string, c: char)
    ensures GlobBody(pattern + [c]) == GlobBody(pattern) + Piece(c)
  {
    if pattern == "" {
      assert [c][1..] == "";
    } else {
      assert (pattern + [c])[1..] == pattern[1..] + [c];
      GlobBodyAppend(pattern[1..], c);
    }
  }

  /** The expression text for a glob. */
  function Expression(pattern: string): string {
    PREFIX + GlobBody(pattern) + "$"
  }

  method CompileGlob(pattern: string) returns (text: string)
    ensures text == Expression(pattern)
  {
    var body := "";
    for i := 0 to |pattern|
      invariant body == GlobBody(pattern[..i])
    {
      body := body + Piece(pattern[i]);
      GlobBodyAppend(pattern[..i], pattern[i]);
      assert pattern[..i + 1] == pattern[..i] + [pattern[i]];
    }
    assert pattern[..|pattern|] == pattern;
    text := PREFIX + body + "$";
  }

  // --- the expression fragment and its meaning -----------------------------

  datatype Atom = Begin | End | AnyChar | AnyRun | Lit(c: char)

  /** Reads the fragment: anchors, dot, dot-star, escaped and plain characters. */
  function ReadAtoms(text: string): Option<seq<Atom>> {
    if text == "" then Some([])
    else if text[0] == '.' && |text| > 1 && text[1] == '*' then Cons(AnyRun, ReadAtoms(text[2..]))
    else if text[0] == '.' then Cons(AnyChar, ReadAtoms(text[1..]))
    else if text[0] == '^' then Cons(Begin, ReadAtoms(text[1..]))
    else if text[0] == '$' then Cons(End, ReadAtoms(text[1..]))
    else if text[0] == '\\' then
      if |text| > 1 && text[1] in META then Cons(Lit(text[1]), ReadAtoms(text[2..])) else None
    else if text[0] in META then None
    else Cons(Lit(text[0]), ReadAtoms(text[1..]))
  }

  function Cons(a: Atom, rest: Option<seq<Atom>>): Option<seq<Atom>> {
    match rest
    case None => None
    case Some(atoms) => Some([a] + atoms)
  }

  /** Strips the case-insensitivity flag and reads the rest. */
  function ReadRegex(text: string): Option<seq<Atom>> {
    if |text| >= 4 && text[..4] == "(?i)" then ReadAtoms(text[4..]) else None
  }

  /** Some match of the atoms starts at position i of s. Dot excludes newline; $ is the end of text. */
  predicate MatchesAt(fold: Folding, atoms: seq<Atom>, s: string, i: nat)
    requires i <= |s|
    decreases |atoms|, |s| - i
  {
    if atoms == [] then true
    else
      match atoms[0]
      case Begin => i == 0 && MatchesAt(fold, atoms[1..], s, i)
      case End => i == |s| && MatchesAt(fold, atoms[1..], s, i)
      case AnyChar => i < |s| && s[i] != '\n' && MatchesAt(fold, atoms[1..], s, i + 1)
      case Lit(c) => i < |s| && fold(s[i]) == fold(c) && MatchesAt(fold, atoms[1..], s, i + 1)
      case AnyRun =>
        || MatchesAt(fold, atoms[1..], s, i)
        || (i < |s| && s[i] != '\n' && MatchesAt(fold, atoms, s, i + 1))
  }

  /** Unanchored search, as the library performs it. */
  predicate Search(fold: Folding, atoms: seq<Atom>, s: string) {
    exists i :: 0 <= i <= |s| && MatchesAt(fold, atoms, s, i)
  }

  /** What the engine asks of a compiled glob expression. */
  predicate ExpressionAccepts(fold: Folding, text: string, s: string) {
    var atoms := ReadRegex(text);
    atoms.Some? && Search(fold, atoms.value, s)
  }

  // --- the meaning of a glob, stated without regular expressions ------------

  /** `*` any run, `?` one character, every other character itself up to case. */
  ghost predicate GlobMeaning(fold: Folding, pattern: string, s: string) {
    if pattern == "" then s == ""
    else if pattern[0] == '*' then
      exists k :: 0 <= k <= |s| && GlobMeaning(fold, pattern[1..], s[k..])
    else if pattern[0] == '?' then s != "" && GlobMeaning(fold, pattern[1..], s[1..])
    else s != "" && fold(s[0]) == fold(pattern[0]) && GlobMeaning(fold, pattern[1..], s[1..])
  }

  function GlobAtoms(pattern: string): seq<Atom> {
    if pattern == "" then [End]
    else
      [match pattern[0]
       case '*' => AnyRun
       case '?' => AnyChar
       case c => Lit(c)] + GlobAtoms(pattern[1..])
  }

  /** Quoting loses nothing: the emitted text reads back as one atom per glob character. */
  lemma {:induction false} EmittedTextReadsBack(pattern: string)
    ensures ReadAtoms(GlobBody(pattern) + "$") == Some(GlobAtoms(pattern))
  {
    if pattern == "" {
      assert GlobBody(pattern) + "$" == "$" && "$"[1..] == "";
      assert [End] + [] == GlobAtoms(pattern);
    } else {
      var c, rest := pattern[0], GlobBody(pattern[1..]) + "$";
      EmittedTextReadsBack(pattern[1..]);
      var head := Piece(c);
      var text := GlobBody(pattern) + "$";
      assert text == head + rest;
      assert text[|head|..] == rest;
      if c == '?' {
        // the dot is never followed by a bare star
        BodyNeverStartsWithStar(pattern[1..]);
      }
    }
  }

  lemma {:induction false} BodyNeverStartsWithStar(pattern: string)
    ensures GlobBody(pattern) + "$" != "" && (GlobBody(pattern) + "$")[0] != '*'
  {
  }

  lemma GlobReadsBack(pattern: string)
    ensures ReadRegex(Expression(pattern)) == Some([Begin] + GlobAtoms(pattern))
  {
    EmittedTextReadsBack(pattern);
    var text := Expression(pattern);
    assert text[..4] == "(?i)";
    assert text[4..] == "^" + (GlobBody(pattern) + "$");
    assert text[4..][1..] == GlobBody(pattern) + "$";
  }

  lemma {:induction false} AtomsImplyMeaning(fold: Folding, pattern: string, s: string, i: nat)
    requires i <= |s| && MatchesAt(fold, GlobAtoms(pattern), s, i)
    ensures GlobMeaning(fold, pattern, s[i..])
    decreases |pattern|, |s| - i
  {
    if pattern != "" {
      var rest := GlobAtoms(pattern[1..]);
      assert GlobAtoms(pattern)[1..] == rest;
      if pattern[0] == '*' {
        if MatchesAt(fold, rest, s, i) {
          AtomsImplyMeaning(fold, pattern[1..], s, i);
          assert s[i..][0..] == s[i..];
        } else {
          AtomsImplyMeaning(fold, pattern, s, i + 1);
          var k :| 0 <= k <= |s[i + 1..]| && GlobMeaning(fold, pattern[1..], s[i + 1..][k..]);
          assert s[i..][k + 1..] == s[i + 1..][k..];
        }
      } else {
        AtomsImplyMeaning(fold, pattern[1..], s, i + 1);
        assert s[i..][1..] == s[i + 1..];
      }
    }
  }

  lemma {:induction false} RunCovers(fold: Folding, atoms: seq<Atom>, s: string, i: nat, k: nat)
    requires i <= k <= |s| && atoms != [] && atoms[0] == AnyRun && '\n' !in s
    requires MatchesAt(fold, atoms[1..], s, k)
    ensures MatchesAt(fold, atoms, s, i)
    decreases k - i
  {
    if i < k {
      assert s[i] in s;
      RunCovers(fold, atoms, s, i + 1, k);
    }
  }

  lemma {:induction false} MeaningImpliesAtoms(fold: Folding, pattern: string, s: string, i: nat)
    requires i <= |s| && '\n' !in s && GlobMeaning(fold, pattern, s[i..])
    ensures MatchesAt(fold, GlobAtoms(pattern), s, i)
    decreases |pattern|
  {
    if pattern != "" {
      var rest := GlobAtoms(pattern[1..]);
      assert GlobAtoms(pattern)[1..] == rest;
      if pattern[0] == '*' {
        var k :| 0 <= k <= |s[i..]| && GlobMeaning(fold, pattern[1..], s[i..][k..]);
        assert s[i..][k..] == s[i + k..];
        MeaningImpliesAtoms(fold, pattern[1..], s, i + k);
        RunCovers(fold, GlobAtoms(pattern), s, i, i + k);
      } else {
        assert s[i..][1..] == s[i + 1..] && s[i] in s;
        MeaningImpliesAtoms(fold, pattern[1..], s, i + 1);
      }
    }
  }

  /** The compiled expression never accepts more than the glob means, newline or not. */
  lemma GlobRegexSound(fold: Folding, pattern: string, s: string)
    requires ExpressionAccepts(fold, Expression(pattern), s)
    ensures GlobMeaning(fold, pattern, s)
  {
    GlobReadsBack(pattern);
    var atoms := [Begin] + GlobAtoms(pattern);
    var i :| 0 <= i <= |s| && MatchesAt(fold, atoms, s, i);
    assert atoms[1..] == GlobAtoms(pattern);
    AtomsImplyMeaning(fold, pattern, s, 0);
    assert s[0..] == s;
  }

  /** On newline-free names the compiled expression accepts exactly what the glob means. */
  lemma GlobRegexExact(fold: Folding, pattern: string, s: string)
    requires '\n' !in s
    ensures ExpressionAccepts(fold, Expression(pattern), s) <==> GlobMeaning(fold, pattern, s)
  {
    if ExpressionAccepts(fold, Expression(pattern), s) {
      GlobRegexSound(fold, pattern, s);
    }
    if GlobMeaning(fold, pattern, s) {
      GlobReadsBack(pattern);
      assert s[0..] == s;
      MeaningImpliesAtoms(fold, pattern, s, 0);
      var atoms := [Begin] + GlobAtoms(pattern);
      assert atoms[1..] == GlobAtoms(pattern);
      assert MatchesAt(fold, atoms, s, 0);
    }
  }

  lemma {:induction false} StarStopsAtNewline(fold: Folding, s: string, i: nat)
    requires i <= |s| && '\n' in s[i..]
    ensures !MatchesAt(fold, [AnyRun, End], s, i)
    decreases |s| - i
  {
    assert [AnyRun, End][1..] == [End];
    if s[i] != '\n' {
      assert s[i..] == [s[i]] + s[i + 1..];
      StarStopsAtNewline(fold, s, i + 1);
    }
  }

  /** Newlines are the exact limit: every glob is read correctly on s iff s has none. */
  lemma ExactIffNewlineFree(fold: Folding, s: string)
    ensures (forall pattern :: ExpressionAccepts(fold, Expression(pattern), s) <==> GlobMeaning(fold, pattern, s))
       <==> '\n' !in s
  {
    if '\n' in s {
      GlobReadsBack("*");
      assert GlobAtoms("*") == [AnyRun] + GlobAtoms("") == [AnyRun, End];
      assert s[0..] == s && [Begin, AnyRun, End][1..] == [AnyRun, End];
      StarStopsAtNewline(fold, s, 0);
      assert !ExpressionAccepts(fold, Expression("*"), s);
      assert s[|s|..] == "" && GlobMeaning(fold, "*"[1..], s[|s|..]);
      assert GlobMeaning(fold, "*", s);
    } else {
      forall pattern ensures ExpressionAccepts(fold, Expression(pattern), s) <==> GlobMeaning(fold, pattern, s) {
        GlobRegexExact(fold, pattern, s);
      }
    }
  }
}
