/**
 * Roster normalisation: the names text is split on newlines, every line is stripped of
 * surrounding whitespace, empty lines are dropped, and the list is padded with
 * generated names or truncated to the class size. The absentee text is read the same way.
 */
module Roster {
  import opened Decimal

  // ---------------------------------------------------------------- split and join

  /** Python's `s.split(sep)` for a one-character separator: never an empty list. */
  function Split(s: string, sep: char): (parts: seq<string>)
    ensures |parts| >= 1
  {
    if s == [] then [[]]
    else
      var parts := Split(s[..|s| - 1], sep);
      var c := s[|s| - 1];
      if c == sep then parts + [[]]
      else parts[..|parts| - 1] + [parts[|parts| - 1] + [c]]
  }

  /** `sep.join(parts)`. */
  function Join(parts: seq<string>, sep: char): string {
    if parts == [] then []
    else if |parts| == 1 then parts[0]
    else Join(parts[..|parts| - 1], sep) + [sep] + parts[|parts| - 1]
  }

  /** A non-empty sequence is its front followed by its last element. */
  lemma FrontLast<T>(s: seq<T>)
    requires s != []
    ensures s[..|s| - 1] + [s[|s| - 1]] == s
  {
  }

  /** No piece contains the separator. */
  lemma {:induction false} SplitPiecesFree(s: string, sep: char)
    ensures forall k :: 0 <= k < |Split(s, sep)| ==> sep !in Split(s, sep)[k]
  {
    if s != [] {
      var s' := s[..|s| - 1];
      SplitPiecesFree(s', sep);
      var parts := Split(s', sep);
      var c := s[|s| - 1];
      if c != sep {
        var q := parts[..|parts| - 1] + [parts[|parts| - 1] + [c]];
        assert Split(s, sep) == q;
        forall k | 0 <= k < |q|
          ensures sep !in q[k]
        {
          if k < |parts| - 1 {
            assert q[k] == parts[k];
          }
        }
      }
    }
  }

  /** Joining the pieces back with the separator gives the original text. */
  lemma {:induction false} JoinSplit(s: string, sep: char)
    ensures Join(Split(s, sep), sep) == s
  {
    if s != [] {
      var s' := s[..|s| - 1];
      var c := s[|s| - 1];
      var parts := Split(s', sep);
      JoinSplit(s', sep);
      if c == sep {
        assert (parts + [[]])[..|parts|] == parts;
      } else {
        var last := parts[|parts| - 1];
        var parts' := parts[..|parts| - 1] + [last + [c]];
        assert parts'[..|parts'| - 1] == parts[..|parts| - 1];
        if |parts| > 1 {
          assert Join(parts, sep) == Join(parts[..|parts| - 1], sep) + [sep] + last;
        }
      }
      assert s == s' + [c];
    }
  }

  /** One step of Split on a character that is not the separator. */
  lemma SplitOther(s: string, c: char, sep: char)
    requires c != sep
    ensures var parts := Split(s, sep);
      Split(s + [c], sep) == parts[..|parts| - 1] + [parts[|parts| - 1] + [c]]
  {
    assert (s + [c])[..|s|] == s;
  }

  /** The inductive step of SplitExtend, with the shorter case given. */
  lemma SplitExtendStep(s: string, front: seq<string>, last: string, c: char, sep: char)
    requires c != sep
    requires Split(s, sep) == front + [last]
    ensures Split(s + [c], sep) == front + [last + [c]]
  {
    SplitOther(s, c, sep);
    assert (front + [last])[..|front|] == front;
  }

  /** Appending separator-free text extends the last piece. */
  lemma {:induction false} SplitExtend(a: string, p: string, sep: char)
    requires sep !in p
    ensures var parts := Split(a, sep);
      Split(a + p, sep) == parts[..|parts| - 1] + [parts[|parts| - 1] + p]
  {
    var parts := Split(a, sep);
    var front := parts[..|parts| - 1];
    var last := parts[|parts| - 1];
    if p == [] {
      assert a + p == a;
      assert last + p == last;
      FrontLast(parts);
    } else {
      var p' := p[..|p| - 1];
      var c := p[|p| - 1];
      assert p == p' + [c];
      SplitExtend(a, p', sep);
      SplitExtendStep(a + p', front, last + p', c, sep);
      assert a + p == (a + p') + [c];
      assert last + p' + [c] == last + p;
    }
  }

  /** Splitting a join of separator-free pieces gives the pieces back. */
  lemma {:induction false} SplitJoin(parts: seq<string>, sep: char)
    requires parts != []
    requires forall k :: 0 <= k < |parts| ==> sep !in parts[k]
    ensures Split(Join(parts, sep), sep) == parts
  {
    var last := parts[|parts| - 1];
    if |parts| == 1 {
      SplitExtend([], last, sep);
      assert [] + last == last;
    } else {
      var front := parts[..|parts| - 1];
      assert forall k :: 0 <= k < |front| ==> front[k] == parts[k];
      SplitJoin(front, sep);
      var j := Join(front, sep);
      JoinLast(parts, sep);
      SplitAfterSeparator(j, front, last, sep);
      FrontLast(parts);
    }
  }

  lemma JoinLast(parts: seq<string>, sep: char)
    requires |parts| > 1
    ensures Join(parts, sep) == (Join(parts[..|parts| - 1], sep) + [sep]) + parts[|parts| - 1]
  {
  }

  /** The inductive step of SplitJoin: a separator then separator-free text adds one piece. */
  lemma SplitAfterSeparator(j: string, front: seq<string>, last: string, sep: char)
    requires Split(j, sep) == front && sep !in last
    ensures Split((j + [sep]) + last, sep) == front + [last]
  {
    assert Split(j + [sep], sep) == front + [[]] by {
      assert (j + [sep])[..|j|] == j;
    }
    SplitExtend(j + [sep], last, sep);
    assert (front + [[]])[..|front|] == front;
    assert [] + last == last;
  }

  // ---------------------------------------------------------------- strip

  /** The characters Python's `str.isspace()` accepts, which `strip()` removes. */
  predicate IsSpace(c: char) {
    c == ' ' || ('\t' <= c <= '\r') || ('\U{1c}' <= c <= '\U{1f}') || c == '\U{85}' || c == '\U{a0}'
    || c == '\U{1680}' || ('\U{2000}' <= c <= '\U{200a}') || c == '\U{2028}' || c == '\U{2029}'
    || c == '\U{202f}' || c == '\U{205f}' || c == '\U{3000}'
  }

  /** The number of leading whitespace characters. */
  function TextStart(s: string): (i: nat)
    ensures i <= |s|
    ensures forall k :: 0 <= k < i ==> IsSpace(s[k])
    ensures i < |s| ==> !IsSpace(s[i])
  {
    if s != [] && IsSpace(s[0]) then 1 + TextStart(s[1..]) else 0
  }

  /** The end of the text after removing trailing whitespace, not before position i. */
  function TextEnd(s: string, i: nat): (j: nat)
    requires i <= |s|
    ensures i <= j <= |s|
    ensures forall k :: j <= k < |s| ==> IsSpace(s[k])
    ensures j > i ==> !IsSpace(s[j - 1])
    decreases |s|
  {
    if |s| > i && IsSpace(s[|s| - 1]) then TextEnd(s[..|s| - 1], i) else |s|
  }

  /** Python's `s.strip()`. */
  function Strip(s: string): string {
    s[TextStart(s)..TextEnd(s, TextStart(s))]
  }

  /** A line that survives reading unchanged: not empty, no surrounding whitespace, no newline. */
  predicate IsClean(s: string) {
    s != [] && !IsSpace(s[0]) && !IsSpace(s[|s| - 1]) && '\n' !in s
  }

  /** Stripping removes nothing from a line without surrounding whitespace. */
  lemma StripClean(s: string)
    requires s != [] && !IsSpace(s[0]) && !IsSpace(s[|s| - 1])
    ensures Strip(s) == s
  {
    assert s[0..|s|] == s;
  }

  /** Strip takes away whitespace only, from both ends, and leaves none at either end. */
  lemma StripShape(s: string)
    ensures var r := Strip(s);
      (r == [] || (!IsSpace(r[0]) && !IsSpace(r[|r| - 1]))) &&
      s == s[..TextStart(s)] + r + s[TextEnd(s, TextStart(s))..]
  {
    var i := TextStart(s);
    var j := TextEnd(s, i);
    var r := s[i..j];
    assert s == s[..i] + r + s[j..];
    if r != [] {
      assert r[0] == s[i] && r[|r| - 1] == s[j - 1];
    }
  }

  /** A piece without a newline strips to a clean line or to nothing. */
  lemma StripLine(p: string)
    requires '\n' !in p
    ensures Strip(p) != [] ==> IsClean(Strip(p))
  {
    StripShape(p);
    var i := TextStart(p);
    var line := p[i..TextEnd(p, i)];
    assert forall k :: 0 <= k < |line| ==> line[k] == p[i + k];
  }

  /** Stripping twice is stripping once. */
  lemma StripIdempotent(s: string)
    ensures Strip(Strip(s)) == Strip(s)
  {
    var r := Strip(s);
    if r != [] {
      StripClean(r);
    } else {
      assert TextStart(r) == 0;
    }
  }

  // ---------------------------------------------------------------- reading lines

  /** The stripped, non-empty pieces, in order. */
  function CleanLines(parts: seq<string>): (lines: seq<string>)
    ensures |lines| <= |parts|
  {
    if parts == [] then []
    else
      var rest := CleanLines(parts[..|parts| - 1]);
      var line := Strip(parts[|parts| - 1]);
      if line != [] then rest + [line] else rest
  }

  /** The text split at newlines, each piece stripped, the empty ones dropped. */
  function Lines(text: string): seq<string> {
    CleanLines(Split(text, '\n'))
  }

  /** Every line read is stripped, non-empty and free of newlines. */
  lemma {:induction false} CleanLinesAreClean(parts: seq<string>)
    requires forall k :: 0 <= k < |parts| ==> '\n' !in parts[k]
    ensures forall k :: 0 <= k < |CleanLines(parts)| ==> IsClean(CleanLines(parts)[k])
  {
    if parts != [] {
      var front := parts[..|parts| - 1];
      assert forall k :: 0 <= k < |front| ==> front[k] == parts[k];
      CleanLinesAreClean(front);
      StripLine(parts[|parts| - 1]);
    }
  }

  lemma LinesAreClean(text: string)
    ensures forall k :: 0 <= k < |Lines(text)| ==> IsClean(Lines(text)[k])
  {
    SplitPiecesFree(text, '\n');
    CleanLinesAreClean(Split(text, '\n'));
  }

  lemma {:induction false} CleanLinesOfClean(names: seq<string>)
    requires forall k :: 0 <= k < |names| ==> IsClean(names[k])
    ensures CleanLines(names) == names
  {
    if names != [] {
      CleanLinesOfClean(names[..|names| - 1]);
      StripClean(names[|names| - 1]);
    }
  }

  /** One name per line, joined with newlines. */
  function JoinLines(names: seq<string>): string {
    Join(names, '\n')
  }

  /** Writing clean names one per line and reading them back gives the same names. */
  lemma LinesRoundTrip(names: seq<string>)
    requires forall k :: 0 <= k < |names| ==> IsClean(names[k])
    ensures Lines(JoinLines(names)) == names
  {
    if names == [] {
      assert Split([], '\n') == [[]];
      assert Strip([]) == [];
    } else {
      SplitJoin(names, '\n');
      CleanLinesOfClean(names);
    }
  }

  // ---------------------------------------------------------------- padding

  /** The generated name of seat i (numbered from 1): `名前` followed by the digits of i + 1. */
  function PadName(i: nat): (name: string)
    ensures |name| >= 3 && name[..2] == "名前" && IsDigits(name[2..])
    ensures IsClean(name)
  {
    var digits := Str(i + 1);
    StrIsDigits(i + 1, 0);
    assert ("名前" + digits)[2..] == digits;
    "名前" + digits
  }

  /**
   * Pad a short list with generated names up to n, cut a long one down to n, and leave
   * one of length n unchanged.
   */
  function NormalizeRoster(raw: seq<string>, n: nat): (names: seq<string>)
    ensures |names| == n
    ensures forall i :: 0 <= i < |raw| && i < n ==> names[i] == raw[i]
    ensures forall i :: |raw| <= i < n ==> names[i] == PadName(i)
  {
    if |raw| < n then raw + seq(n - |raw|, k requires 0 <= k => PadName(|raw| + k))
    else raw[..n]
  }

  /** The member list at lines 113-118: read the names text, then pad or truncate. */
  function RosterOf(nameInput: string, n: nat): (names: seq<string>)
    ensures |names| == n
  {
    NormalizeRoster(Lines(nameInput), n)
  }

  /** Normalising an already normalised roster changes nothing. */
  lemma NormalizeIdempotent(raw: seq<string>, n: nat)
    ensures NormalizeRoster(NormalizeRoster(raw, n), n) == NormalizeRoster(raw, n)
  {
  }

  /** The roster's first entries are the non-empty input lines, in order, stripped. */
  lemma RosterKeepsInput(nameInput: string, n: nat)
    ensures var raw := Lines(nameInput);
      forall i :: 0 <= i < |raw| && i < n ==> RosterOf(nameInput, n)[i] == raw[i] && IsClean(raw[i])
  {
    LinesAreClean(nameInput);
  }
}
