/**
 * cleanInput of pkg/handlers: lower-case a command line and split it into
 * whitespace-separated words; and strings.Join(args, ""), which the command
 * handlers use to rebuild a name from its words.
 */
module Input {

  /** The white-space characters of Latin-1 (`unicode.IsSpace` below U+0100). */
  predicate IsSpace(c: char)
  {
    c == ' ' || c == '\t' || c == '\n' || c == '\r' || c == '\U{000B}' || c == '\U{000C}'
    || c == '\U{0085}' || c == '\U{00A0}'
  }

  predicate IsUpper(c: char)
  {
    'A' <= c <= 'Z'
  }

  predicate NoSpace(w: string)
  {
    forall i :: 0 <= i < |w| ==> !IsSpace(w[i])
  }

  function LowerChar(c: char): char
  {
    if IsUpper(c) then (c as int + 32) as char else c
  }

  /** strings.ToLower, for ASCII letters. */
  function ToLower(s: string): (r: string)
    ensures |r| == |s|
    ensures forall i :: 0 <= i < |s| ==> !IsUpper(r[i]) && (IsSpace(r[i]) <==> IsSpace(s[i]))
    ensures forall i :: 0 <= i < |s| && !IsUpper(s[i]) ==> r[i] == s[i]
    ensures forall i :: 0 <= i < |s| && IsUpper(s[i]) ==> r[i] as int == s[i] as int + 32
  {
    if s == [] then [] else [LowerChar(s[0])] + ToLower(s[1..])
  }

  /** `s` without its leading white space. */
  function SkipSpaces(s: string): (r: string)
    ensures |r| <= |s|
    ensures r != [] ==> !IsSpace(r[0])
  {
    if s != [] && IsSpace(s[0]) then SkipSpaces(s[1..]) else s
  }

  /** The length of the longest prefix of `s` without white space. */
  function WordLength(s: string): (n: nat)
    ensures n <= |s|
    ensures s != [] && !IsSpace(s[0]) ==> n > 0
  {
    if s == [] || IsSpace(s[0]) then 0 else 1 + WordLength(s[1..])
  }

  /** What SkipSpaces drops is white space, and what it keeps is a suffix. */
  lemma {:induction false} SkipSpacesDropsBlanks(s: string)
    ensures SkipSpaces(s) == s[|s| - |SkipSpaces(s)|..]
    ensures forall i :: 0 <= i < |s| - |SkipSpaces(s)| ==> IsSpace(s[i])
    decreases |s|
  {
    if s != [] && IsSpace(s[0]) {
      SkipSpacesDropsBlanks(s[1..]);
    }
  }

  /** WordLength measures a run without white space that ends at white space or at the end. */
  lemma {:induction false} WordLengthIsWord(s: string)
    ensures NoSpace(s[..WordLength(s)])
    ensures WordLength(s) < |s| ==> IsSpace(s[WordLength(s)])
    decreases |s|
  {
    if !(s == [] || IsSpace(s[0])) {
      WordLengthIsWord(s[1..]);
      assert s[..WordLength(s)] == [s[0]] + s[1..][..WordLength(s[1..])];
    }
  }

  /** strings.Fields: the maximal runs of non-space characters, in order. */
  function Fields(s: string): (r: seq<string>)
    ensures WellFormedWords(r)
    decreases |s|
  {
    var t := SkipSpaces(s);
    if t == [] then [] else
      var n := WordLength(t);
      WordLengthIsWord(t);
      WellFormedCons(t[..n], Fields(t[n..]));
      [t[..n]] + Fields(t[n..])
  }

  lemma WellFormedCons(w: string, ws: seq<string>)
    requires w != [] && NoSpace(w) && WellFormedWords(ws)
    ensures WellFormedWords([w] + ws)
  {
    forall i | 0 <= i < |[w] + ws| ensures ([w] + ws)[i] != [] && NoSpace(([w] + ws)[i]) {
      if i > 0 { assert ([w] + ws)[i] == ws[i - 1]; }
    }
  }

  /** cleanInput: the lower-cased words of a command line; they are well formed and hold no upper-case ASCII letter. */
  function CleanInput(line: string): (r: seq<string>)
    ensures WellFormedWords(r)
    ensures forall i, j :: 0 <= i < |r| && 0 <= j < |r[i]| ==> !IsUpper(r[i][j])
  {
    FieldsAreLower(ToLower(line));
    Fields(ToLower(line))
  }

  /** strings.Join(words, ""): the words run together. */
  function Concat(words: seq<string>): string
  {
    if words == [] then "" else words[0] + Concat(words[1..])
  }

  /** Joining is compositional: joining two lists of words joins their joins. */
  lemma {:induction false} ConcatAppend(a: seq<string>, b: seq<string>)
    ensures Concat(a + b) == Concat(a) + Concat(b)
    decreases |a|
  {
    if a == [] {
      assert a + b == b;
    } else {
      assert (a + b)[0] == a[0];
      assert (a + b)[1..] == a[1..] + b;
      ConcatAppend(a[1..], b);
    }
  }

  /** The words separated by single blanks. */
  function Unwords(words: seq<string>): string
  {
    if |words| == 0 then ""
    else if |words| == 1 then words[0]
    else words[0] + " " + Unwords(words[1..])
  }

  /** `s` with every white-space character left out. */
  function RemoveSpaces(s: string): string
  {
    if s == [] then [] else (if IsSpace(s[0]) then [] else [s[0]]) + RemoveSpaces(s[1..])
  }

  predicate WellFormedWords(words: seq<string>)
  {
    forall i :: 0 <= i < |words| ==> words[i] != [] && NoSpace(words[i])
  }

  // ----- Lemmas -----

  lemma {:induction false} RemoveSpacesAppend(a: string, b: string)
    ensures RemoveSpaces(a + b) == RemoveSpaces(a) + RemoveSpaces(b)
    decreases |a|
  {
    if a == [] {
      assert a + b == b;
    } else {
      assert (a + b)[0] == a[0];
      assert (a + b)[1..] == a[1..] + b;
      RemoveSpacesAppend(a[1..], b);
    }
  }

  lemma {:induction false} RemoveSpacesOfWord(w: string)
    requires NoSpace(w)
    ensures RemoveSpaces(w) == w
    decreases |w|
  {
    if w != [] {
      RemoveSpacesOfWord(w[1..]);
    }
  }

  lemma {:induction false} RemoveSpacesOfBlanks(s: string)
    requires forall i :: 0 <= i < |s| ==> IsSpace(s[i])
    ensures RemoveSpaces(s) == []
    decreases |s|
  {
    if s != [] {
      RemoveSpacesOfBlanks(s[1..]);
    }
  }

  /** Fields loses exactly the white space: its words run together give the non-space characters. */
  lemma {:induction false} FieldsKeepsEveryOtherChar(s: string)
    ensures Concat(Fields(s)) == RemoveSpaces(s)
    decreases |s|
  {
    var t := SkipSpaces(s);
    SkipSpacesRemovesNothing(s);
    if t != [] {
      var n := WordLength(t);
      WordLengthIsWord(t);
      var w, rest := t[..n], t[n..];
      assert Fields(s) == [w] + Fields(rest);
      assert t == w + rest;
      RemoveSpacesAppend(w, rest);
      RemoveSpacesOfWord(w);
      FieldsKeepsEveryOtherChar(rest);
      assert Concat([w] + Fields(rest)) == w + Concat(Fields(rest)) by {
        assert ([w] + Fields(rest))[1..] == Fields(rest);
      }
      assert Concat(Fields(s)) == w + Concat(Fields(rest));
      assert RemoveSpaces(s) == RemoveSpaces(t);
      assert RemoveSpaces(t) == w + RemoveSpaces(rest);
    } else {
      assert Fields(s) == [];
    }
  }

  lemma SkipSpacesRemovesNothing(s: string)
    ensures RemoveSpaces(SkipSpaces(s)) == RemoveSpaces(s)
  {
    var t := SkipSpaces(s);
    SkipSpacesDropsBlanks(s);
    var skipped := s[..|s| - |t|];
    assert s == skipped + t;
    RemoveSpacesAppend(skipped, t);
    RemoveSpacesOfBlanks(skipped);
  }

  lemma {:induction false} WordLengthOfWord(w: string, rest: string)
    requires NoSpace(w)
    requires rest == [] || IsSpace(rest[0])
    ensures WordLength(w + rest) == |w|
    decreases |w|
  {
    if w != [] {
      assert (w + rest)[1..] == w[1..] + rest;
      WordLengthOfWord(w[1..], rest);
    }
  }

  lemma FieldsOfWord(w: string)
    requires w != [] && NoSpace(w)
    ensures Fields(w) == [w]
  {
    assert w + [] == w;
    WordLengthOfWord(w, []);
    assert SkipSpaces(w) == w;
    assert w[|w|..] == [];
    assert w[..|w|] == w;
  }

  lemma FieldsOfWordThen(w: string, rest: string)
    requires w != [] && NoSpace(w)
    ensures Fields(w + " " + rest) == [w] + Fields(rest)
  {
    var s := w + " " + rest;
    assert s == w + (" " + rest);
    WordLengthOfWord(w, " " + rest);
    assert SkipSpaces(s) == s;
    assert s[|w|..] == " " + rest;
    assert s[..|w|] == w;
    assert SkipSpaces(" " + rest) == SkipSpaces(rest) by {
      assert (" " + rest)[1..] == rest;
    }
    assert Fields(" " + rest) == Fields(rest);
  }

  lemma WellFormedTail(words: seq<string>)
    requires |words| > 0 && WellFormedWords(words)
    ensures WellFormedWords(words[1..])
  {
    forall i | 0 <= i < |words| - 1 ensures words[1..][i] != [] && NoSpace(words[1..][i]) {
      assert words[1..][i] == words[i + 1];
    }
  }

  /** Splitting well-formed words joined by blanks gives the words back. */
  lemma {:induction false} FieldsOfUnwords(words: seq<string>)
    requires WellFormedWords(words)
    ensures Fields(Unwords(words)) == words
    decreases |words|
  {
    if |words| == 1 {
      FieldsOfWord(words[0]);
    } else if |words| > 1 {
      WellFormedTail(words);
      FieldsOfUnwords(words[1..]);
      var w, tail := words[0], words[1..];
      assert Unwords(words) == w + " " + Unwords(tail);
      FieldsOfWordThen(w, Unwords(tail));
      assert Fields(Unwords(words)) == [w] + tail;
      assert [w] + tail == words;
    }
  }

  /** A string of white space only has no words. */
  lemma FieldsOfBlanks(s: string)
    requires forall i :: 0 <= i < |s| ==> IsSpace(s[i])
    ensures Fields(s) == []
  {
    SkipSpacesDropsBlanks(s);
  }

  lemma FieldsSpaceLead(c: char, x: string)
    requires IsSpace(c)
    ensures Fields([c] + x) == Fields(x)
  {
    assert ([c] + x)[1..] == x;
    assert SkipSpaces([c] + x) == SkipSpaces(x);
  }

  lemma {:induction false} SkipSpacesAppend(a: string, x: string)
    requires SkipSpaces(a) != []
    ensures SkipSpaces(a + x) == SkipSpaces(a) + x
    decreases |a|
  {
    assert (a + x)[0] == a[0];
    if IsSpace(a[0]) {
      assert (a + x)[1..] == a[1..] + x;
      SkipSpacesAppend(a[1..], x);
    }
  }

  lemma {:induction false} SkipSpacesAppendBlank(a: string, x: string)
    requires SkipSpaces(a) == []
    ensures SkipSpaces(a + x) == SkipSpaces(x)
    decreases |a|
  {
    if a == [] {
      assert a + x == x;
    } else {
      assert (a + x)[0] == a[0];
      assert (a + x)[1..] == a[1..] + x;
      SkipSpacesAppendBlank(a[1..], x);
    }
  }

  lemma {:induction false} WordLengthAppend(t: string, x: string)
    requires WordLength(t) < |t|
    ensures WordLength(t + x) == WordLength(t)
    decreases |t|
  {
    assert (t + x)[0] == t[0];
    if !IsSpace(t[0]) {
      assert (t + x)[1..] == t[1..] + x;
      WordLengthAppend(t[1..], x);
    }
  }

  /** Fields starts from the first non-space character, with the longest word found there. */
  lemma FieldsUnfold(s: string, t: string, n: nat)
    requires t == SkipSpaces(s) && t != [] && n == WordLength(t)
    ensures Fields(s) == [t[..n]] + Fields(t[n..])
  {
  }

  /** Words break at every white-space character: Fields splits there into the words of each side. */
  lemma {:induction false} FieldsSplitAtSpace(a: string, c: char, b: string)
    requires IsSpace(c)
    ensures Fields(a + [c] + b) == Fields(a) + Fields(b)
    decreases |a|
  {
    var cb := [c] + b;
    assert a + [c] + b == a + cb;
    var t := SkipSpaces(a);
    FieldsSpaceLead(c, b);
    if t == [] {
      SkipSpacesAppendBlank(a, cb);
      assert Fields(a + cb) == Fields(cb);
      assert Fields(a) == [];
    } else {
      SkipSpacesAppend(a, cb);
      SkipSpacesDropsBlanks(a);
      var n := WordLength(t);
      if n < |t| {
        FieldsSplitAtSpace(t[n..], c, b);
        assert t[n..] + [c] + b == t[n..] + cb;
        FieldsSplitInsideWord(a, t, n, c, b);
      } else {
        FieldsSplitAfterWord(a, t, n, c, b);
      }
    }
  }

  lemma SliceAppend(t: string, x: string, n: nat)
    requires n <= |t|
    ensures (t + x)[..n] == t[..n] && (t + x)[n..] == t[n..] + x
  {
  }

  lemma FieldsSplitInsideWord(a: string, t: string, n: nat, c: char, b: string)
    requires t == SkipSpaces(a) && t != [] && n == WordLength(t) && n < |t|
    requires SkipSpaces(a + ([c] + b)) == t + ([c] + b)
    requires Fields(t[n..] + ([c] + b)) == Fields(t[n..]) + Fields(b)
    ensures Fields(a + ([c] + b)) == Fields(a) + Fields(b)
  {
    var cb := [c] + b;
    WordLengthAppend(t, cb);
    SliceAppend(t, cb, n);
    FieldsUnfold(a + cb, t + cb, n);
    FieldsUnfold(a, t, n);
    assert [t[..n]] + (Fields(t[n..]) + Fields(b)) == ([t[..n]] + Fields(t[n..])) + Fields(b);
  }

  lemma FieldsSplitAfterWord(a: string, t: string, n: nat, c: char, b: string)
    requires t == SkipSpaces(a) && t != [] && n == WordLength(t) && n == |t|
    requires SkipSpaces(a + ([c] + b)) == t + ([c] + b)
    requires IsSpace(c)
    ensures Fields(a + [c] + b) == Fields(a) + Fields(b)
  {
    var cb := [c] + b;
    assert a + [c] + b == a + cb;
    WordLengthIsWord(t);
    assert t[..n] == t;
    WordLengthOfWord(t, cb);
    assert (t + cb)[..n] == t;
    assert (t + cb)[n..] == cb;
    FieldsUnfold(a + cb, t + cb, n);
    FieldsUnfold(a, t, n);
    assert t[n..] == [];
    FieldsSpaceLead(c, b);
  }

  lemma {:induction false} ToLowerAppend(a: string, b: string)
    ensures ToLower(a + b) == ToLower(a) + ToLower(b)
    decreases |a|
  {
    if a == [] {
      assert a + b == b;
    } else {
      assert (a + b)[0] == a[0];
      assert (a + b)[1..] == a[1..] + b;
      ToLowerAppend(a[1..], b);
    }
  }

  /**
   * cleanInput's words together hold every non-space character of the
   * lower-cased line; a line of white space has no words, and a line without
   * white space is one word, the line lower-cased.
   */
  lemma CleanInputWords(line: string)
    ensures Concat(CleanInput(line)) == RemoveSpaces(ToLower(line))
    ensures (forall i :: 0 <= i < |line| ==> IsSpace(line[i])) ==> CleanInput(line) == []
    ensures line != [] && NoSpace(line) ==> CleanInput(line) == [ToLower(line)]
  {
    FieldsKeepsEveryOtherChar(ToLower(line));
    CleanInputOfBlanks(line);
    CleanInputOfWord(line);
  }

  lemma CleanInputOfBlanks(line: string)
    ensures (forall i :: 0 <= i < |line| ==> IsSpace(line[i])) ==> CleanInput(line) == []
  {
    if forall i :: 0 <= i < |line| ==> IsSpace(line[i]) {
      FieldsOfBlanks(ToLower(line));
    }
  }

  lemma CleanInputOfWord(line: string)
    ensures line != [] && NoSpace(line) ==> CleanInput(line) == [ToLower(line)]
  {
    if line != [] && NoSpace(line) {
      FieldsOfWord(ToLower(line));
    }
  }

  /** cleanInput breaks the line at every white-space character. */
  lemma CleanInputSplitsAtSpace(line: string, k: nat)
    requires k < |line| && IsSpace(line[k])
    ensures CleanInput(line) == CleanInput(line[..k]) + CleanInput(line[k + 1..])
  {
    var a, c, b := line[..k], line[k], line[k + 1..];
    assert line == a + ([c] + b);
    ToLowerAppend(a, [c] + b);
    ToLowerAppend([c], b);
    assert ToLower([c]) == [c];
    assert ToLower(line) == ToLower(a) + [c] + ToLower(b);
    FieldsSplitAtSpace(ToLower(a), c, ToLower(b));
  }

  lemma {:induction false} FieldsAreLower(s: string)
    requires forall i :: 0 <= i < |s| ==> !IsUpper(s[i])
    ensures forall i, j :: 0 <= i < |Fields(s)| && 0 <= j < |Fields(s)[i]| ==> !IsUpper(Fields(s)[i][j])
    decreases |s|
  {
    var t := SkipSpaces(s);
    SkipSpacesDropsBlanks(s);
    if t != [] {
      var n := WordLength(t);
      FieldsAreLower(t[n..]);
      var ws := Fields(s);
      assert ws == [t[..n]] + Fields(t[n..]);
      forall i, j | 0 <= i < |ws| && 0 <= j < |ws[i]| ensures !IsUpper(ws[i][j]) {
        if i > 0 { assert ws[i] == Fields(t[n..])[i - 1]; }
      }
    }
  }

  /**
   * The name the handlers rebuild with strings.Join(words, "") does not depend
   * on where white space splits the line: joining the words of the whole line
   * joins the words of the part before a blank with those of the part after.
   */
  lemma JoinedWordsIgnoreSpacing(line: string, k: nat)
    requires k < |line| && IsSpace(line[k])
    ensures Concat(CleanInput(line)) == Concat(CleanInput(line[..k])) + Concat(CleanInput(line[k + 1..]))
  {
    CleanInputSplitsAtSpace(line, k);
    ConcatAppend(CleanInput(line[..k]), CleanInput(line[k + 1..]));
  }
}
