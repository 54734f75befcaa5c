/**
 * Canonical form of a user sentence and the cache key derived from it
 * (app/cache_utils.py).  The canonical form is: lower-case, every character
 * that is neither a word character nor whitespace replaced by a space, every
 * maximal run of digits replaced by the placeholder "<NUM>", split on
 * whitespace, the stop-words "please", "kindly" and "just" dropped, the rest
 * joined with single spaces.
 */
module Canonical {
  import opened Text

  const StopWords: set<string> := {"please", "kindly", "just"}
  const NumToken: string := "<NUM>"

  /** `re.sub(r"[^\w\s]", " ", text)`. */
  function PunctToSpace(s: string): (r: string)
    ensures |r| == |s|
    ensures forall i | 0 <= i < |s| :: r[i] == (if IsWord(s[i]) || IsSpace(s[i]) then s[i] else ' ')
  {
    if s == [] then []
    else [if IsWord(s[0]) || IsSpace(s[0]) then s[0] else ' '] + PunctToSpace(s[1..])
  }

  /** Length of the run of digits that starts at `i`. */
  function DigitRun(s: string, i: nat): (n: nat)
    requires i <= |s|
    ensures i + n <= |s|
    ensures forall k | i <= k < i + n :: IsDigit(s[k])
    ensures i + n == |s| || !IsDigit(s[i + n])
    decreases |s| - i
  {
    if i == |s| || !IsDigit(s[i]) then 0 else 1 + DigitRun(s, i + 1)
  }

  /** `re.sub(r"\d+", "<NUM>", text)`: each maximal digit run becomes one placeholder. */
  function NumRuns(s: string): (r: string)
    decreases |s|
  {
    if s == [] then []
    else if IsDigit(s[0]) then NumToken + NumRuns(s[DigitRun(s, 0)..])
    else [s[0]] + NumRuns(s[1..])
  }

  /** The filtering comprehension: tokens that are not stop-words, in order. */
  function DropStopWords(ws: seq<string>): (r: seq<string>)
    ensures forall w <- r :: w in ws && w !in StopWords
    ensures forall w <- ws | w !in StopWords :: w in r
  {
    if ws == [] then []
    else if ws[0] in StopWords then DropStopWords(ws[1..])
    else [ws[0]] + DropStopWords(ws[1..])
  }

  /** The filter keeps order: it acts on each word on its own, keeping it
      exactly when it is not a stop-word. */
  lemma {:induction false} DropStopWordsAppend(a: seq<string>, b: seq<string>)
    ensures DropStopWords(a + b) == DropStopWords(a) + DropStopWords(b)
    decreases |a|
  {
    if a == [] {
      assert a + b == b;
    } else {
      assert (a + b)[0] == a[0];
      assert (a + b)[1..] == a[1..] + b;
      DropStopWordsAppend(a[1..], b);
    }
  }

  lemma DropStopWordsOne(w: string)
    ensures DropStopWords([w]) == if w in StopWords then [] else [w]
  {
    assert [w][1..] == [];
  }

  /** A run of digits starting at `i` of `a + b` ends inside `a` when it does
      there, and otherwise runs on into `b`. */
  lemma {:induction false} DigitRunAppend(a: string, b: string, i: nat)
    requires i <= |a|
    ensures DigitRun(a + b, i) ==
      if i + DigitRun(a, i) == |a| then |a| - i + DigitRun(b, 0) else DigitRun(a, i)
    decreases |a| - i
  {
    if i < |a| {
      assert (a + b)[i] == a[i];
      if IsDigit(a[i]) {
        DigitRunAppend(a, b, i + 1);
      }
    } else {
      DigitRunShift(a, b, 0);
    }
  }

  lemma {:induction false} DigitRunShift(a: string, b: string, k: nat)
    requires k <= |b|
    ensures DigitRun(a + b, |a| + k) == DigitRun(b, k)
    decreases |b| - k
  {
    if k < |b| {
      assert (a + b)[|a| + k] == b[k];
      DigitRunShift(a, b, k + 1);
    }
  }

  /** The substitution distributes over a cut that does not fall inside a
      run of digits. */
  lemma {:induction false} NumRunsAppend(a: string, b: string)
    requires a == [] || b == [] || !IsDigit(a[|a| - 1]) || !IsDigit(b[0])
    ensures NumRuns(a + b) == NumRuns(a) + NumRuns(b)
    decreases |a|
  {
    if a == [] {
      assert a + b == b;
    } else if !IsDigit(a[0]) {
      NumRunsAppend(a[1..], b);
      NumRunsStepChar(a, b);
    } else if DigitRun(a, 0) < |a| {
      NumRunsAppend(a[DigitRun(a, 0)..], b);
      NumRunsStepRun(a, b);
    } else {
      NumRunsStepAll(a, b);
    }
  }

  lemma NumRunsStepChar(a: string, b: string)
    requires a != [] && !IsDigit(a[0])
    requires NumRuns(a[1..] + b) == NumRuns(a[1..]) + NumRuns(b)
    ensures NumRuns(a + b) == NumRuns(a) + NumRuns(b)
  {
    var s := a + b;
    assert s[0] == a[0];
    assert s[1..] == a[1..] + b;
  }

  lemma NumRunsStepRun(a: string, b: string)
    requires a != [] && IsDigit(a[0]) && DigitRun(a, 0) < |a|
    requires NumRuns(a[DigitRun(a, 0)..] + b) == NumRuns(a[DigitRun(a, 0)..]) + NumRuns(b)
    ensures NumRuns(a + b) == NumRuns(a) + NumRuns(b)
  {
    var s := a + b;
    var d := DigitRun(a, 0);
    assert s[0] == a[0];
    DigitRunAppend(a, b, 0);
    assert s[d..] == a[d..] + b;
  }

  lemma NumRunsStepAll(a: string, b: string)
    requires a != [] && IsDigit(a[0]) && DigitRun(a, 0) == |a|
    requires b == [] || !IsDigit(a[|a| - 1]) || !IsDigit(b[0])
    ensures NumRuns(a + b) == NumRuns(a) + NumRuns(b)
  {
    var s := a + b;
    assert s[0] == a[0];
    DigitRunAppend(a, b, 0);
    assert IsDigit(a[|a| - 1]);
    assert DigitRun(b, 0) == 0;
    assert s[|a|..] == b;
    assert a[|a|..] == [];
  }

  lemma {:induction false} DigitRunAll(d: string, i: nat)
    requires i <= |d| && forall c <- d :: IsDigit(c)
    ensures DigitRun(d, i) == |d| - i
    decreases |d| - i
  {
    if i < |d| {
      assert d[i] in d;
      DigitRunAll(d, i + 1);
    }
  }

  /** A maximal run of digits becomes one placeholder. */
  lemma NumRunsDigits(d: string)
    requires d != [] && forall c <- d :: IsDigit(c)
    ensures NumRuns(d) == NumToken
  {
    assert d[0] in d;
    DigitRunAll(d, 0);
    assert d[|d|..] == [];
  }

  /** Text without digits is left as it is. */
  lemma {:induction false} NumRunsNoDigits(s: string)
    requires forall c <- s :: !IsDigit(c)
    ensures NumRuns(s) == s
    decreases |s|
  {
    if s != [] {
      assert s[0] in s;
      assert forall c <- s[1..] :: c in s;
      NumRunsNoDigits(s[1..]);
    }
  }

  /** `_canonicalize`. */
  function Canonicalize(text: string): string {
    Join(DropStopWords(Split(NumRuns(PunctToSpace(Lower(text))))))
  }

  /** `_key`: a stable hash of the canonical form.  The digest function is a
      parameter; nothing is assumed about it beyond being a function. */
  function Key(hash: string -> string, text: string): string {
    hash(Canonicalize(text))
  }

  /** The key depends on the text only through its canonical form. */
  lemma KeyThroughCanonical(hash: string -> string, a: string, b: string)
    requires Canonicalize(a) == Canonicalize(b)
    ensures Key(hash, a) == Key(hash, b)
  {
  }

  /** No digit survives the placeholder substitution, and every other
      character of the result comes from the input or from the placeholder. */
  lemma {:induction false} NumRunsChars(s: string)
    ensures forall c <- NumRuns(s) :: !IsDigit(c)
    ensures forall c <- NumRuns(s) :: c in s || c in NumToken
    decreases |s|
  {
    if s != [] {
      var rest := if IsDigit(s[0]) then s[DigitRun(s, 0)..] else s[1..];
      NumRunsChars(rest);
      forall c <- rest ensures c in s {
        var k :| 0 <= k < |rest| && rest[k] == c;
        assert s[|s| - |rest| + k] == c;
      }
      assert s[0] in s;
    }
  }

  lemma CanonicalTokens(text: string)
    ensures forall w <- DropStopWords(Split(NumRuns(PunctToSpace(Lower(text))))) :: Token(w) && w !in StopWords
  {
    SplitChars(NumRuns(PunctToSpace(Lower(text))));
  }

  /** The canonical form contains no ASCII digit. */
  lemma CanonicalNoDigit(text: string)
    ensures forall c <- Canonicalize(text) :: !IsDigit(c)
  {
    var s := NumRuns(PunctToSpace(Lower(text)));
    NumRunsChars(PunctToSpace(Lower(text)));
    SplitChars(s);
    var ws := DropStopWords(Split(s));
    JoinChars(ws, c => !IsDigit(c));
  }

  /** The canonical form is tokens separated by single spaces, with no
      leading or trailing space. */
  lemma CanonicalWellSpaced(text: string)
    ensures WellSpaced(Canonicalize(text))
  {
    CanonicalTokens(text);
    JoinWellSpaced(DropStopWords(Split(NumRuns(PunctToSpace(Lower(text))))));
  }

  /** No token of the canonical form is a stop-word. */
  lemma CanonicalNoStopWords(text: string)
    ensures forall w <- Split(Canonicalize(text)) :: w !in StopWords
  {
    var ws := DropStopWords(Split(NumRuns(PunctToSpace(Lower(text)))));
    CanonicalTokens(text);
    SplitJoin(ws);
  }

  lemma {:induction false} NumRunsAllSpace(s: string)
    requires AllSpace(s)
    ensures NumRuns(s) == s
    decreases |s|
  {
    if s != [] {
      assert s[0] in s;
      assert forall c <- s[1..] :: c in s;
      NumRunsAllSpace(s[1..]);
    }
  }

  lemma {:induction false} SplitAllSpace(s: string)
    requires AllSpace(s)
    ensures Split(s) == []
    decreases |s|
  {
    if s != [] {
      assert s[0] in s;
      assert forall c <- s[1..] :: c in s;
      SplitAllSpace(s[1..]);
    }
  }

  /** Empty or whitespace-only text canonicalizes to the empty string. */
  lemma CanonicalBlank(text: string)
    requires AllSpace(text)
    ensures Canonicalize(text) == ""
  {
    var t := PunctToSpace(Lower(text));
    forall c <- t ensures IsSpace(c) {
      var k :| 0 <= k < |t| && t[k] == c;
      assert text[k] in text;
    }
    NumRunsAllSpace(t);
    SplitAllSpace(t);
  }

  lemma CanonicalOne()
    ensures Canonicalize("1") == "<NUM>"
  {
    assert Lower("1") == "1";
    assert PunctToSpace("1") == "1";
    assert DigitRun("1", 0) == 1;
    assert NumRuns("1") == "<NUM>";
    assert Token("<NUM>");
    SplitToken("<NUM>", []);
    assert "<NUM>" + [] == "<NUM>";
  }

  lemma PlaceholderLower()
    ensures Lower("<NUM>") == "<num>"
  {
    var s := "<NUM>";
    assert Lower(s)[1] == 'n' && Lower(s)[2] == 'u' && Lower(s)[3] == 'm';
  }

  lemma PlaceholderPunct()
    ensures PunctToSpace("<num>") == " num "
  {
  }

  lemma PlaceholderNumRuns()
    ensures NumRuns(" num ") == " num "
  {
    assert NumRuns(" ") == " ";
    assert NumRuns("m ") == "m ";
    assert NumRuns("um ") == "um ";
    assert NumRuns("num ") == "num ";
  }

  lemma PlaceholderSplit()
    ensures Split(" num ") == ["num"]
  {
    assert Split(" ") == [];
    assert Token("num");
    SplitToken("num", " ");
    SplitLeadingSpace("num ");
    assert " " + ("num" + " ") == " num ";
  }

  lemma CanonicalPlaceholder()
    ensures Canonicalize("<NUM>") == "num"
  {
    assert Split(NumRuns(PunctToSpace(Lower("<NUM>")))) == ["num"] by {
      PlaceholderLower();
      PlaceholderPunct();
      PlaceholderNumRuns();
      PlaceholderSplit();
    }
    assert DropStopWords(["num"]) == ["num"] by {
      assert "num" !in StopWords;
    }
  }

  /** Canonicalization is not idempotent: "1" becomes "<NUM>", whose
      brackets are punctuation that a second pass turns into spaces. */
  lemma CanonicalNotIdempotent()
    ensures Canonicalize(Canonicalize("1")) != Canonicalize("1")
  {
    CanonicalOne();
    CanonicalPlaceholder();
  }
}
