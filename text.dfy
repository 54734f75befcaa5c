/**
 * Character classes and the few string primitives of Python's `str` and `re`
 * that the core relies on: `lower`, `strip`, `split` (on whitespace) and
 * `" ".join`.  Classes are exact on the ASCII range; code points above 0x7F
 * are treated as word characters that are neither digits nor whitespace and
 * have no case mapping.
 */
module Text {
  import opened Base

  /** Python's whitespace (`str.isspace`, `\s` of `re`) on ASCII:
      tab, newline, vertical tab, form feed, carriage return, 0x1C-0x1F, space. */
  predicate IsSpace(c: char) {
    ('\t' <= c <= '\r') || ('\U{1C}' <= c <= ' ')
  }

  predicate IsDigit(c: char) {
    '0' <= c <= '9'
  }

  /** `\w`: letters, digits and underscore. */
  predicate IsWord(c: char) {
    ('a' <= c <= 'z') || ('A' <= c <= 'Z') || IsDigit(c) || c == '_' || c > '\U{7F}'
  }

  function LowerChar(c: char): (r: char)
    ensures !('A' <= r <= 'Z')
    ensures IsWord(r) == IsWord(c) && IsSpace(r) == IsSpace(c) && IsDigit(r) == IsDigit(c)
  {
    if 'A' <= c <= 'Z' then (c as int + 32) as char else c
  }

  /** `str.lower()`. */
  function Lower(s: string): (r: string)
    ensures |r| == |s|
    ensures forall i | 0 <= i < |s| :: r[i] == LowerChar(s[i])
  {
    seq(|s|, i requires 0 <= i < |s| => LowerChar(s[i]))
  }

  lemma LowerIdempotent(s: string)
    ensures Lower(Lower(s)) == Lower(s)
  {
    assert forall i | 0 <= i < |s| :: LowerChar(LowerChar(s[i])) == LowerChar(s[i]);
  }

  /** The lower-case word `w` occurs at position `i`, ignoring case. */
  predicate LitAt(s: string, i: nat, w: string)
    decreases |w|
  {
    i <= |s| && (|w| == 0 || (i < |s| && LowerChar(s[i]) == w[0] && LitAt(s, i + 1, w[1..])))
  }

  lemma {:induction false} LitAtBounds(s: string, i: nat, w: string)
    requires LitAt(s, i, w)
    ensures i + |w| <= |s|
    ensures forall k | 0 <= k < |w| :: LowerChar(s[i + k]) == w[k]
    decreases |w|
  {
    if |w| > 0 {
      LitAtBounds(s, i + 1, w[1..]);
      forall k | 0 <= k < |w| ensures LowerChar(s[i + k]) == w[k] {
        if k > 0 {
          assert w[1..][k - 1] == w[k];
        }
      }
    }
  }

  predicate AllSpace(s: string) {
    forall c <- s :: IsSpace(c)
  }

  predicate NoNewline(s: string, i: int, j: int)
    requires 0 <= i <= j <= |s|
  {
    forall k | i <= k < j :: s[k] != '\n'
  }

  /** The leftmost position from `p` up to `n` at which `ok` holds: where
      `re.search` finds a pattern that `ok` matches. */
  function Leftmost(n: nat, p: nat, ok: nat -> bool): (r: Option<nat>)
    requires p <= n
    ensures r.Some? ==> p <= r.value <= n && ok(r.value)
    ensures r.Some? ==> forall q | p <= q < r.value :: !ok(q)
    ensures r.None? ==> forall q | p <= q <= n :: !ok(q)
    decreases n - p
  {
    if ok(p) then Some(p)
    else if p == n then None
    else Leftmost(n, p + 1, ok)
  }

  /** Length of the run of whitespace that starts at `i`. */
  function SpaceRun(s: string, i: nat): (n: nat)
    requires i <= |s|
    ensures i + n <= |s|
    ensures forall k | i <= k < i + n :: IsSpace(s[k])
    ensures i + n == |s| || !IsSpace(s[i + n])
    decreases |s| - i
  {
    if i == |s| || !IsSpace(s[i]) then 0 else 1 + SpaceRun(s, i + 1)
  }

  /** Length of the run of whitespace that ends the string. */
  function TrailingSpaces(s: string): (n: nat)
    ensures n <= |s|
    ensures forall k | |s| - n <= k < |s| :: IsSpace(s[k])
    ensures n == |s| || !IsSpace(s[|s| - n - 1])
  {
    if s == [] || !IsSpace(s[|s| - 1]) then 0 else 1 + TrailingSpaces(s[..|s| - 1])
  }

  /** `str.strip()`: drop leading and trailing whitespace, and nothing else. */
  function Strip(s: string): (r: string)
    ensures r == [] || (!IsSpace(r[0]) && !IsSpace(r[|r| - 1]))
    ensures r == [] <==> AllSpace(s)
    ensures exists i, j | 0 <= i <= j <= |s| :: r == s[i..j] && AllSpace(s[..i]) && AllSpace(s[j..])
  {
    var a := SpaceRun(s, 0);
    if a == |s| then
      assert s[0..0] == [] && s[..0] == [] && s[0..] == s;
      assert AllSpace(s) by {
        forall c <- s ensures IsSpace(c) {
          var k :| 0 <= k < |s| && s[k] == c;
        }
      }
      []
    else
      var b := |s| - TrailingSpaces(s);
      assert !IsSpace(s[a]) && a < b;
      assert AllSpace(s[..a]) by {
        forall c <- s[..a] ensures IsSpace(c) {
          var k :| 0 <= k < a && s[..a][k] == c;
        }
      }
      assert AllSpace(s[b..]) by {
        forall c <- s[b..] ensures IsSpace(c) {
          var k :| 0 <= k < |s| - b && s[b..][k] == c;
          assert s[b + k] == c;
        }
      }
      s[a..b]
  }

  /** A token of `str.split()`: non-empty, without whitespace. */
  predicate Token(w: string) {
    w != [] && forall c <- w :: !IsSpace(c)
  }

  /** `str.split()` with no separator: the maximal runs of non-whitespace,
      built from the left one character at a time (a character that is not
      whitespace starts a token or extends the one that follows it). */
  function Split(s: string): (r: seq<string>)
    ensures s != [] && !IsSpace(s[0]) ==> r != []
    decreases |s|
  {
    if s == [] then []
    else if IsSpace(s[0]) then Split(s[1..])
    else
      var rest := Split(s[1..]);
      if |s| > 1 && !IsSpace(s[1]) then [[s[0]] + rest[0]] + rest[1..]
      else [[s[0]]] + rest
  }

  /** `" ".join(ws)`. */
  function Join(ws: seq<string>): string {
    if |ws| == 0 then ""
    else if |ws| == 1 then ws[0]
    else ws[0] + " " + Join(ws[1..])
  }

  /** A string made of tokens separated by single spaces: no leading or
      trailing space, no two spaces in a row, and no whitespace but ' '. */
  predicate WellSpaced(s: string) {
    && (s != [] ==> s[0] != ' ' && s[|s| - 1] != ' ')
    && (forall i | 0 <= i < |s| - 1 :: !(s[i] == ' ' && s[i + 1] == ' '))
    && (forall c <- s :: IsSpace(c) ==> c == ' ')
  }

  lemma TokenAt(w: string, i: int)
    requires Token(w) && 0 <= i < |w|
    ensures !IsSpace(w[i])
  {
    assert w[i] in w;
  }

  lemma {:induction false} JoinWellSpaced(ws: seq<string>)
    requires forall w <- ws :: Token(w)
    ensures WellSpaced(Join(ws))
    ensures Join(ws) == [] <==> ws == []
    decreases |ws|
  {
    if |ws| > 1 {
      assert ws[0] in ws;
      var w := ws[0];
      var rest := Join(ws[1..]);
      JoinWellSpaced(ws[1..]);
      var s := w + " " + rest;
      assert Join(ws) == s;
      var n := |w|;
      TokenAt(w, 0);
      assert s[|s| - 1] == rest[|rest| - 1];
      forall i | 0 <= i < |s| - 1
        ensures !(s[i] == ' ' && s[i + 1] == ' ')
      {
        if i < n {
          TokenAt(w, i);
          assert s[i] == w[i];
        } else {
          assert s[i + 1] == rest[i - n];
          if i > n {
            assert s[i] == rest[i - n - 1];
          }
        }
      }
      forall k | 0 <= k < |s| && IsSpace(s[k])
        ensures s[k] == ' '
      {
        if k > n {
          assert s[k] == rest[k - n - 1] && rest[k - n - 1] in rest;
        }
      }
    } else if |ws| == 1 {
      assert ws[0] in ws;
      var w := ws[0];
      forall k | 0 <= k < |w| ensures !IsSpace(w[k]) {
        TokenAt(w, k);
      }
    }
  }

  lemma SplitLeadingSpace(s: string)
    ensures Split(" " + s) == Split(s)
  {
    assert (" " + s)[1..] == s;
  }

  /** A token followed by nothing or by whitespace is split off whole. */
  lemma {:induction false} SplitToken(w: string, rest: string)
    requires Token(w)
    requires rest == [] || IsSpace(rest[0])
    ensures Split(w + rest) == [w] + Split(rest)
    decreases |w|
  {
    var s := w + rest;
    assert s[1..] == w[1..] + rest;
    assert w[0] in w;
    if |w| > 1 {
      assert w[1] in w;
      assert forall c <- w[1..] :: c in w;
      SplitToken(w[1..], rest);
      assert s[1] == w[1];
      assert [w[0]] + w[1..] == w;
    } else {
      assert w == [w[0]];
    }
  }

  /** Splitting a join of tokens gives the tokens back. */
  lemma {:induction false} SplitJoin(ws: seq<string>)
    requires forall w <- ws :: Token(w)
    ensures Split(Join(ws)) == ws
    decreases |ws|
  {
    if |ws| == 1 {
      assert ws[0] in ws;
      SplitToken(ws[0], []);
      assert ws[0] + [] == ws[0];
    } else if |ws| > 1 {
      var w := ws[0];
      assert w in ws;
      var rest := " " + Join(ws[1..]);
      assert Join(ws) == w + rest;
      SplitToken(w, rest);
      SplitLeadingSpace(Join(ws[1..]));
      SplitJoin(ws[1..]);
      assert ws == [w] + ws[1..];
    }
  }

  /** Every piece `Split` yields is a token made of characters of `s`. */
  lemma {:induction false} SplitChars(s: string)
    ensures forall w <- Split(s) :: Token(w)
    ensures forall w <- Split(s), c <- w :: c in s
    decreases |s|
  {
    if s != [] {
      SplitChars(s[1..]);
      assert forall c <- s[1..] :: c in s;
      if !IsSpace(s[0]) && |s| > 1 && !IsSpace(s[1]) {
        var rest := Split(s[1..]);
        assert rest[0] in rest;
        assert forall w <- rest[1..] :: w in rest;
        var h := [s[0]] + rest[0];
        forall c <- h ensures c in s && !IsSpace(c) {
          if c != s[0] {
            assert c in rest[0];
          }
        }
      }
    }
  }

  /** A property of characters that holds of ' ' and of every character of
      every token holds of every character of the join. */
  lemma {:induction false} JoinChars(ws: seq<string>, P: char -> bool)
    requires P(' ')
    requires forall w <- ws, c <- w :: P(c)
    ensures forall c <- Join(ws) :: P(c)
    decreases |ws|
  {
    if |ws| > 1 {
      JoinChars(ws[1..], P);
      assert ws[0] in ws;
      var s := ws[0] + " " + Join(ws[1..]);
      forall c <- s ensures P(c) {
        var k :| 0 <= k < |s| && s[k] == c;
        if k < |ws[0]| {
          assert ws[0][k] in ws[0];
        } else if k > |ws[0]| {
          assert Join(ws[1..])[k - |ws[0]| - 1] in Join(ws[1..]);
        }
      }
    } else if |ws| == 1 {
      assert ws[0] in ws;
    }
  }
}
