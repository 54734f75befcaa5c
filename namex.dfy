/**
 * `extract_name_from_canonical` of app/nlp.py: the restaurant name inside a
 * wishlist command such as "add Luigi's Pizza to my wishlist".  Its regular
 * expressions are case-insensitive and have no word boundaries; each is
 * written out here as a scan over the text that follows the backtracking
 * order of the regular expression engine (leftmost start, greedy `\s+`,
 * lazy `.*?`, alternatives in the order written).
 */
module NameExtraction {
  import opened Base
  import opened Text

  /** `(wishlist|list|saved list)` at `k`: the length matched, 0 for none. */
  function ListWordLen(s: string, k: nat): (n: nat)
    requires k <= |s|
    ensures (n == 0 || n == 4 || n == 8 || n == 10) && k + n <= |s|
  {
    if LitAt(s, k, "wishlist") then
      LitAtBounds(s, k, "wishlist");
      8
    else if LitAt(s, k, "list") then
      LitAtBounds(s, k, "list");
      4
    else if LitAt(s, k, "saved list") then
      LitAtBounds(s, k, "saved list");
      10
    else 0
  }

  /** `(to|from)` at `i`: the length matched, 0 for none. */
  function LeadLen(s: string, i: nat): (n: nat)
    requires i <= |s|
    ensures (n == 0 || n == 2 || n == 4) && i + n <= |s|
  {
    if LitAt(s, i, "to") then
      LitAtBounds(s, i, "to");
      2
    else if LitAt(s, i, "from") then
      LitAtBounds(s, i, "from");
      4
    else 0
  }

  /** `my\s+` at `k`: the length matched, 0 for none.  The `\s+` is
      followed by a letter, so it takes the whole run of whitespace. */
  function MyLen(s: string, k: nat): (n: nat)
    requires k <= |s|
    ensures k + n <= |s|
  {
    if LitAt(s, k, "my") then
      LitAtBounds(s, k, "my");
      var g := SpaceRun(s, k + 2);
      if g == 0 then 0 else 2 + g
    else 0
  }

  /** `(to|from)\s+(my\s+)?(wishlist|list|saved list)` at `i`: the length of
      the match, if there is one. */
  function ListRefLen(s: string, i: nat): (r: Option<nat>)
    requires i <= |s|
    ensures r.Some? ==> 0 < r.value && i + r.value <= |s|
  {
    var t := LeadLen(s, i);
    if t == 0 then None
    else
      var gap := SpaceRun(s, i + t);
      if gap == 0 then None
      else
        var k := i + t + gap;
        var m := MyLen(s, k);
        if m > 0 && ListWordLen(s, k + m) > 0 then Some(k + m + ListWordLen(s, k + m) - i)
        else if ListWordLen(s, k) > 0 then Some(k + ListWordLen(s, k) - i)
        else None
  }

  /** `\s+(to|from)\s+(my\s+)?(wishlist|list|saved list)` can follow a name
      that ends at `e`: one or more whitespace characters, then a list
      reference. */
  predicate Tail(s: string, e: nat)
    requires e <= |s|
    decreases |s| - e
  {
    e < |s| && IsSpace(s[e]) && (ListRefLen(s, e + 1).Some? || Tail(s, e + 1))
  }

  /** Without a list reference anywhere, no tail follows any position. */
  lemma {:induction false} NoListRefNoTail(s: string, e: nat)
    requires e <= |s|
    requires forall k | 0 <= k <= |s| :: ListRefLen(s, k).None?
    ensures !Tail(s, e)
    decreases |s| - e
  {
    if e < |s| {
      NoListRefNoTail(s, e + 1);
    }
  }

  /** The verbs of the primary rule, in the order of the alternation. */
  const PrimaryVerbs := ["add", "save", "remember", "remove", "delete", "forget", "update"]

  /** The index of the first verb of `vs` that occurs at `p`. */
  function VerbAt(s: string, p: nat, vs: seq<string>): (r: Option<nat>)
    ensures r.Some? ==> r.value < |vs| && LitAt(s, p, vs[r.value])
    ensures r.Some? ==> forall j | 0 <= j < r.value :: !LitAt(s, p, vs[j])
    ensures r.None? ==> forall v <- vs :: !LitAt(s, p, v)
  {
    if vs == [] then None
    else if LitAt(s, p, vs[0]) then Some(0)
    else match VerbAt(s, p, vs[1..])
      case None => None
      case Some(i) => Some(i + 1)
  }

  /** The rest of the primary pattern after the name, as a matcher of the
      position where the name ends. */
  function TailOf(s: string): nat -> bool {
    (e: nat) => e <= |s| && Tail(s, e)
  }

  /** The lazy `(.*?)` followed by the rest of the pattern, matched by
      `rest`: the first end `e`, from `from` on and before any newline, at
      which `rest` matches. */
  function LazyName(s: string, from: nat, rest: nat -> bool): (e: Option<nat>)
    requires from <= |s|
    ensures e.Some? ==> from <= e.value <= |s|
    decreases |s| - from
  {
    if rest(from) then Some(from)
    else if from == |s| || s[from] == '\n' then None
    else LazyName(s, from + 1, rest)
  }

  /** When the lazy group ends, the rest matches there, and the group stays
      on one line. */
  lemma {:induction false} LazyNameEnds(s: string, from: nat, rest: nat -> bool)
    requires from <= |s| && LazyName(s, from, rest).Some?
    ensures rest(LazyName(s, from, rest).value) && NoNewline(s, from, LazyName(s, from, rest).value)
    decreases |s| - from
  {
    if !rest(from) {
      LazyNameEnds(s, from + 1, rest);
    }
  }

  /** The lazy group ends at the first position where the rest matches. */
  lemma {:induction false} LazyNameFirst(s: string, from: nat, rest: nat -> bool)
    requires from <= |s| && LazyName(s, from, rest).Some?
    ensures forall x | from <= x < LazyName(s, from, rest).value :: !rest(x)
    decreases |s| - from
  {
    if !rest(from) {
      LazyNameFirst(s, from + 1, rest);
    }
  }

  /** The lazy group fails exactly when the rest matches at no position of
      the rest of the line. */
  lemma {:induction false} LazyNameFails(s: string, from: nat, rest: nat -> bool)
    requires from <= |s| && LazyName(s, from, rest).None?
    ensures forall x | from <= x <= |s| && NoNewline(s, from, x) :: !rest(x)
    decreases |s| - from
  {
    if from < |s| && s[from] != '\n' {
      LazyNameFails(s, from + 1, rest);
    }
  }

  /** Conversely, the lazy group ends at `e` when the rest matches there,
      at no earlier position, and the text up to `e` is on one line. */
  lemma {:induction false} LazyNameIs(s: string, from: nat, rest: nat -> bool, e: nat)
    requires from <= e <= |s| && rest(e) && NoNewline(s, from, e)
    requires forall x | from <= x < e :: !rest(x)
    ensures LazyName(s, from, rest) == Some(e)
    decreases e - from
  {
    if from < e {
      LazyNameIs(s, from + 1, rest, e);
    }
  }

  /** The greedy `\s+` after the verb, which ends at `b`, then the lazy
      name and the rest: the name starts after `take` whitespace characters,
      the most first; the answer is the name's span. */
  function TrySpaces(s: string, b: nat, take: nat, rest: nat -> bool): (r: Option<(nat, nat)>)
    requires b + take <= |s|
    ensures r.Some? ==> b < r.value.0 <= b + take && LazyName(s, r.value.0, rest) == Some(r.value.1)
  {
    if take == 0 then None
    else match LazyName(s, b + take, rest)
      case Some(e) => Some((b + take, e))
      case None => TrySpaces(s, b, take - 1, rest)
  }

  /** The backtracking order of `TrySpaces`: no start after more
      whitespace than the chosen one lets the lazy group end. */
  lemma {:induction false} TrySpacesBacktracks(s: string, b: nat, take: nat, rest: nat -> bool)
    requires b + take <= |s|
    ensures
      var r := TrySpaces(s, b, take, rest);
      && (r.Some? ==> forall x | r.value.0 < x <= b + take :: LazyName(s, x, rest).None?)
      && (r.None? ==> forall x | b < x <= b + take :: LazyName(s, x, rest).None?)
    decreases take
  {
    if take > 0 && LazyName(s, b + take, rest).None? {
      TrySpacesBacktracks(s, b, take - 1, rest);
    }
  }

  /** The primary rule's match at `p`, up to the name: a verb, whitespace,
      then the name followed by the rest. */
  function PrimaryAt(s: string, p: nat, rest: nat -> bool): (r: Option<(nat, nat)>)
    requires p <= |s|
    ensures r.Some? ==> p < r.value.0 <= |s| && LazyName(s, r.value.0, rest) == Some(r.value.1)
    ensures r.Some? ==> VerbAt(s, p, PrimaryVerbs).Some?
    ensures r.Some? ==>
      var n := |PrimaryVerbs[VerbAt(s, p, PrimaryVerbs).value]|;
      p + n < r.value.0 && forall k | p + n <= k < r.value.0 :: IsSpace(s[k])
  {
    match VerbAt(s, p, PrimaryVerbs)
    case None => None
    case Some(i) =>
      var n := |PrimaryVerbs[i]|;
      LitAtBounds(s, p, PrimaryVerbs[i]);
      TrySpaces(s, p + n, SpaceRun(s, p + n), rest)
  }

  /** The positions at which the primary rule matches. */
  function PrimaryStarts(s: string): nat -> bool {
    (q: nat) => q <= |s| && PrimaryAt(s, q, TailOf(s)).Some?
  }

  /** `re.search` of the primary rule: the span of the name captured at the
      leftmost start that matches. */
  function PrimaryMatch(s: string): (r: Option<(nat, nat)>)
    ensures r.Some? ==> 0 < r.value.0 <= r.value.1 <= |s| && Tail(s, r.value.1)
    ensures r.Some? ==> LazyName(s, r.value.0, TailOf(s)) == Some(r.value.1)
    ensures r.None? <==> forall q | 0 <= q <= |s| :: !PrimaryStarts(s)(q)
    ensures r.Some? ==> exists q | 0 <= q <= |s| ::
      r == PrimaryAt(s, q, TailOf(s)) && forall x | 0 <= x < q :: PrimaryAt(s, x, TailOf(s)).None?
  {
    match Leftmost(|s|, 0, PrimaryStarts(s))
    case Some(q) =>
      var r := PrimaryAt(s, q, TailOf(s));
      LazyNameEnds(s, r.value.0, TailOf(s));
      NoPrimaryBefore(s, q);
      r
    case None => None
  }

  /** Positions where the matcher of starts fails are positions where the
      primary rule does not match. */
  lemma NoPrimaryBefore(s: string, q: nat)
    requires q <= |s| && forall x | 0 <= x < q :: !PrimaryStarts(s)(x)
    ensures forall x | 0 <= x < q :: PrimaryAt(s, x, TailOf(s)).None?
  {
    forall x | 0 <= x < q ensures PrimaryAt(s, x, TailOf(s)).None? {
      assert !PrimaryStarts(s)(x);
    }
  }

  /** The list references as a matcher: the length of the reference that
      starts at each position, if any. */
  function RefsOf(s: string): nat -> Option<nat> {
    (k: nat) => if k <= |s| then ListRefLen(s, k) else None
  }

  /** Every match `m` reports is non-empty and lies within `s`. */
  predicate Fits(s: string, m: nat -> Option<nat>) {
    forall k | 0 <= k <= |s| :: m(k).Some? ==> 0 < m(k).value && k + m(k).value <= |s|
  }

  lemma FitsRefs(s: string)
    ensures Fits(s, RefsOf(s))
  {
    forall k | 0 <= k <= |s| && RefsOf(s)(k).Some?
      ensures 0 < RefsOf(s)(k).value && k + RefsOf(s)(k).value <= |s|
    {
      assert RefsOf(s)(k) == ListRefLen(s, k);
    }
  }

  /** `re.sub(pattern, "", s[i..])` for the pattern whose matches `m`
      reports: scanning from the left, a match is dropped and the scan goes
      on after it; elsewhere one character is kept. */
  function RemoveMatches(s: string, i: nat, m: nat -> Option<nat>): (r: string)
    requires i <= |s| && Fits(s, m)
    ensures |r| <= |s| - i
    decreases |s| - i
  {
    if i == |s| then []
    else match m(i)
      case Some(n) => RemoveMatches(s, i + n, m)
      case None => [s[i]] + RemoveMatches(s, i + 1, m)
  }

  /** The removal is leftmost and non-overlapping: the text up to the first
      match is kept, the match is dropped, and the scan goes on after it. */
  lemma {:induction false} RemoveMatchesFirst(s: string, i: nat, k: nat, m: nat -> Option<nat>)
    requires i <= k <= |s| && Fits(s, m) && m(k).Some?
    requires forall x | i <= x < k :: m(x).None?
    ensures k + m(k).value <= |s|
    ensures RemoveMatches(s, i, m) == s[i..k] + RemoveMatches(s, k + m(k).value, m)
    decreases k - i
  {
    if i < k {
      RemoveMatchesFirst(s, i + 1, k, m);
      assert s[i..k] == [s[i]] + s[i + 1..k];
    } else {
      assert s[k..k] == [];
    }
  }

  /** Without any match from `i` on, the text is kept as it is. */
  lemma {:induction false} RemoveMatchesNone(s: string, i: nat, m: nat -> Option<nat>)
    requires i <= |s| && Fits(s, m)
    requires forall x | i <= x <= |s| :: m(x).None?
    ensures RemoveMatches(s, i, m) == s[i..]
    decreases |s| - i
  {
    if i < |s| {
      RemoveMatchesNone(s, i + 1, m);
      assert s[i..] == [s[i]] + s[i + 1..];
    }
  }

  /** `re.sub(r"(to|from)\s+(my\s+)?(wishlist|list|saved list)", "", s)`. */
  function RemoveListRefs(s: string): (r: string)
    ensures |r| <= |s|
  {
    FitsRefs(s);
    RemoveMatches(s, 0, RefsOf(s))
  }

  /** A text without list references is unchanged by their removal. */
  lemma RemoveListRefsNone(s: string)
    requires forall k | 0 <= k <= |s| :: ListRefLen(s, k).None?
    ensures RemoveListRefs(s) == s
  {
    FitsRefs(s);
    forall x | 0 <= x <= |s| ensures RefsOf(s)(x).None? {
      assert RefsOf(s)(x) == ListRefLen(s, x);
    }
    RemoveMatchesNone(s, 0, RefsOf(s));
  }

  const TwoRefs := "to to list list"

  lemma TwoRefsAt3(s: string)
    requires s == TwoRefs
    ensures ListRefLen(s, 3) == Some(7)
  {
    assert LeadLen(s, 3) == 2;
    assert SpaceRun(s, 5) == 1;
    assert MyLen(s, 6) == 0;
    assert LitAt(s, 6, "list");
    assert ListWordLen(s, 6) == 4;
  }

  lemma TwoRefsNoneBefore(s: string, x: nat)
    requires s == TwoRefs && x < 3
    ensures ListRefLen(s, x).None?
  {
    if x == 0 {
      assert LeadLen(s, 0) == 2;
      assert SpaceRun(s, 2) == 1;
      assert !LitAt(s, 3, "my");
      assert MyLen(s, 3) == 0;
      assert !LitAt(s, 3, "wishlist") && !LitAt(s, 3, "list") && !LitAt(s, 3, "saved list");
      assert ListWordLen(s, 3) == 0;
    } else {
      assert !LitAt(s, x, "to") && !LitAt(s, x, "from");
      assert LeadLen(s, x) == 0;
    }
  }

  lemma TwoRefsNoneAfter(s: string, x: nat)
    requires s == TwoRefs && 10 <= x <= |s|
    ensures ListRefLen(s, x).None?
  {
    assert !LitAt(s, x, "to") && !LitAt(s, x, "from");
    assert LeadLen(s, x) == 0;
  }

  lemma TwoRefsJoin(s: string)
    requires s == TwoRefs
    ensures s[0..3] + s[10..] == "to  list"
  {
    assert s[0..3] == "to ";
    assert s[10..] == " list";
  }

  lemma JoinedRef(s: string)
    requires s == "to  list"
    ensures ListRefLen(s, 0).Some?
  {
    assert LeadLen(s, 0) == 2;
    assert SpaceRun(s, 4) == 0;
    assert SpaceRun(s, 3) == 1;
    assert SpaceRun(s, 2) == 2;
    assert LitAt(s, 4, "list");
    assert ListWordLen(s, 4) == 4;
  }

  /** The removal is one left-to-right pass: taking out a reference can join
      the text around it into a new reference, which stays. */
  lemma RemoveListRefsSinglePass(s: string)
    requires s == TwoRefs
    ensures RemoveListRefs(s) == "to  list"
    ensures ListRefLen(RemoveListRefs(s), 0).Some?
  {
    FitsRefs(s);
    TwoRefsMatches(s);
    RemoveOneMatch(s, RefsOf(s), 3, 7);
    TwoRefsJoin(s);
    JoinedRef(RemoveListRefs(s));
  }

  /** In `TwoRefs` the only reference starts at 3 and is 7 long. */
  lemma TwoRefsMatches(s: string)
    requires s == TwoRefs
    ensures RefsOf(s)(3) == Some(7)
    ensures forall x | 0 <= x < 3 :: RefsOf(s)(x).None?
    ensures forall x | 10 <= x <= |s| :: RefsOf(s)(x).None?
  {
    TwoRefsAt3(s);
    forall x | 0 <= x < 3 ensures RefsOf(s)(x).None? {
      TwoRefsNoneBefore(s, x);
    }
    forall x | 10 <= x <= |s| ensures RefsOf(s)(x).None? {
      TwoRefsNoneAfter(s, x);
    }
  }

  /** With a single match, at `k` of length `n`, the removal drops exactly
      that span. */
  lemma {:induction false} RemoveOneMatch(s: string, m: nat -> Option<nat>, k: nat, n: nat)
    requires k + n <= |s| && Fits(s, m) && m(k) == Some(n)
    requires forall x | 0 <= x < k :: m(x).None?
    requires forall x | k + n <= x <= |s| :: m(x).None?
    ensures RemoveMatches(s, 0, m) == s[0..k] + s[k + n..]
  {
    RemoveMatchesFirst(s, 0, k, m);
    var e := k + m(k).value;
    assert e == k + n;
    assert RemoveMatches(s, 0, m) == s[0..k] + RemoveMatches(s, e, m);
    RemoveMatchesNone(s, e, m);
  }


  /** The verbs the fallback strips from the front, in the order written. */
  const LeadingVerbs := ["add", "save", "remove", "delete", "update", "remember"]

  /** `re.sub(r"^(add|save|remove|delete|update|remember)\s+", "", s)`: the
      length of the prefix removed. */
  function LeadingVerbLen(s: string, vs: seq<string>): (n: nat)
    ensures n <= |s|
    ensures n == 0 || exists v <- vs :: LitAt(s, 0, v) && |v| < n && IsSpace(s[|v|])
  {
    if vs == [] then 0
    else if LitAt(s, 0, vs[0]) && |vs[0]| < |s| && IsSpace(s[|vs[0]|]) then
      LitAtBounds(s, 0, vs[0]);
      |vs[0]| + SpaceRun(s, |vs[0]|)
    else LeadingVerbLen(s, vs[1..])
  }

  /** `\s+in\s+[\w\s]+$` matches from `p` to the end. */
  predicate InClauseAt(s: string, p: nat)
    requires p <= |s|
  {
    && p < |s| && IsSpace(s[p])
    && var q := p + SpaceRun(s, p);
    && LitAt(s, q, "in") && q + 3 < |s| && IsSpace(s[q + 2])
    && forall k | q + 3 <= k < |s| :: IsWord(s[k]) || IsSpace(s[k])
  }

  /** The leftmost start of an in-clause at or after `p`. */
  function FirstInClause(s: string, p: nat): (r: Option<nat>)
    requires p <= |s|
    ensures r.Some? ==> p <= r.value <= |s| && InClauseAt(s, r.value)
    ensures r.Some? ==> forall x | p <= x < r.value :: !InClauseAt(s, x)
    ensures r.None? ==> forall x | p <= x <= |s| :: !InClauseAt(s, x)
    decreases |s| - p
  {
    if InClauseAt(s, p) then Some(p)
    else if p == |s| then None
    else FirstInClause(s, p + 1)
  }

  /** `re.sub(r"\s+in\s+[\w\s]+$", "", s, flags=re.I)`: a trailing
      "in <place>" clause is cut off at its leftmost start. */
  function RemoveInClause(s: string): (r: string)
    ensures |r| <= |s| && r == s[..|r|]
    ensures r == s <==> forall x | 0 <= x <= |s| :: !InClauseAt(s, x)
    ensures r != s ==> InClauseAt(s, |r|) && forall x | 0 <= x < |r| :: !InClauseAt(s, x)
  {
    match FirstInClause(s, 0)
    case Some(p) => s[..p]
    case None => s
  }

  /** `extract_name_from_canonical`: the name captured by the primary rule,
      or else the text with list references, a leading verb and a trailing
      in-clause removed; either way without surrounding whitespace. */
  function ExtractName(c: string): (r: string)
    ensures r == [] || (!IsSpace(r[0]) && !IsSpace(r[|r| - 1]))
  {
    match PrimaryMatch(c)
    case Some(span) => Strip(RemoveInClause(Strip(c[span.0..span.1])))
    case None =>
      var noRefs := RemoveListRefs(c);
      Strip(RemoveInClause(noRefs[LeadingVerbLen(noRefs, LeadingVerbs)..]))
  }

  /** With no list reference anywhere, the primary rule cannot match, and
      the name is what the fallback leaves: the text without its leading
      verb and trailing in-clause. */
  lemma FallbackWithoutListReference(c: string)
    requires forall k | 0 <= k <= |c| :: ListRefLen(c, k).None?
    ensures ExtractName(c) == Strip(RemoveInClause(c[LeadingVerbLen(c, LeadingVerbs)..]))
  {
    NoListReferenceNoPrimary(c);
    RemoveListRefsNone(c);
  }


  lemma NoListReferenceNoPrimary(c: string)
    requires forall k | 0 <= k <= |c| :: ListRefLen(c, k).None?
    ensures PrimaryMatch(c).None?
  {
    forall e | 0 <= e <= |c| ensures !Tail(c, e) {
      NoListRefNoTail(c, e);
    }
    forall q | 0 <= q <= |c| ensures !PrimaryStarts(c)(q) {
      PrimaryAtTail(c, q);
    }
  }

  /** Where the primary rule matches, a tail follows the name. */
  lemma PrimaryAtTail(s: string, q: nat)
    requires q <= |s|
    ensures
      var r := PrimaryAt(s, q, TailOf(s));
      r.Some? ==> r.value.1 <= |s| && Tail(s, r.value.1)
  {
    var r := PrimaryAt(s, q, TailOf(s));
    if r.Some? {
      LazyNameEnds(s, r.value.0, TailOf(s));
    }
  }

  /** A name followed by a list reference is cut at the first one; an
      in-clause inside the captured name is dropped. */
  lemma ExtractNamePrimary(c: string, a: nat, e: nat)
    requires PrimaryMatch(c) == Some((a, e))
    ensures ExtractName(c) == Strip(RemoveInClause(Strip(c[a..e])))
    ensures Tail(c, e) && forall x | a <= x < e :: !Tail(c, x)
  {
    LazyNameFirst(c, a, TailOf(c));
    forall x | a <= x < e ensures !Tail(c, x) {
      assert !TailOf(c)(x);
    }
  }

  const LuigiCommand := "add Luigi's Pizza to my wishlist"

  /** "add Luigi's Pizza to my wishlist" names "Luigi's Pizza". */
  lemma ExtractNameLuigi()
    ensures ExtractName(LuigiCommand) == "Luigi's Pizza"
  {
    LuigiPrimaryMatch();
    LuigiSlice();
    LuigiNameClean("Luigi's Pizza");
  }

  // The steps of ExtractNameLuigi, one fact about the command each.

  lemma LuigiTo()
    ensures LeadLen(LuigiCommand, 18) == 2
  {
    assert LitAt(LuigiCommand, 18, "to");
  }

  lemma LuigiGap()
    ensures SpaceRun(LuigiCommand, 20) == 1
  {
    assert LuigiCommand[20] == ' ' && LuigiCommand[21] == 'm';
  }

  lemma LuigiMy()
    ensures MyLen(LuigiCommand, 21) == 3
  {
    assert LitAt(LuigiCommand, 21, "my");
    assert SpaceRun(LuigiCommand, 23) == 1 by {
      assert LuigiCommand[23] == ' ' && LuigiCommand[24] == 'w';
    }
  }

  lemma LuigiWishlist()
    ensures ListWordLen(LuigiCommand, 24) == 8
  {
    assert LitAt(LuigiCommand, 24, "wishlist");
  }

  lemma LuigiListRef()
    ensures ListRefLen(LuigiCommand, 18) == Some(14)
  {
    LuigiTo();
    LuigiGap();
    LuigiMy();
    LuigiWishlist();
  }

  lemma LuigiTail()
    ensures Tail(LuigiCommand, 17)
  {
    assert IsSpace(LuigiCommand[17]);
    LuigiListRef();
  }

  lemma LuigiNoEarlierTail()
    ensures forall x | 4 <= x < 17 :: !Tail(LuigiCommand, x)
  {
    forall x | 4 <= x < 17 ensures !Tail(LuigiCommand, x) {
      if x == 11 {
        LuigiNoTailInName();
      } else {
        assert !IsSpace(LuigiCommand[x]);
      }
    }
  }

  lemma LuigiNoTailInName()
    ensures !Tail(LuigiCommand, 11)
  {
    assert LeadLen(LuigiCommand, 12) == 0 by {
      assert !LitAt(LuigiCommand, 12, "to") && !LitAt(LuigiCommand, 12, "from");
    }
    assert !IsSpace(LuigiCommand[12]);
  }


  lemma LuigiNoNewline()
    ensures NoNewline(LuigiCommand, 4, 17)
  {
  }

  lemma LuigiLazyName()
    ensures LazyName(LuigiCommand, 4, TailOf(LuigiCommand)) == Some(17)
  {
    LuigiTail();
    LuigiNoEarlierTail();
    LuigiNoNewline();
    forall x | 4 <= x < 17 ensures !TailOf(LuigiCommand)(x) {
    }
    LazyNameIs(LuigiCommand, 4, TailOf(LuigiCommand), 17);
  }

  lemma LuigiVerb()
    ensures VerbAt(LuigiCommand, 0, PrimaryVerbs) == Some(0)
  {
    assert LitAt(LuigiCommand, 0, "add");
  }

  lemma LuigiVerbGap()
    ensures SpaceRun(LuigiCommand, 3) == 1
  {
    assert LuigiCommand[3] == ' ' && LuigiCommand[4] == 'L';
  }

  lemma LuigiPrimaryMatch()
    ensures PrimaryMatch(LuigiCommand) == Some((4, 17))
  {
    assert PrimaryAt(LuigiCommand, 0, TailOf(LuigiCommand)) == Some((4, 17)) by {
      LuigiLazyName();
      LuigiVerb();
      LuigiVerbGap();
    }
  }

  lemma LuigiSlice()
    ensures LuigiCommand[4..17] == "Luigi's Pizza"
  {
    assert LuigiCommand == "add " + "Luigi's Pizza" + " to my wishlist";
    assert LuigiCommand[4..17] == ("add " + "Luigi's Pizza" + " to my wishlist")[4..17];
  }

  lemma LuigiNameClean(n: string)
    requires n == "Luigi's Pizza"
    ensures Strip(n) == n && RemoveInClause(n) == n
  {
    assert SpaceRun(n, 0) == 0;
    assert TrailingSpaces(n) == 0;
    forall x | 0 <= x <= |n| ensures !InClauseAt(n, x) {
      if x == 7 {
        assert SpaceRun(n, 7) == 1 by {
          assert n[7] == ' ' && n[8] == 'P';
        }
        assert !LitAt(n, 8, "in");
      } else if x < |n| {
        assert !IsSpace(n[x]);
      }
    }
  }
}
