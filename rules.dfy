/**
 * The rule-based fast path of intent detection (`_regex_intent` in
 * app/nlp.py).  Each regular expression is written out as a predicate over
 * the lower-cased text: `\b` is a change between word and non-word
 * characters, `.` any character but a newline.
 */
module IntentRules {
  import opened Base
  import opened Text

  const WishlistAdd := "wishlist_add"
  const WishlistDelete := "wishlist_delete"
  const WishlistUpdate := "wishlist_update"
  const WishlistView := "wishlist_view"
  const Smalltalk := "smalltalk"

  /** `\b` at position `p`. */
  predicate Boundary(t: string, p: int)
    requires 0 <= p <= |t|
  {
    (p > 0 && IsWord(t[p - 1])) != (p < |t| && IsWord(t[p]))
  }

  /** `\bw\b` matches at position `i`. */
  predicate WordAt(t: string, i: int, w: string) {
    0 <= i && i + |w| <= |t| && t[i..i + |w|] == w && Boundary(t, i) && Boundary(t, i + |w|)
  }

  /** `\b(a)\b.*\b(b)\b` matches with `a` at `i` and `b` at `j`. */
  predicate SpanAt(t: string, i: int, a: string, j: int, b: string) {
    && WordAt(t, i, a) && WordAt(t, j, b)
    && i + |a| <= j && NoNewline(t, i + |a|, j)
  }

  /** `re.search(r"\b(A1|A2|..)\b.*\b(B1|B2|..)\b", t)` succeeds. */
  predicate Search(t: string, firsts: seq<string>, seconds: seq<string>) {
    exists i, a, j, b | 0 <= i <= |t| && 0 <= j <= |t| && a in firsts && b in seconds ::
      SpanAt(t, i, a, j, b)
  }

  const ListWords := ["wishlist", "mylist", "my list", "saved"]

  predicate AddRule(t: string) {
    Search(t, ["add", "save", "remember", "put"], ListWords)
  }

  predicate DeleteRule(t: string) {
    Search(t, ["delete", "remove", "take off"], ListWords)
  }

  predicate UpdateRule(t: string) {
    Search(t, ["update"], ["note"])
  }

  predicate ViewRule(t: string) {
    Search(t, ["what", "show", "view"], ["wishlist", "saved"])
  }

  /** `t[..k]` is `stem` followed by one or more `c` (`hi+`, `hello+`, ...). */
  predicate Repeated(t: string, stem: string, c: char, k: int) {
    |stem| < k <= |t| && t[..|stem|] == stem && forall m | |stem| <= m < k :: t[m] == c
  }

  predicate Greeting(t: string, k: int) {
    || Repeated(t, "h", 'i', k)
    || Repeated(t, "hell", 'o', k)
    || Repeated(t, "he", 'y', k)
    || Repeated(t, "y", 'o', k)
    || (k == 3 && |t| >= 3 && t[..3] == "sup")
  }

  /** `re.fullmatch(r"(hi+|hello+|hey+|yo+|sup)\b.*", t)` succeeds. */
  predicate SmalltalkRule(t: string) {
    exists k | 0 <= k <= |t| :: Greeting(t, k) && Boundary(t, k) && NoNewline(t, k, |t|)
  }

  /** `_regex_intent`: lower-case the text, then test the rules in the
      fixed order add, delete, update, view, smalltalk; the first rule that
      matches gives the label, and None means that no rule matches. */
  function RegexIntent(text: string): (r: Option<string>)
    ensures r == Some(WishlistAdd) <==> AddRule(Lower(text))
    ensures r == Some(WishlistDelete) <==> !AddRule(Lower(text)) && DeleteRule(Lower(text))
    ensures r == Some(WishlistUpdate) <==>
      !AddRule(Lower(text)) && !DeleteRule(Lower(text)) && UpdateRule(Lower(text))
    ensures r == Some(WishlistView) <==>
      !AddRule(Lower(text)) && !DeleteRule(Lower(text)) && !UpdateRule(Lower(text))
      && ViewRule(Lower(text))
    ensures r == Some(Smalltalk) <==>
      !AddRule(Lower(text)) && !DeleteRule(Lower(text)) && !UpdateRule(Lower(text))
      && !ViewRule(Lower(text)) && SmalltalkRule(Lower(text))
    ensures r.None? <==>
      !AddRule(Lower(text)) && !DeleteRule(Lower(text)) && !UpdateRule(Lower(text))
      && !ViewRule(Lower(text)) && !SmalltalkRule(Lower(text))
  {
    var t := Lower(text);
    if AddRule(t) then Some(WishlistAdd)
    else if DeleteRule(t) then Some(WishlistDelete)
    else if UpdateRule(t) then Some(WishlistUpdate)
    else if ViewRule(t) then Some(WishlistView)
    else if SmalltalkRule(t) then Some(Smalltalk)
    else None
  }

  /** Matching is case-insensitive: the text and its lower-case form get the
      same answer. */
  lemma RegexIntentIgnoresCase(text: string)
    ensures RegexIntent(text) == RegexIntent(Lower(text))
  {
    LowerIdempotent(text);
  }

  /** Any spelling of "add luigi's to my wishlist" is a wishlist addition. */
  lemma RegexIntentAddExample(text: string)
    requires Lower(text) == "add luigi's to my wishlist"
    ensures RegexIntent(text) == Some(WishlistAdd)
  {
    LuigiSpan();
  }

  lemma LuigiSpan()
    ensures AddRule("add luigi's to my wishlist")
  {
    var t := "add luigi's to my wishlist";
    assert SpanAt(t, 0, "add", 18, "wishlist");
  }

  /** Any spelling of "heyyy" is smalltalk: `hey+` absorbs the repeated y,
      and the text is too short for any of the wishlist rules. */
  lemma RegexIntentGreetingExample(text: string)
    requires Lower(text) == "heyyy"
    ensures RegexIntent(text) == Some(Smalltalk)
  {
    var t := "heyyy";
    assert Greeting(t, 5) && Boundary(t, 5);
    ShortTextNoWishlistRule(t);
  }

  /** No wishlist rule matches a text of fewer than eight characters: each
      needs two whole words of at least that much together. */
  lemma ShortTextNoWishlistRule(t: string)
    requires |t| < 8
    ensures !AddRule(t) && !DeleteRule(t) && !UpdateRule(t) && !ViewRule(t)
  {
    ShortNoAdd(t);
    ShortNoDelete(t);
    ShortNoUpdate(t);
    ShortNoView(t);
  }

  lemma ShortNoAdd(t: string)
    requires |t| < 8
    ensures !AddRule(t)
  {
    NoShortSearch(t, ["add", "save", "remember", "put"], ListWords, 3, 5);
  }

  lemma ShortNoDelete(t: string)
    requires |t| < 8
    ensures !DeleteRule(t)
  {
    NoShortSearch(t, ["delete", "remove", "take off"], ListWords, 6, 5);
  }

  lemma ShortNoUpdate(t: string)
    requires |t| < 8
    ensures !UpdateRule(t)
  {
    NoShortSearch(t, ["update"], ["note"], 6, 4);
  }

  lemma ShortNoView(t: string)
    requires |t| < 8
    ensures !ViewRule(t)
  {
    NoShortSearch(t, ["what", "show", "view"], ["wishlist", "saved"], 4, 5);
  }

  /** A search for two words cannot succeed in a text shorter than both. */
  lemma NoShortSearch(t: string, firsts: seq<string>, seconds: seq<string>, m: nat, n: nat)
    requires forall a <- firsts :: |a| >= m
    requires forall b <- seconds :: |b| >= n
    requires |t| < m + n
    ensures !Search(t, firsts, seconds)
  {
  }
}
