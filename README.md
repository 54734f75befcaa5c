# Restaurant chat assistant — a verified model of its request logic

The service answers free-form restaurant requests in a chat. Each request goes through the same steps:

- **Classification.** The request is classified into an intent:
  - a cache of earlier classifications, keyed by a hash of a canonical form of the text;
  - then a fixed list of regular-expression rules;
  - then a language model.
- **Search.** Search requests are turned into structured fields (location, categories, rating, price). The fields can be completed from the session's earlier turns. The user is asked a follow-up question while location or categories are still missing.
- **Wishlist.** Wishlist commands (add, delete, update a note, view) find the restaurant by name and change the wishlist collection. This happens in two variants: the chat route's helpers, and the per-user functions of `app/wishlist.py`.

The Dafny modules follow the source files:

- `Text` (`text.dfy`): character classes, ASCII lower-casing, `str.strip`, `str.split`, `" ".join`.
- `Canonical` (`canonical.dfy`): `_canonicalize` and `_key` of `app/cache_utils.py`.
- `IntentCache` (`cache.dfy`): the append-only cache log, with `load_from_cache` and `save_to_cache`.
- `IntentRules` (`rules.dfy`): `_regex_intent` of `app/nlp.py`. Each regular expression is written out as a predicate.
- `Nlp` (`nlp.dfy`): `classify_query_type` and `parse_nl_query`. The language model's replies are inputs.
- `NameExtraction` (`namex.dfy`): `extract_name_from_canonical`.
- `Values` and `Sanitize` (`values.dfy`, `sanitize.dfy`): JSON/BSON values, `_sanitize` of `app/main.py` and `sanitize` of `dump_collections.py`.
- `Store` (`store.dfy`): the restaurants, wishlist and conversations collections, as a class over sequences.
- `Chat` (`chat.dfy`), covering `app/main.py`:
  - note extraction
  - intent dispatch
  - context inheritance
  - the wishlist helpers
  - the confirm endpoint
  - the `/search` route up to the restaurant lookup
- `Wishlist` (`wishlist.dfy`), covering `app/wishlist.py`: candidate search, add, delete, note update, listing.

The collections are modelled on MongoDB's behaviour:
- Every collection is a sequence in insertion order.
- `find_one`, `delete_one` and `update_one` act on the first matching document.
- `insert_one` appends.
- The model distinguishes a modified count from a matched count where the source's reply depends on which one it reads.

Four behaviours of the code are easy to miss, and the model keeps each of them:
- **Canonical form is not idempotent.** `_canonicalize` puts `<NUM>` in place of digits after lower-casing. Canonicalising again turns the placeholder into `num`, so a second pass does not give the same result (`Canonical.CanonicalNotIdempotent`).
- **The classifier's label is not checked.** The language model's intent is returned and cached as is; labels outside the documented list are not rejected. The dispatch sends every such label to the search pipeline, except ones that start with `wishlist` (`Chat.RouteSpec`).
- **A failed follow-up call takes the failure path.** In `parse_nl_query`, a failure of the follow-up-question call gives the whole failure result (empty fields, both fields missing, the fixed apology). It does not keep the parsed fields.
- **Zero candidates is not "not found".** Without a candidate id, `add_to_wishlist` with no candidate at all answers with the "ambiguous" reply and an empty list.

## Model

| member | source | states |
|---|---|---|
| Text.Leftmost | app/nlp.py:86-89 | the first position in range at which the pattern matches, none exactly when it matches nowhere (how `re.search` picks its match) |
| Text.Strip | app/nlp.py:91 | only whitespace is removed: the result is the input without an all-whitespace prefix and suffix, has no whitespace at either end, and is empty exactly when the input is all whitespace |
| Text.SplitToken | app/cache_utils.py:30 | a run of non-whitespace followed by whitespace or the end is split off as one word |
| Text.SplitChars | app/cache_utils.py:30 | every word `split()` yields is non-empty, has no whitespace, and is made of characters of the text |
| Text.SplitJoin | app/cache_utils.py:30-31 | splitting words joined by single spaces gives the words back |
| Text.JoinWellSpaced | app/cache_utils.py:31 | joining words with single spaces gives no leading, trailing or doubled space, and the empty string only for no words |
| Canonical.PunctToSpace | app/cache_utils.py:28 | every character that is neither a word character nor whitespace becomes a space; all other characters and the length are kept |
| Canonical.DropStopWords | app/cache_utils.py:30 | the kept words are words of the input and none is a stop word, and every word of the input that is not a stop word is kept |
| Canonical.DropStopWordsAppend | app/cache_utils.py:30 | the filter keeps the order of the words: filtering a concatenation concatenates the filtered parts |
| Canonical.DropStopWordsOne | app/cache_utils.py:30 | a single word is kept exactly when it is not a stop word |
| Canonical.KeyThroughCanonical | app/cache_utils.py:35-37 | the cache key depends on the text only through its canonical form |
| Canonical.NumRunsChars | app/cache_utils.py:29 | after the digit-run replacement no digit is left, and every character comes from the text or the placeholder |
| Canonical.NumRunsAppend | app/cache_utils.py:29 | the replacement works run by run: on two texts not joined inside a digit run, it is the replacement of each, concatenated |
| Canonical.NumRunsDigits | app/cache_utils.py:29 | a maximal run of digits becomes exactly one `<NUM>` |
| Canonical.NumRunsNoDigits | app/cache_utils.py:29 | a text without digits is unchanged |
| Canonical.CanonicalTokens | app/cache_utils.py:25-31 | every word of the canonical form is a non-empty run of non-space characters and not a stop word |
| Canonical.CanonicalNoDigit | app/cache_utils.py:25-31 | a canonical form contains no digit |
| Canonical.CanonicalWellSpaced | app/cache_utils.py:25-31 | a canonical form has no leading, trailing or doubled space |
| Canonical.CanonicalNoStopWords | app/cache_utils.py:23-31 | no word of a canonical form is "please", "kindly" or "just" |
| Canonical.CanonicalBlank | app/cache_utils.py:25-31 | a blank text has the empty canonical form |
| Canonical.CanonicalOne | app/cache_utils.py:29 | "1" canonicalises to "<NUM>" |
| Canonical.CanonicalPlaceholder | app/cache_utils.py:25-31 | "<NUM>" canonicalises to "num" |
| Canonical.CanonicalNotIdempotent | app/cache_utils.py:25-31 | canonicalising twice differs from canonicalising once, for "1" |
| IntentCache.FirstMatch | app/cache_utils.py:57-60 | the index of the first entry with the key, or none exactly when no entry has it |
| IntentCache.FirstMatchAppend | app/cache_utils.py:65-76 | appending an entry never changes an existing first match, and a new key's first match is the appended entry |
| IntentCache.FirstOfTwoWins | app/cache_utils.py:57-60 | of two appended entries with the same new key, lookups answer with the first |
| IntentCache.Cache.Lookup | app/cache_utils.py:50-62 | the first entry with the text's key, with hits incremented and the time set, or none; the log itself is not changed |
| IntentCache.Cache.Save | app/cache_utils.py:65-76 | exactly one entry, keyed by the raw text's key with hit count 1, is appended |
| IntentRules.RegexIntent | app/nlp.py:18-31 | the label of the first rule, in the order add, delete, update, view, smalltalk, that matches the lower-cased text; none exactly when no rule matches |
| IntentRules.RegexIntentIgnoresCase | app/nlp.py:19-20 | a text and its lower-case form get the same label |
| IntentRules.RegexIntentAddExample | app/nlp.py:21-22 | any spelling of "add luigi's to my wishlist" is a wishlist addition |
| IntentRules.RegexIntentGreetingExample | app/nlp.py:29-30 | any spelling of "heyyy" is smalltalk |
| IntentRules.ShortTextNoWishlistRule | app/nlp.py:21-28 | no wishlist rule matches a text shorter than eight characters |
| Nlp.ClassifyOutcomePriority | app/nlp.py:33-80 | a rule label wins over the classifier; the outcome fails only when cache, rules and classifier all give nothing; the classifier reply matters only when cache and rules are silent |
| Nlp.ClassifyQueryType | app/nlp.py:33-80 | a cache hit appends nothing; a rule match appends (key, text, "matched_by_regex", label); otherwise the classifier's label is appended with its analysis defaulting to ""; the new log is `ClassifyLog` of the old one; afterwards the cache answers the text with the returned label |
| Nlp.ClassifyLog | app/nlp.py:35-80 | the log only grows, by at most one entry; it is unchanged exactly on a cache hit or when neither the rules nor the classifier give a label; a new entry carries the text's key, one hit, the call's time and the label `classify_query_type` returns, with the text and "matched_by_regex" after a rule match, else the classifier's canonical form and its analysis defaulting to "" |
| Nlp.ClassifyTwice | app/nlp.py:35-37 | after a successful classification, any text with the same canonical form gets the same label; the log is that of the two calls in turn, and after a successful first call it is exactly the log the first call left |
| Nlp.ParseFailure | app/nlp.py:168-175 | the failure result has empty fields, both required fields missing, the fixed apology as follow-up, and the original text |
| Nlp.ParseOutcome | app/nlp.py:119-175 | the original text is kept and the missing list is always the falsy required fields of the result; a failed or non-object extraction gives the failure result; otherwise the fields are the extracted ones, the follow-up is empty when nothing is missing, the stripped reply when something is, and a failed follow-up call gives the failure result |
| Nlp.MissingFieldsSpec | app/nlp.py:135-139 | a required field is listed exactly when it is falsy, location before categories, nothing else |
| Nlp.ParseNlQuery | app/nlp.py:119-175 | the step-by-step parse returns exactly `ParseOutcome` of its inputs |
| NameExtraction.NoListRefNoTail | app/nlp.py:87 | without a list reference anywhere in the text, no position is followed by whitespace and a list reference |
| NameExtraction.VerbAt | app/nlp.py:87 | the first verb of the alternation, in its written order, that occurs at the position; none exactly when no verb occurs there |
| NameExtraction.LazyNameEnds | app/nlp.py:87 | where the lazy name group ends, the rest of the pattern matches, and the group contains no newline |
| NameExtraction.LazyNameFirst | app/nlp.py:87 | the lazy name group ends at the first position where the rest of the pattern matches |
| NameExtraction.LazyNameFails | app/nlp.py:87 | when the lazy group fails, the rest of the pattern matches nowhere on the remainder of the line |
| NameExtraction.LazyNameIs | app/nlp.py:87 | conversely, a position where the rest first matches, with no newline before it, is where the lazy group ends |
| NameExtraction.TrySpacesBacktracks | app/nlp.py:87 | the greedy whitespace after the verb gives back one character at a time: no longer whitespace run lets the name group match |
| NameExtraction.PrimaryAt | app/nlp.py:87 | a match at a position needs one of the verbs there, followed by at least one whitespace character; the name starts after that whitespace and ends where the lazy group ends |
| NameExtraction.PrimaryMatch | app/nlp.py:86-89 | the match is the one at the leftmost position where the rule matches; the name starts after the verb and its whitespace, and ends where the lazy group ends, just before whitespace and a list reference; there is no match exactly when the rule matches at no position |
| NameExtraction.NoListReferenceNoPrimary | app/nlp.py:86-89 | without a list reference the primary rule does not match |
| NameExtraction.RemoveInClause | app/nlp.py:93 | the text is cut before its first trailing "in ..." clause, and kept whole exactly when there is none |
| NameExtraction.RemoveMatchesFirst | app/nlp.py:97 | `re.sub` keeps the text up to the first match, drops the matched span, and goes on after it |
| NameExtraction.RemoveMatchesNone | app/nlp.py:97 | with no match from a position on, the rest of the text is kept as it is |
| NameExtraction.RemoveListRefsNone | app/nlp.py:97 | a text without list references is unchanged by their removal |
| NameExtraction.RemoveOneMatch | app/nlp.py:97 | with a single reference in the text, exactly its span is removed |
| NameExtraction.RemoveListRefsSinglePass | app/nlp.py:97 | the removal is one pass: in "to to list list" the reference "to list" is removed and the remaining "to  list" is itself a reference, which stays |
| NameExtraction.ExtractName | app/nlp.py:84-100 | the extracted name has no leading or trailing whitespace |
| NameExtraction.ExtractNamePrimary | app/nlp.py:86-94 | when the primary pattern matches, the name is its stripped lazy group without a trailing in-clause, and the group ends at the first list reference |
| NameExtraction.FallbackWithoutListReference | app/nlp.py:96-100 | without any list reference the name is the text minus its leading verb and trailing in-clause, stripped |
| NameExtraction.ExtractNameLuigi | app/nlp.py:84-94 | "add Luigi's Pizza to my wishlist" names "Luigi's Pizza" |
| Values.SetDefault | app/main.py:161-162 | `setdefault` keeps a present key, even with a falsy value, and appends an absent one |
| Sanitize.DropId | app/main.py:47 | the "_id" pairs are dropped and every other pair is kept |
| Sanitize.MainSanitize | app/main.py:40-50 | the result holds no ObjectId anywhere |
| Sanitize.MainSanitizeNoIdKey | app/main.py:40-50 | no dict in the result, at any depth, has an "_id" key |
| Sanitize.MainSanitizeShape | app/main.py:44-50 | an ObjectId becomes its string; lists and tuples keep their length; a dict keeps exactly its keys other than "_id"; other values are unchanged |
| Sanitize.MainSanitizeIdempotent | app/main.py:40-50 | sanitising twice equals sanitising once |
| Sanitize.DumpSanitize | dump_collections.py:16-25 | the result holds no ObjectId and no datetime outside tuples (tuples are passed through unchanged) |
| Sanitize.DumpSanitizeShape | dump_collections.py:16-25 | ObjectIds and datetimes become strings; dicts keep their keys; lists keep their length; other values are unchanged |
| Sanitize.DumpSanitizeIdempotent | dump_collections.py:16-25 | sanitising twice equals sanitising once |
| Store.Db.Log | app/main.py:79-90 | exactly one turn is appended to the conversations; restaurants and wishlist are unchanged |
| Store.RestaurantById | app/main.py:233 | the first restaurant with that id, or none exactly when there is no such restaurant |
| Store.RemoveKeepsUnique | app/main.py:279 | deleting one item keeps restaurant ids (and user/restaurant pairs) unique |
| Store.ParseObjectId | app/main.py:302-305 | a string is an id exactly when it is 24 hexadecimal digits; the id is their lower-case form |
| Store.ParseObjectIdRoundTrip | app/wishlist.py:65 | the printed form of an id parses back to the same id |
| Chat.FirstNote | app/main.py:75 | the leftmost position where the note pattern matches, or none when it matches nowhere |
| Chat.ExtractNoteSpec | app/main.py:73-76 | "" exactly when the pattern matches nowhere; otherwise the text between the quotes of the leftmost match |
| Chat.ExtractNoteShape | app/main.py:75 | an extracted note lies on one line and only its first character can be a quote |
| Chat.ExtractNoteExample | app/main.py:73-76 | "to say 'ok'" gives the note "ok" |
| Chat.RouteSpec | app/main.py:110-151 | chat_history goes to the history, smalltalk to the greeting, wishlist_view to the panel; the other four wishlist labels reach their helper; any other label starting with "wishlist" is not understood; every remaining label goes to search |
| Chat.LastWithLocation | app/main.py:155-158 | the session's most recent turn whose parsed fields have a location key, or none exactly when there is none |
| Chat.InheritFromSpec | app/main.py:160-162 | the repeated `setdefault` gives each listed key the query lacks the last turn's value, keeps every present key's value, and keeps the query's fields in front |
| Chat.InheritContext | app/main.py:155-163 | with such a turn, the fields are the query's with each of location, categories, rating and price that it lacks taken from that turn, and missing is recomputed from the merged fields; without one, both stay as parsed |
| Chat.MergedFieldsSpec | app/main.py:155-163 | the merged fields inherit from the session's last turn with a location, or are the parsed fields when there is none |
| Chat.InheritedMissing | app/main.py:159-163 | after inheritance a field is missing exactly when its own value (or, if absent, the previous turn's) is falsy |
| Chat.FindRestaurant | app/main.py:249 | the first restaurant whose name the text matches, or none exactly when no name matches |
| Chat.FirstItem | app/main.py:255 | the first wishlist item for the restaurant, of any user, or none exactly when there is none |
| Chat.AddItemEffect | app/main.py:248-272 | an unknown name logs one turn carrying the reply and changes nothing else; a known restaurant is in the wishlist afterwards; the wishlist changes exactly when the name finds a restaurant with no item yet, and the appended item is for that restaurant, with the note and no user; only appends, at most one item; restaurant ids stay unique |
| Chat.WishlistAddItem | app/main.py:248-272 | the reply, the wishlist and the logged turns are those of `AddItemEffect`; restaurants are untouched |
| Chat.DeleteItemEffect | app/main.py:275-280 | logs nothing; when no restaurant matches, or no item is for the first matching one, the wishlist is unchanged; otherwise exactly the first item for that restaurant is removed; the reply is "✅ Removed." exactly when an item went; restaurant ids stay unique |
| Chat.WishlistDeleteItem | app/main.py:275-280 | the reply and the wishlist are those of `DeleteItemEffect`; nothing is logged and restaurants are untouched |
| Chat.UpdateNoteEffect | app/main.py:283-291 | logs nothing; when no restaurant matches, or no item is for the first matching one, the wishlist is unchanged; otherwise only the first item for that restaurant gets the new note and update time; the reply is "✅ Note updated." exactly when the wishlist changed; restaurant ids stay unique |
| Chat.WishlistUpdateNote | app/main.py:283-291 | the reply and the wishlist are those of `UpdateNoteEffect`; nothing is logged and restaurants are untouched |
| Chat.WishlistConfirm | app/main.py:300-313 | invalid id, unknown restaurant, already listed, or one item without a note appended, each with its exact reply; ids stay unique |
| Chat.RenderWishlist | app/main.py:229-243 | the empty panel exactly when the wishlist has no item at all |
| Chat.ChatHistory | app/main.py:111-117 | at most ten lines, from the session's ten latest turns with a response |
| Chat.WishlistContext | app/main.py:130-136 | the context is empty exactly when the session has no earlier turn with a location; otherwise it is the single location field of the latest such turn |
| Chat.ActionEffect | app/main.py:138-145 | only an addition can log; an unknown action answers "Sorry, I didn't understand." and changes nothing; restaurant ids stay unique |
| Chat.WishlistAction | app/main.py:138-145 | the reply, the wishlist and the logged turns are those of `ActionEffect` for the route; restaurants are untouched |
| Chat.CommandEffect | app/main.py:125-151 | every command except an addition logs exactly one turn carrying its reply and the location context; an unknown action answers "Sorry, I didn't understand." and leaves the wishlist; restaurant ids stay unique |
| Chat.WishlistCommand | app/main.py:125-151 | the reply, the wishlist and the logged turns are those of `CommandEffect`, with the name taken from the cached canonical form (else the text) and the note from the text |
| Chat.SearchStep | app/main.py:153-167 | the reply is the follow-up question exactly when the merged fields still miss a required field, and then one clarification turn with the sanitised merged fields is logged; otherwise the reply carries the merged fields and nothing is logged |
| Chat.SearchCommand | app/main.py:153-167 | the reply and the logged turns are those of `SearchStep` on the parse outcome of the query; restaurants and wishlist are untouched |
| Chat.Respond | app/main.py:110-167 | the reply and the new state are what `Answered` gives for the intent's route: the history, the greeting, the panel, the search step, or the wishlist command's effect |
| Chat.Search | app/main.py:100-167 | a blank query is a bad request and touches nothing; the intent is the classification outcome of the stripped query, and the cache log is what `ClassifyLog` gives for it; a failed classification is an error and changes no collection; otherwise the reply and the new state are what `Answered` gives for the intent's route, in the session named by the payload or the fresh one |
| Wishlist.NameMatchesSpec | app/wishlist.py:23 | the escaped pattern matches every name for an empty query, ignores case, and matches a name against itself |
| Wishlist.Matching | app/wishlist.py:24 | exactly the restaurants whose names contain the query, ignoring case |
| Wishlist.LocalMatches | app/wishlist.py:23-24 | at most five matching restaurants, and none exactly when no restaurant matches |
| Wishlist.LocalMatchesPrefix | app/wishlist.py:23-24 | the local matches are the first min(5, n) of the n matches, in natural order |
| Wishlist.Upsert | app/wishlist.py:38 | a business already stored by its Yelp id is left as is; otherwise one document is appended; afterwards the Yelp id is stored |
| Wishlist.UpsertAll | app/wishlist.py:29-39 | upserting only appends, at most one document per business |
| Wishlist.YelpCandidates | app/wishlist.py:39 | one candidate per business, the stored document with that Yelp id |
| Wishlist.UpsertAllKeepsUniqueYelpIds | app/wishlist.py:38 | upserting never stores a second document for a Yelp id |
| Wishlist.UpsertAllStored | app/wishlist.py:29-39 | upserting businesses with ObjectIds keeps every id an ObjectId, and each Yelp candidate is in the collection afterwards |
| Wishlist.SearchCandidates | app/wishlist.py:18-40 | the local matches when there are any, and the collection unchanged; otherwise the Yelp businesses upserted in order and their stored documents |
| Wishlist.AddById | app/wishlist.py:47-60 | unknown id: "Candidate not found."; the wishlist grows by one item for this user exactly when the restaurant exists and the user has none for it; afterwards the user has an item for it; user/restaurant pairs stay unique |
| Wishlist.ByCandidateId | app/wishlist.py:47-60 | an id that is not 24 hex digits raises and changes nothing; otherwise the reply is a message, the wishlist only grows by at most one item, and the user has an item for an existing restaurant afterwards; user/restaurant pairs stay unique |
| Wishlist.AddToWishlist | app/wishlist.py:46-73 | a non-empty candidate id goes to `ByCandidateId`; otherwise the candidates are searched, exactly one is passed on by its printed id to `ByCandidateId`, and any other number is handed back as ambiguous without change; ObjectIds stay ObjectIds; user/restaurant pairs stay unique |
| Wishlist.SingleCandidateAdded | app/wishlist.py:62-65 | with ObjectIds throughout, a single candidate's printed id is non-empty and valid, the call is answered with a message, and the user has an item for it afterwards |
| Wishlist.AddByIdTwice | app/wishlist.py:51-52 | adding the same restaurant twice for a user stores one item and answers the second time with "already in your wishlist" |
| Wishlist.DeleteFromWishlist | app/wishlist.py:77-85 | removes this user's first item for the first matching restaurant, with the three exact replies; other users' items all stay |
| Wishlist.RemoveKeepsOthers | app/wishlist.py:82 | deleting one of a user's items keeps every item of every other user |
| Wishlist.UpdateNote | app/wishlist.py:88-99 | sets the note of this user's first item for the first matching restaurant, with the three exact replies; no other item changes |
| Wishlist.Joined | app/wishlist.py:103-113 | only this user's items, each with the restaurant that has its restaurant id |
| Wishlist.SortByDate | app/wishlist.py:114 | the entries newest first, a permutation of the input |
| Wishlist.NumberRows | app/wishlist.py:120-127 | row i is numbered i + 1 and shows the i-th entry's restaurant and its note when non-empty |
| Wishlist.GetWishlist | app/wishlist.py:102-128 | the empty listing when there is no entry; otherwise one numbered row per entry, in order |
| Wishlist.ListingSpec | app/wishlist.py:102-128 | the listing holds exactly this user's items whose restaurant exists, newest first |

## Left out

- The language-model calls are not modelled. Their replies (the classifier's JSON, the extracted fields, the follow-up question) are inputs, with a variant for a call or decoding that raises. The prompts, the model names and the temperatures are not modelled.
- SHA-1 in `_key` is a hash function given as a parameter. The model keeps only the fact that the key is a function of the canonical text.
- The cache file is a sequence of entries. File I/O, JSON encoding and the `touch` at import are not modelled. The in-memory increment of `hits` and `last_used` on a hit is returned with the entry and never written back, as in the source.
- Clocks and identifiers are parameters:
  - `time.time()` and `datetime.utcnow()` are the `now` inputs;
  - the session id `uuid4` is `freshSession`;
  - the ids new documents receive are carried by each Yelp business.
- Timestamps order the conversation log. The model takes log order to be timestamp order.
- The restaurant lookup of `search` (app/main.py:169-224) is not modelled: the local query, the Yelp fallback with its `$set` upserts, and the summary call. The model stops at the `Complete` reply carrying the merged fields.
- The HTML and Markdown text is not modelled:
  - the history list, the wishlist panel, the numbered wishlist text and the ambiguous follow-up text become structured data (lines, restaurants, rows, candidates);
  - images, addresses, ratings and URLs of restaurants are not modelled.
- The name matching of app/main.py is not modelled. It feeds the user's text to MongoDB as an unescaped regular expression. The model takes that match as the parameter `matches`. The escaped matching of app/wishlist.py is modelled as a case-insensitive substring test.
- Character classes are simplified from Python's Unicode classes:
  - `\s` and `\d` are ASCII only: the ASCII whitespace characters and the digits 0-9;
  - `\w` is the ASCII letters, digits and underscore, plus every code point above U+007F;
  - so a non-ASCII punctuation mark such as "’" counts as a word character and is kept by `_canonicalize` (Python replaces it with a space), and a no-break space U+00A0 counts as a word character rather than whitespace;
  - Unicode digits and case folding are not modelled; lower-casing is ASCII only.
- Values are JSON values. Python values of other types (a non-string intent, bytes, sets) are not modelled. `payload["query"]` is taken as the string `str()` gives.
- Python's `Sequence` test in `_sanitize` is modelled as lists and tuples only. Strings are left unchanged, as in the source.
- `$lookup` is modelled as a join with the first restaurant of that id. MongoDB keeps `_id` unique within a collection, so no second match can exist.
- Wishlist.SortByDate: ties in `added_at` keep no particular order in MongoDB. The model keeps insertion order for equal dates: the earlier-inserted item comes first.
- Chat.ChatHistory: its contract states only the ten-line bound. Which turns and which lines it keeps is its definition (the session's turns, the ten latest, those with a response, responses cut to 120 characters).
- Chat.RenderWishlist: its contract states only when the panel is empty. The restaurants it lists are given by `PanelRestaurants`, whose contract says only that each is a restaurant of some item.
- Concurrency is not modelled: parallel requests, and the check-then-act races between finding and inserting an item. Storage errors and HTTP status codes other than the 400 for an empty query are not modelled either.
