/**
 * The request-side logic of app/main.py: the note extractor, the intent
 * dispatch of the `/search` route with its session-context inheritance, the
 * wishlist helpers behind it and the panel's confirm endpoint.  Restaurant
 * names are matched with the user's text as a MongoDB regular expression;
 * that match is the parameter `matches(pattern, name)`.
 */
module Chat {
  import opened Base
  import opened Text
  import opened Values
  import opened Sanitize
  import opened Canonical
  import opened IntentCache
  import opened IntentRules
  import opened Nlp
  import opened NameExtraction
  import opened Store

  // ----- extract_wishlist_note ---------------------------------------------

  predicate QuoteChar(c: char) {
    c == '\'' || c == '"'
  }

  /** The lazy `(.+?)` followed by a quote: the first quote at or after `e`,
      with no newline before it. */
  function CloseQuote(t: string, e: nat): (r: Option<nat>)
    requires e <= |t|
    ensures r.Some? ==> e <= r.value < |t| && QuoteChar(t[r.value]) && NoNewline(t, e, r.value)
    ensures r.Some? ==> forall k | e <= k < r.value :: !QuoteChar(t[k])
    ensures r.None? ==> forall k | e <= k < |t| && NoNewline(t, e, k) :: !QuoteChar(t[k])
    decreases |t| - e
  {
    if e == |t| then None
    else if QuoteChar(t[e]) then Some(e)
    else if t[e] == '\n' then None
    else CloseQuote(t, e + 1)
  }

  /** `to say ['"](.+?)['"]` (ignoring case) matches at `p`: the span of the
      captured note. */
  function NoteAt(t: string, p: nat): (r: Option<(nat, nat)>)
    requires p <= |t|
    ensures r.Some? ==> LitAt(t, p, "to say ") && p + 8 < |t| && QuoteChar(t[p + 7])
    ensures r.Some? ==> r.value.0 == p + 8 && r.value.0 < r.value.1 < |t|
    ensures r.Some? ==> QuoteChar(t[r.value.1]) && NoNewline(t, r.value.0, r.value.1)
    ensures r.Some? ==> forall k | r.value.0 < k < r.value.1 :: !QuoteChar(t[k])
  {
    if LitAt(t, p, "to say ") && p + 8 < |t| && QuoteChar(t[p + 7]) && t[p + 8] != '\n' then
      match CloseQuote(t, p + 9)
      case Some(e) => Some((p + 8, e))
      case None => None
    else None
  }

  /** `re.search`: the leftmost start from `p` on at which the pattern matches. */
  function FirstNote(t: string, p: nat): (q: Option<nat>)
    requires p <= |t|
    ensures q.Some? ==> p <= q.value <= |t| && NoteAt(t, q.value).Some?
    ensures q.Some? ==> forall x | p <= x < q.value :: NoteAt(t, x).None?
    ensures q.None? ==> forall x | p <= x <= |t| :: NoteAt(t, x).None?
    decreases |t| - p
  {
    if NoteAt(t, p).Some? then Some(p)
    else if p == |t| then None
    else FirstNote(t, p + 1)
  }

  /** `extract_wishlist_note`: the note quoted after "to say", or "". */
  function ExtractNote(t: string): string {
    match FirstNote(t, 0)
    case Some(q) => t[NoteAt(t, q).value.0..NoteAt(t, q).value.1]
    case None => ""
  }

  /** The note is "" exactly when the pattern matches nowhere, and otherwise
      the quoted text of the leftmost match. */
  lemma ExtractNoteSpec(t: string)
    ensures var r := ExtractNote(t);
      && (r == "" <==> forall q | 0 <= q <= |t| :: NoteAt(t, q).None?)
      && (r != "" ==> exists q | 0 <= q <= |t| ::
            && NoteAt(t, q).Some? && r == t[NoteAt(t, q).value.0..NoteAt(t, q).value.1]
            && forall x | 0 <= x < q :: NoteAt(t, x).None?)
  {
    match FirstNote(t, 0)
    case Some(q) =>
      assert NoteAt(t, q).value.0 < NoteAt(t, q).value.1;
    case None =>
  }

  /** A note is a single line; only its first character may be a quote, and
      it is followed by a quote. */
  lemma ExtractNoteShape(t: string)
    ensures var r := ExtractNote(t);
      r != "" ==> (forall k | 0 <= k < |r| :: r[k] != '\n') && (forall k | 1 <= k < |r| :: !QuoteChar(r[k]))
  {
    var q := FirstNote(t, 0);
    if q.Some? {
      var span := NoteAt(t, q.value).value;
      NoteBody(t, span.0, span.1);
    }
  }

  lemma NoteBody(t: string, a: nat, e: nat)
    requires a < e < |t| && NoNewline(t, a, e)
    requires forall k | a < k < e :: !QuoteChar(t[k])
    ensures forall k | 0 <= k < |t[a..e]| :: t[a..e][k] != '\n'
    ensures forall k | 1 <= k < |t[a..e]| :: !QuoteChar(t[a..e][k])
  {
  }

  /** The quoted note after "to say" is extracted without its quotes. */
  lemma ExtractNoteExample()
    ensures ExtractNote("to say 'ok'") == "ok"
  {
    var t := "to say 'ok'";
    assert LitAt(t, 0, "to say ");
    assert CloseQuote(t, 9) == Some(10);
    assert NoteAt(t, 0) == Some((8, 10));
  }

  // ----- dispatch ------------------------------------------------------------

  datatype Route =
    | ShowHistory
    | SmallTalk
    | ShowWishlist
    | AddItem
    | DeleteItem
    | UpdateItem
    | UnknownWishlistAction
    | RunSearch

  predicate StartsWith(s: string, prefix: string) {
    |prefix| <= |s| && s[..|prefix|] == prefix
  }

  /** The branches of `search`, checked in the order written. */
  function RouteOf(intent: string): Route {
    if intent == "chat_history" then ShowHistory
    else if intent == Smalltalk then SmallTalk
    else if intent == WishlistView then ShowWishlist
    else if StartsWith(intent, "wishlist") then
      if intent == WishlistAdd then AddItem
      else if intent == WishlistDelete then DeleteItem
      else if intent == WishlistUpdate then UpdateItem
      else UnknownWishlistAction
    else RunSearch
  }

  /** Every label that is not chat_history or smalltalk and does not start
      with "wishlist" (clarification, search, anything the classifier
      invents) reaches the search pipeline; every other "wishlist..." label
      than the four known ones is not understood. */
  lemma RouteSpec(intent: string)
    ensures RouteOf(intent) == RunSearch <==>
      intent != "chat_history" && intent != Smalltalk && !StartsWith(intent, "wishlist")
    ensures RouteOf(intent) == UnknownWishlistAction <==>
      StartsWith(intent, "wishlist")
      && intent !in {WishlistView, WishlistAdd, WishlistDelete, WishlistUpdate}
    ensures RouteOf("chat_history") == ShowHistory && RouteOf(Smalltalk) == SmallTalk
    ensures RouteOf(WishlistView) == ShowWishlist && RouteOf(WishlistAdd) == AddItem
    ensures RouteOf(WishlistDelete) == DeleteItem && RouteOf(WishlistUpdate) == UpdateItem
    ensures RouteOf("clarification") == RunSearch && RouteOf("search") == RunSearch
  {
    assert StartsWith(WishlistView, "wishlist");
    assert StartsWith(WishlistAdd, "wishlist");
    assert StartsWith(WishlistDelete, "wishlist");
    assert StartsWith(WishlistUpdate, "wishlist");
    assert "chat_history"[0] != "wishlist"[0];
    assert Smalltalk[0] != "wishlist"[0];
    assert "clarification"[0] != "wishlist"[0];
    assert "search"[0] != "wishlist"[0];
  }

  // ----- conversation history ------------------------------------------------

  /** The session's most recent turn whose parsed fields have a "location"
      key (`find_one` sorted by timestamp, newest first). */
  function LastWithLocation(conv: seq<Turn>, session: string): (r: Option<nat>)
    ensures r.Some? ==> r.value < |conv| && conv[r.value].session == session && HasKey(conv[r.value].parsed, "location")
    ensures r.Some? ==> forall j | r.value < j < |conv| :: !(conv[j].session == session && HasKey(conv[j].parsed, "location"))
    ensures r.None? <==> forall j | 0 <= j < |conv| :: !(conv[j].session == session && HasKey(conv[j].parsed, "location"))
  {
    if conv == [] then None
    else
      var n := |conv| - 1;
      if conv[n].session == session && HasKey(conv[n].parsed, "location") then Some(n)
      else LastWithLocation(conv[..n], session)
  }

  /** The session's turns, oldest first. */
  function SessionTurns(conv: seq<Turn>, session: string): (r: seq<Turn>)
    ensures forall t <- r :: t in conv && t.session == session
    ensures |r| <= |conv|
  {
    if conv == [] then []
    else (if conv[0].session == session then [conv[0]] else []) + SessionTurns(conv[1..], session)
  }

  /** The turns among `ts` with a non-empty response, each as its input and
      the first 120 characters of its response. */
  function HistoryLines(ts: seq<Turn>): (r: seq<(string, string)>)
    ensures |r| <= |ts|
    ensures forall line <- r :: |line.1| <= 120 && line.1 != ""
  {
    if ts == [] then []
    else
      var t := ts[0];
      (if t.response != "" then [(t.userInput, t.response[..if |t.response| < 120 then |t.response| else 120])] else [])
      + HistoryLines(ts[1..])
  }

  /** The chat_history reply: of the session's ten most recent turns, those
      with a response, oldest first. */
  function ChatHistory(conv: seq<Turn>, session: string): (r: seq<(string, string)>)
    ensures |r| <= 10
  {
    var ts := SessionTurns(conv, session);
    var recent := if |ts| <= 10 then ts else ts[|ts| - 10..];
    HistoryLines(recent)
  }

  // ----- context inheritance -------------------------------------------------

  const ContextKeys := ["location", "categories", "rating", "price"]

  /** The fields after `parsed.setdefault(k, last.get(k))` for each of `keys`
      in turn. */
  function InheritFrom(parsed: Fields, last: Fields, keys: seq<string>): Fields
    decreases |keys|
  {
    if keys == [] then parsed
    else InheritFrom(SetDefault(parsed, keys[0], Get(last, keys[0])), last, keys[1..])
  }

  /** Each key of `keys` that `parsed` lacks takes the last turn's value (null
      if it has none); every other key keeps its value, even a null one. */
  ghost predicate Inherited(parsed: Fields, last: Fields, r: Fields, keys: seq<string>) {
    forall k :: Lookup(r, k) == if k in keys && !HasKey(parsed, k) then Some(Get(last, k)) else Lookup(parsed, k)
  }

  /** The repeated `setdefault` fills in exactly the missing keys, and keeps
      the parsed fields as they are, in front. */
  lemma {:induction false} InheritFromSpec(parsed: Fields, last: Fields, keys: seq<string>)
    ensures Inherited(parsed, last, InheritFrom(parsed, last, keys), keys)
    ensures |parsed| <= |InheritFrom(parsed, last, keys)|
    ensures InheritFrom(parsed, last, keys)[..|parsed|] == parsed
    decreases |keys|
  {
    if keys != [] {
      var k0 := keys[0];
      var next := SetDefault(parsed, k0, Get(last, k0));
      InheritFromSpec(next, last, keys[1..]);
      var r := InheritFrom(parsed, last, keys);
      forall j ensures Lookup(r, j) == if j in keys && !HasKey(parsed, j) then Some(Get(last, j)) else Lookup(parsed, j) {
        if !HasKey(parsed, k0) {
          LookupAppend(parsed, k0, Get(last, k0), j);
        }
        assert j in keys <==> j == k0 || j in keys[1..];
      }
      assert r[..|next|][..|parsed|] == r[..|parsed|];
    }
  }

  /** The context-inheritance block of `search`: with a previous turn that
      has a location, fill in the missing context keys from it and compute
      `missing` afresh; without one, keep both as parsed. */
  method InheritContext(parsed: Fields, missing: seq<string>, last: Option<Fields>)
    returns (p: Fields, m: seq<string>)
    ensures last.None? ==> p == parsed && m == missing
    ensures last.Some? ==> p == InheritFrom(parsed, last.value, ContextKeys) && m == MissingFields(p)
    ensures last.Some? ==> Inherited(parsed, last.value, p, ContextKeys)
    ensures last.Some? ==> |parsed| <= |p| && p[..|parsed|] == parsed
  {
    p, m := parsed, missing;
    if last.Some? {
      var i := 0;
      while i < |ContextKeys|
        invariant 0 <= i <= |ContextKeys|
        invariant InheritFrom(p, last.value, ContextKeys[i..]) == InheritFrom(parsed, last.value, ContextKeys)
      {
        var k := ContextKeys[i];
        assert ContextKeys[i..][0] == k && ContextKeys[i..][1..] == ContextKeys[i + 1..];
        p := SetDefault(p, k, Get(last.value, k));
        i := i + 1;
      }
      assert ContextKeys[|ContextKeys|..] == [];
      InheritFromSpec(parsed, last.value, ContextKeys);
      m := MissingFields(p);
    }
  }

  /** After inheritance, a field is reported missing exactly when it is
      still falsy; a present field that was falsy stays missing even if the
      last turn had a value for it. */
  lemma InheritedMissing(parsed: Fields, last: Fields, p: Fields)
    requires Inherited(parsed, last, p, ContextKeys)
    ensures "location" in MissingFields(p) <==>
      if HasKey(parsed, "location") then !Truthy(Get(parsed, "location")) else !Truthy(Get(last, "location"))
    ensures "categories" in MissingFields(p) <==>
      if HasKey(parsed, "categories") then !Truthy(Get(parsed, "categories")) else !Truthy(Get(last, "categories"))
  {
    MissingFieldsSpec(p);
    assert Lookup(p, "location") == if !HasKey(parsed, "location") then Some(Get(last, "location")) else Lookup(parsed, "location");
    assert Lookup(p, "categories") == if !HasKey(parsed, "categories") then Some(Get(last, "categories")) else Lookup(parsed, "categories");
  }

  /** The search fields after inheritance from the session's last turn with
      a location, if there is one. */
  function MergedFields(conv: seq<Turn>, session: string, parsed: Fields): Fields {
    match LastWithLocation(conv, session)
    case Some(i) => InheritFrom(parsed, conv[i].parsed, ContextKeys)
    case None => parsed
  }

  /** The merged fields inherit from the session's last turn with a location,
      or are the parsed fields when the session has none. */
  lemma MergedFieldsSpec(conv: seq<Turn>, session: string, parsed: Fields)
    ensures LastWithLocation(conv, session).None? ==> MergedFields(conv, session, parsed) == parsed
    ensures LastWithLocation(conv, session).Some? ==>
      Inherited(parsed, conv[LastWithLocation(conv, session).value].parsed, MergedFields(conv, session, parsed), ContextKeys)
  {
    if LastWithLocation(conv, session).Some? {
      InheritFromSpec(parsed, conv[LastWithLocation(conv, session).value].parsed, ContextKeys);
    }
  }

  // ----- wishlist helpers ------------------------------------------------------

  /** The fields as `_log` stores them. */
  function SanitizeFields(f: Fields): (r: Fields)
    ensures NoIdKey(Dict(r))
  {
    MainSanitizeShape(Dict(f));
    MainSanitizeNoIdKey(Dict(f));
    MainSanitize(Dict(f)).fields
  }

  /** `restaurants_coll.find_one({"name": {"$regex": name, "$options": "i"}})`:
      the first restaurant whose name the user's text matches. */
  function FindRestaurant(rs: seq<Restaurant>, name: string, matches: (string, string) -> bool): (r: Option<nat>)
    ensures r.Some? ==> r.value < |rs| && matches(name, rs[r.value].name)
    ensures r.Some? ==> forall j | 0 <= j < r.value :: !matches(name, rs[j].name)
    ensures r.None? <==> forall j | 0 <= j < |rs| :: !matches(name, rs[j].name)
  {
    RestaurantWhere(rs, n => matches(name, n))
  }

  /** `wishlist_coll.find_one({"restaurant_id": rid})`: the first item for
      the restaurant, whoever it belongs to. */
  function FirstItem(ws: seq<WishItem>, rid: string): (r: Option<nat>)
    ensures r.Some? ==> r.value < |ws| && ws[r.value].restaurantId == rid
    ensures r.Some? ==> forall j | 0 <= j < r.value :: ws[j].restaurantId != rid
    ensures r.None? <==> forall j | 0 <= j < |ws| :: ws[j].restaurantId != rid
  {
    ItemWhere(ws, _ => true, rid)
  }

  /** What a wishlist helper does: its reply, the wishlist after it, and the
      conversation turns it logs. */
  datatype Effect = Effect(msg: string, wishlist: seq<WishItem>, logged: seq<Turn>)

  /** `_wishlist_add`: an unknown name is logged with the "can't find" reply;
      a restaurant already in the wishlist, under any user, is reported;
      otherwise one item with the note and no user is appended. */
  function AddItemEffect(rs: seq<Restaurant>, ws: seq<WishItem>, session: string, name: string, note: string,
                         parsed: Fields, userInput: string, matches: (string, string) -> bool, now: int): (e: Effect)
    ensures ws <= e.wishlist && |e.wishlist| <= |ws| + 1
    ensures FindRestaurant(rs, name, matches).None? <==> e.logged != []
    ensures e.logged != [] ==>
      e.wishlist == ws && e.logged == [Turn(session, userInput, e.msg, WishlistAdd, SanitizeFields(parsed))]
    ensures FindRestaurant(rs, name, matches).Some? ==>
      FirstItem(e.wishlist, rs[FindRestaurant(rs, name, matches).value].id).Some?
    ensures var f := FindRestaurant(rs, name, matches);
      e.wishlist != ws <==> f.Some? && FirstItem(ws, rs[f.value].id).None?
    ensures var f := FindRestaurant(rs, name, matches);
      e.wishlist != ws ==>
        && e.wishlist[|ws|].restaurantId == rs[f.value].id
        && e.wishlist[|ws|].userId.None? && e.wishlist[|ws|].note == Some(note)
    ensures UniqueRestaurantIds(ws) ==> UniqueRestaurantIds(e.wishlist)
  {
    match FindRestaurant(rs, name, matches)
    case None =>
      var msg := "⚠️ Can't find restaurant named **" + name + "**.";
      Effect(msg, ws, [Turn(session, userInput, msg, WishlistAdd, SanitizeFields(parsed))])
    case Some(i) =>
      var r := rs[i];
      if FirstItem(ws, r.id).Some? then
        Effect("⚠️ " + r.name + " is already in your wishlist.", ws, [])
      else
        var after := ws + [WishItem(None, r.id, r.name, Some(note), now, None)];
        assert after[|ws|].restaurantId == r.id;
        Effect("✅ " + r.name + " has been added to your wishlist.", after, [])
  }

  /** `_wishlist_delete`: removes the first item of the first matching
      restaurant, whoever it belongs to. */
  function DeleteItemEffect(rs: seq<Restaurant>, ws: seq<WishItem>, name: string,
                            matches: (string, string) -> bool): (e: Effect)
    ensures e.logged == []
    ensures var f := FindRestaurant(rs, name, matches);
      if f.None? || FirstItem(ws, rs[f.value].id).None? then e.wishlist == ws
      else var k := FirstItem(ws, rs[f.value].id).value; e.wishlist == ws[..k] + ws[k + 1..]
    ensures e.msg == "✅ Removed." <==> e.wishlist != ws
    ensures UniqueRestaurantIds(ws) ==> UniqueRestaurantIds(e.wishlist)
  {
    match FindRestaurant(rs, name, matches)
    case None =>
      var msg := "⚠️ Cannot find restaurant named " + name + " from wishlist.";
      assert msg[0] != "✅ Removed."[0];
      Effect(msg, ws, [])
    case Some(i) =>
      match FirstItem(ws, rs[i].id)
      case None => Effect("⚠️ Not found in wishlist.", ws, [])
      case Some(k) =>
        RemoveKeepsUnique(ws, k);
        assert |ws[..k] + ws[k + 1..]| < |ws|;
        Effect("✅ Removed.", ws[..k] + ws[k + 1..], [])
  }

  /** `_wishlist_update_note`: sets the note and the update time of the
      first item of the first matching restaurant.  The reply follows the
      modified count, so an item that already had exactly these values is
      reported as not there. */
  function UpdateNoteEffect(rs: seq<Restaurant>, ws: seq<WishItem>, name: string, note: string,
                            matches: (string, string) -> bool, now: int): (e: Effect)
    ensures e.logged == [] && |e.wishlist| == |ws|
    ensures var f := FindRestaurant(rs, name, matches);
      if f.None? || FirstItem(ws, rs[f.value].id).None? then e.wishlist == ws
      else var k := FirstItem(ws, rs[f.value].id).value;
        e.wishlist == ws[k := ws[k].(note := Some(note), updatedAt := Some(now))]
    ensures e.msg == "✅ Note updated." <==> e.wishlist != ws
    ensures UniqueRestaurantIds(ws) ==> UniqueRestaurantIds(e.wishlist)
  {
    match FindRestaurant(rs, name, matches)
    case None =>
      var msg := "⚠️ Cannot find restaurant named " + name + ".";
      assert msg[0] != "✅ Note updated."[0];
      Effect(msg, ws, [])
    case Some(i) =>
      match FirstItem(ws, rs[i].id)
      case None => Effect("⚠️ No existing item to update.", ws, [])
      case Some(k) =>
        var it := ws[k];
        var updated := it.(note := Some(note), updatedAt := Some(now));
        assert updated != it ==> ws[k := updated] != ws by {
          assert ws[k := updated][k] == updated;
        }
        Effect(if updated == it then "⚠️ No existing item to update." else "✅ Note updated.", ws[k := updated], [])
  }

  /** `_wishlist_add`, step by step. */
  method WishlistAddItem(db: Db, session: string, name: string, note: string, parsed: Fields,
                         userInput: string, matches: (string, string) -> bool, now: int)
    returns (msg: string)
    modifies db
    ensures db.restaurants == old(db.restaurants)
    ensures var e := AddItemEffect(old(db.restaurants), old(db.wishlist), session, name, note, parsed, userInput, matches, now);
      msg == e.msg && db.wishlist == e.wishlist && db.conversations == old(db.conversations) + e.logged
  {
    var found := FindRestaurant(db.restaurants, name, matches);
    if found.None? {
      msg := "⚠️ Can't find restaurant named **" + name + "**.";
      db.Log(session, userInput, msg, WishlistAdd, SanitizeFields(parsed));
      return;
    }
    var r := db.restaurants[found.value];
    if FirstItem(db.wishlist, r.id).Some? {
      msg := "⚠️ " + r.name + " is already in your wishlist.";
      return;
    }
    db.wishlist := db.wishlist + [WishItem(None, r.id, r.name, Some(note), now, None)];
    msg := "✅ " + r.name + " has been added to your wishlist.";
  }

  /** `_wishlist_delete`, step by step. */
  method WishlistDeleteItem(db: Db, name: string, matches: (string, string) -> bool)
    returns (msg: string)
    modifies db
    ensures db.restaurants == old(db.restaurants) && db.conversations == old(db.conversations)
    ensures var e := DeleteItemEffect(old(db.restaurants), old(db.wishlist), name, matches);
      msg == e.msg && db.wishlist == e.wishlist
  {
    var found := FindRestaurant(db.restaurants, name, matches);
    if found.None? {
      return "⚠️ Cannot find restaurant named " + name + " from wishlist.";
    }
    var k := FirstItem(db.wishlist, db.restaurants[found.value].id);
    if k.None? {
      return "⚠️ Not found in wishlist.";
    }
    db.wishlist := db.wishlist[..k.value] + db.wishlist[k.value + 1..];
    msg := "✅ Removed.";
  }

  /** `_wishlist_update_note`, step by step. */
  method WishlistUpdateNote(db: Db, name: string, note: string, matches: (string, string) -> bool, now: int)
    returns (msg: string)
    modifies db
    ensures db.restaurants == old(db.restaurants) && db.conversations == old(db.conversations)
    ensures var e := UpdateNoteEffect(old(db.restaurants), old(db.wishlist), name, note, matches, now);
      msg == e.msg && db.wishlist == e.wishlist
  {
    var found := FindRestaurant(db.restaurants, name, matches);
    if found.None? {
      return "⚠️ Cannot find restaurant named " + name + ".";
    }
    var k := FirstItem(db.wishlist, db.restaurants[found.value].id);
    if k.None? {
      return "⚠️ No existing item to update.";
    }
    var it := db.wishlist[k.value];
    var updated := it.(note := Some(note), updatedAt := Some(now));
    db.wishlist := db.wishlist[k.value := updated];
    msg := if updated == it then "⚠️ No existing item to update." else "✅ Note updated.";
  }

  /** `wishlist_confirm`: add the restaurant the panel names by id, without a
      note, unless it is already in the wishlist. */
  method WishlistConfirm(db: Db, rid: string, now: int) returns (msg: string)
    modifies db
    ensures db.restaurants == old(db.restaurants) && db.conversations == old(db.conversations)
    ensures
      var id := ParseObjectId(rid);
      if id.None? then
        msg == "Invalid restaurant ID." && db.wishlist == old(db.wishlist)
      else if RestaurantById(old(db.restaurants), id.value).None? then
        msg == "Restaurant not found." && db.wishlist == old(db.wishlist)
      else
        var r := old(db.restaurants)[RestaurantById(old(db.restaurants), id.value).value];
        if FirstItem(old(db.wishlist), id.value).Some? then
          msg == r.name + " is already in your wishlist." && db.wishlist == old(db.wishlist)
        else
          && msg == r.name + " added to wishlist."
          && db.wishlist == old(db.wishlist) + [WishItem(None, id.value, r.name, None, now, None)]
    ensures UniqueRestaurantIds(old(db.wishlist)) ==> UniqueRestaurantIds(db.wishlist)
  {
    var id := ParseObjectId(rid);
    if id.None? {
      return "Invalid restaurant ID.";
    }
    var k := RestaurantById(db.restaurants, id.value);
    if k.None? {
      return "Restaurant not found.";
    }
    var r := db.restaurants[k.value];
    if FirstItem(db.wishlist, id.value).Some? {
      return r.name + " is already in your wishlist.";
    }
    db.wishlist := db.wishlist + [WishItem(None, id.value, r.name, None, now, None)];
    msg := r.name + " added to wishlist.";
  }

  // ----- the wishlist panel ----------------------------------------------------

  /** What `_render_wishlist` shows: the fixed empty message when there are
      no items at all; otherwise the restaurant of each item, in wishlist
      order, skipping items whose restaurant is gone (possibly none left). */
  datatype Panel = EmptyPanel | PanelItems(restaurants: seq<Restaurant>)

  function PanelRestaurants(rs: seq<Restaurant>, ws: seq<WishItem>): (r: seq<Restaurant>)
    ensures |r| <= |ws|
    ensures forall x <- r :: x in rs && exists w <- ws :: w.restaurantId == x.id
  {
    if ws == [] then []
    else
      var first := match RestaurantById(rs, ws[0].restaurantId)
        case Some(i) => [rs[i]]
        case None => [];
      first + PanelRestaurants(rs, ws[1..])
  }

  function RenderWishlist(rs: seq<Restaurant>, ws: seq<WishItem>): (r: Panel)
    ensures r == EmptyPanel <==> ws == []
  {
    if ws == [] then EmptyPanel else PanelItems(PanelRestaurants(rs, ws))
  }

  // ----- the wishlist branch of /search -------------------------------------------

  /** The fields a wishlist command carries: the location of the session's
      last turn that had one, if any. */
  function WishlistContext(conv: seq<Turn>, session: string): (r: Fields)
    ensures LastWithLocation(conv, session).None? <==> r == []
    ensures LastWithLocation(conv, session).Some? ==>
      |r| == 1 && Lookup(r, "location") == Some(Get(conv[LastWithLocation(conv, session).value].parsed, "location"))
  {
    match LastWithLocation(conv, session)
    case Some(i) => [("location", Get(conv[i].parsed, "location"))]
    case None => []
  }

  /** The helper the command's route selects: addition, deletion, note
      update, or the fixed reply for any other wishlist label. */
  function ActionEffect(route: Route, rs: seq<Restaurant>, ws: seq<WishItem>, session: string, name: string,
                        note: string, parsed: Fields, text: string, matches: (string, string) -> bool, now: int)
    : (e: Effect)
    ensures route != AddItem ==> e.logged == []
    ensures route !in {AddItem, DeleteItem, UpdateItem} ==> e == Effect("Sorry, I didn't understand.", ws, [])
    ensures UniqueRestaurantIds(ws) ==> UniqueRestaurantIds(e.wishlist)
  {
    match route
    case AddItem => AddItemEffect(rs, ws, session, name, note, parsed, text, matches, now)
    case DeleteItem => DeleteItemEffect(rs, ws, name, matches)
    case UpdateItem => UpdateNoteEffect(rs, ws, name, note, matches, now)
    case _ => Effect("Sorry, I didn't understand.", ws, [])
  }

  /** The text the name is extracted from: the cached canonical form of the
      command when the cache knows it, else the command itself. */
  function CommandSource(log: seq<Entry>, hash: string -> string, text: string): string {
    match FirstMatch(log, Key(hash, text))
    case Some(i) => log[i].canonical
    case None => text
  }

  /** The wishlist branch of `search`: the name from the cached canonical
      form (else the text), the note from the text, the location context of
      the session; every command but an addition is then logged with its
      reply. */
  function CommandEffect(conv: seq<Turn>, rs: seq<Restaurant>, ws: seq<WishItem>, log: seq<Entry>,
                         hash: string -> string, text: string, session: string, intent: string,
                         matches: (string, string) -> bool, now: int): (e: Effect)
    ensures RouteOf(intent) != AddItem ==>
      e.logged == [Turn(session, text, e.msg, intent, SanitizeFields(WishlistContext(conv, session)))]
    ensures RouteOf(intent) == UnknownWishlistAction ==> e.msg == "Sorry, I didn't understand." && e.wishlist == ws
    ensures UniqueRestaurantIds(ws) ==> UniqueRestaurantIds(e.wishlist)
  {
    var route := RouteOf(intent);
    var name := ExtractName(CommandSource(log, hash, text));
    var note := ExtractNote(text);
    var parsed := WishlistContext(conv, session);
    var e := ActionEffect(route, rs, ws, session, name, note, parsed, text, matches, now);
    if route == AddItem then e
    else e.(logged := [Turn(session, text, e.msg, intent, SanitizeFields(parsed))])
  }

  /** The wishlist helper the command's route selects, applied to the
      extracted name and note. */
  method WishlistAction(db: Db, route: Route, session: string, name: string, note: string, parsed: Fields,
                        text: string, matches: (string, string) -> bool, now: int)
    returns (msg: string)
    requires route in {AddItem, DeleteItem, UpdateItem, UnknownWishlistAction}
    modifies db
    ensures db.restaurants == old(db.restaurants)
    ensures var e := ActionEffect(route, old(db.restaurants), old(db.wishlist), session, name, note, parsed, text, matches, now);
      msg == e.msg && db.wishlist == e.wishlist && db.conversations == old(db.conversations) + e.logged
  {
    if route == AddItem {
      msg := WishlistAddItem(db, session, name, note, parsed, text, matches, now);
    } else if route == DeleteItem {
      msg := WishlistDeleteItem(db, name, matches);
    } else if route == UpdateItem {
      msg := WishlistUpdateNote(db, name, note, matches, now);
    } else {
      msg := "Sorry, I didn't understand.";
    }
  }

  /** The wishlist branch of `search`, step by step. */
  method WishlistCommand(db: Db, cache: Cache, text: string, session: string, intent: string,
                         matches: (string, string) -> bool, now: int)
    returns (msg: string)
    requires RouteOf(intent) in {AddItem, DeleteItem, UpdateItem, UnknownWishlistAction}
    modifies db
    ensures db.restaurants == old(db.restaurants)
    ensures var e := CommandEffect(old(db.conversations), old(db.restaurants), old(db.wishlist), cache.log, cache.hash,
                                   text, session, intent, matches, now);
      msg == e.msg && db.wishlist == e.wishlist && db.conversations == old(db.conversations) + e.logged
  {
    var route := RouteOf(intent);
    var hit := cache.Lookup(text, now);
    var canonical := if hit.Some? then hit.value.canonical else text;
    assert canonical == CommandSource(cache.log, cache.hash, text);
    var name := ExtractName(canonical);
    var note := ExtractNote(text);
    var parsed := WishlistContext(db.conversations, session);
    ghost var e := ActionEffect(route, db.restaurants, db.wishlist, session, name, note, parsed, text, matches, now);
    ghost var conv := db.conversations;
    ghost var ce := CommandEffect(db.conversations, db.restaurants, db.wishlist, cache.log, cache.hash, text, session,
                                  intent, matches, now);
    assert ce.msg == e.msg && ce.wishlist == e.wishlist;
    assert route == AddItem ==> ce.logged == e.logged;
    assert route != AddItem ==> ce.logged == [Turn(session, text, e.msg, intent, SanitizeFields(parsed))] && e.logged == [];
    msg := WishlistAction(db, route, session, name, note, parsed, text, matches, now);
    assert msg == e.msg && db.conversations == conv + e.logged;
    if route != AddItem {
      assert db.conversations == conv;
      db.Log(session, text, msg, intent, SanitizeFields(parsed));
    }
    assert msg == ce.msg && db.wishlist == ce.wishlist && db.conversations == conv + ce.logged;
  }

  // ----- the search branch of /search ---------------------------------------------

  /** The search branch up to the restaurant lookup: the reply and the turns
      it logs.  A query still missing a required field after inheritance is
      logged as a clarification and answered with the follow-up question;
      a complete one goes on to the lookup with the merged fields. */
  function SearchStep(conv: seq<Turn>, session: string, text: string, q: ParsedQuery): (r: (SearchReply, seq<Turn>))
    ensures r.0.Incomplete? || r.0.Complete?
    ensures r.0.Incomplete? <==> MissingFields(MergedFields(conv, session, q.parsed)) != []
    ensures r.0.Incomplete? ==>
      r.0.followup == q.followup
      && r.1 == [Turn(session, text, q.followup, "clarification", SanitizeFields(MergedFields(conv, session, q.parsed)))]
    ensures r.0.Complete? ==> r.0.parsed == MergedFields(conv, session, q.parsed) && r.1 == []
  {
    var m := MergedFields(conv, session, q.parsed);
    if MissingFields(m) != [] then
      (Incomplete(q.followup), [Turn(session, text, q.followup, "clarification", SanitizeFields(m))])
    else (Complete(m), [])
  }

  /** The search branch of `search`, step by step. */
  method SearchCommand(db: Db, text: string, session: string, extraction: ExtractionReply,
                       followupReply: Option<string>)
    returns (reply: SearchReply)
    modifies db
    ensures db.restaurants == old(db.restaurants) && db.wishlist == old(db.wishlist)
    ensures var step := SearchStep(old(db.conversations), session, text, ParseOutcome(text, extraction, followupReply));
      reply == step.0 && db.conversations == old(db.conversations) + step.1
  {
    var q := ParseNlQuery(text, extraction, followupReply);
    var last := LastWithLocation(db.conversations, session);
    var lastParsed := if last.Some? then Some(db.conversations[last.value].parsed) else None;
    var parsed, missing := InheritContext(q.parsed, q.missing, lastParsed);
    if missing != [] {
      db.Log(session, text, q.followup, "clarification", SanitizeFields(parsed));
      return Incomplete(q.followup);
    }
    return Complete(parsed);
  }

  // ----- the /search route -----------------------------------------------------

  const Welcome := "👋 Hi there! How can I help you with food today?"

  datatype SearchReply =
    | BadRequest                              // HTTP 400 "query required"
    | ClassifierError                         // the classifier call raised
    | History(lines: seq<(string, string)>)
    | Chat(msg: string)
    | WishlistPanel(panel: Panel)
    | WishlistReply(msg: string)
    | Incomplete(followup: string)
    | Complete(parsed: Fields)                // a complete query, handed to the restaurant lookup

  /** `payload.get("session_id") or str(uuid.uuid4())`. */
  function SessionOf(sessionId: Option<string>, freshSession: string): string {
    if sessionId.Some? && sessionId.value != "" then sessionId.value else freshSession
  }

  /** What the classified intent's branch of `search` answers and leaves
      behind: `conv`/`ws` before, `conv'`/`ws'` after. */
  predicate Answered(conv: seq<Turn>, rs: seq<Restaurant>, ws: seq<WishItem>, conv': seq<Turn>, ws': seq<WishItem>,
                     log: seq<Entry>, hash: string -> string, text: string, session: string, intent: string,
                     extraction: ExtractionReply, followupReply: Option<string>,
                     matches: (string, string) -> bool, now: int, reply: SearchReply)
  {
    match RouteOf(intent)
    case ShowHistory => reply == History(ChatHistory(conv, session)) && conv' == conv && ws' == ws
    case SmallTalk => reply == Chat(Welcome) && conv' == conv && ws' == ws
    case ShowWishlist => reply == WishlistPanel(RenderWishlist(rs, ws)) && conv' == conv && ws' == ws
    case RunSearch =>
      var step := SearchStep(conv, session, text, ParseOutcome(text, extraction, followupReply));
      reply == step.0 && conv' == conv + step.1 && ws' == ws
    case _ =>
      var e := CommandEffect(conv, rs, ws, log, hash, text, session, intent, matches, now);
      reply == WishlistReply(e.msg) && ws' == e.wishlist && conv' == conv + e.logged
  }

  /** The branch of `search` the classified intent selects. */
  method Respond(db: Db, cache: Cache, text: string, session: string, intent: string,
                 extraction: ExtractionReply, followupReply: Option<string>,
                 matches: (string, string) -> bool, now: int)
    returns (reply: SearchReply)
    modifies db
    ensures !reply.BadRequest? && !reply.ClassifierError?
    ensures db.restaurants == old(db.restaurants)
    ensures Answered(old(db.conversations), old(db.restaurants), old(db.wishlist), db.conversations, db.wishlist,
                     cache.log, cache.hash, text, session, intent, extraction, followupReply, matches, now, reply)
  {
    var route := RouteOf(intent);
    if route == ShowHistory {
      reply := History(ChatHistory(db.conversations, session));
    } else if route == SmallTalk {
      reply := Chat(Welcome);
    } else if route == ShowWishlist {
      reply := WishlistPanel(RenderWishlist(db.restaurants, db.wishlist));
    } else if route == RunSearch {
      reply := SearchCommand(db, text, session, extraction, followupReply);
    } else {
      var msg := WishlistCommand(db, cache, text, session, intent, matches, now);
      reply := WishlistReply(msg);
    }
  }

  /** The `/search` route up to the restaurant lookup.  `query` is the
      payload's query as a string; the model's replies, the name matcher and
      the clock are parameters.  An empty query is refused, a failed
      classification is an error, and otherwise the classified intent
      selects the branch. */
  method Search(db: Db, cache: Cache, query: string, sessionId: Option<string>, freshSession: string,
                classifier: ClassifierReply, extraction: ExtractionReply, followupReply: Option<string>,
                matches: (string, string) -> bool, now: int)
    returns (reply: SearchReply, intent: Option<string>)
    modifies db, cache
    ensures Strip(query) == [] <==> reply == BadRequest
    ensures Strip(query) == [] ==> cache.log == old(cache.log) && intent.None?
    ensures Strip(query) != [] ==> intent == ClassifyOutcome(old(cache.log), cache.hash, Strip(query), classifier)
    ensures Strip(query) != [] ==> cache.log == ClassifyLog(old(cache.log), cache.hash, Strip(query), classifier, now)
    ensures reply == ClassifierError <==> Strip(query) != [] && intent.None?
    ensures intent.None? ==> db.conversations == old(db.conversations) && db.wishlist == old(db.wishlist)
    ensures intent.Some? ==>
      Answered(old(db.conversations), old(db.restaurants), old(db.wishlist), db.conversations, db.wishlist,
               cache.log, cache.hash, Strip(query), SessionOf(sessionId, freshSession), intent.value,
               extraction, followupReply, matches, now, reply)
    ensures db.restaurants == old(db.restaurants)
  {
    var text := Strip(query);
    var session := SessionOf(sessionId, freshSession);
    if text == [] {
      return BadRequest, None;
    }
    intent := ClassifyQueryType(cache, text, classifier, now);
    if intent.None? {
      return ClassifierError, None;
    }
    reply := Respond(db, cache, text, session, intent.value, extraction, followupReply, matches, now);
  }
}
