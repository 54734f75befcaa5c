/**
 * The per-user wishlist of app/wishlist.py: candidate search over the
 * restaurants collection (with Yelp as a fallback source), addition by
 * name or by candidate id, deletion, note update and the sorted listing.
 * Restaurant names are matched with the escaped user text as a
 * case-insensitive regular expression, that is, as a literal substring
 * ignoring case.  Yelp is not part of the model: its answer is a parameter.
 */
module Wishlist {
  import opened Base
  import opened Text
  import opened Store

  // ----- name matching ----------------------------------------------------------

  /** `sub` occurs in `s` at position `i`. */
  predicate OccursAt(s: string, sub: string, i: int) {
    0 <= i && i + |sub| <= |s| && s[i..i + |sub|] == sub
  }

  /** `re.search(re.escape(query), name, re.I)` succeeds. */
  predicate NameMatches(name: string, query: string) {
    exists i | 0 <= i <= |name| :: OccursAt(Lower(name), Lower(query), i)
  }

  /** The empty query matches every name, and the match ignores case. */
  lemma NameMatchesSpec(name: string, query: string)
    ensures NameMatches(name, "")
    ensures NameMatches(name, query) <==> NameMatches(Lower(name), Lower(query))
    ensures NameMatches(name, name)
  {
    assert OccursAt(Lower(name), Lower(""), 0);
    assert OccursAt(Lower(name), Lower(name), 0);
    LowerIdempotent(name);
    LowerIdempotent(query);
  }

  // ----- _search_candidates -------------------------------------------------------

  /** The restaurants whose name matches, in natural order. */
  function Matching(rs: seq<Restaurant>, query: string): (r: seq<Restaurant>)
    ensures |r| <= |rs|
    ensures forall x <- r :: x in rs && NameMatches(x.name, query)
    ensures forall x <- rs :: NameMatches(x.name, query) ==> x in r
  {
    if rs == [] then []
    else (if NameMatches(rs[0].name, query) then [rs[0]] else []) + Matching(rs[1..], query)
  }

  /** `find({"name": regex}).limit(5)`. */
  function LocalMatches(rs: seq<Restaurant>, query: string): (r: seq<Restaurant>)
    ensures |r| <= 5
    ensures forall x <- r :: x in rs && NameMatches(x.name, query)
    ensures r == [] <==> forall x <- rs :: !NameMatches(x.name, query)
  {
    var all := Matching(rs, query);
    assert all != [] ==> all[0] in rs && NameMatches(all[0].name, query);
    if |all| <= 5 then all else all[..5]
  }

  /** The local matches are the first five matches in natural order, or all
      of them when there are fewer. */
  lemma LocalMatchesPrefix(rs: seq<Restaurant>, query: string)
    ensures var n := |Matching(rs, query)|;
      |LocalMatches(rs, query)| == (if n < 5 then n else 5)
      && LocalMatches(rs, query) == Matching(rs, query)[..|LocalMatches(rs, query)|]
  {
  }

  /** A business as the Yelp search returns it, with the id the database
      assigns when it is inserted. */
  datatype YelpBusiness = YelpBusiness(yelpId: string, name: string, newId: string)

  /** Index of the first restaurant with this Yelp id. */
  function ByYelpId(rs: seq<Restaurant>, yelpId: string): (r: Option<nat>)
    ensures r.Some? ==> r.value < |rs| && rs[r.value].yelpId == Some(yelpId)
    ensures r.Some? ==> forall j | 0 <= j < r.value :: rs[j].yelpId != Some(yelpId)
    ensures r.None? <==> forall j | 0 <= j < |rs| :: rs[j].yelpId != Some(yelpId)
  {
    if rs == [] then None
    else if rs[0].yelpId == Some(yelpId) then Some(0)
    else match ByYelpId(rs[1..], yelpId)
      case None => None
      case Some(i) => Some(i + 1)
  }

  /** `update_one({"yelp_id": id}, {"$setOnInsert": doc}, upsert=True)`. */
  function Upsert(rs: seq<Restaurant>, b: YelpBusiness): (r: seq<Restaurant>)
    ensures ByYelpId(r, b.yelpId).Some?
    ensures ByYelpId(rs, b.yelpId).Some? ==> r == rs
    ensures ByYelpId(rs, b.yelpId).None? ==> r == rs + [Restaurant(b.newId, Some(b.yelpId), b.name)]
  {
    if ByYelpId(rs, b.yelpId).Some? then rs
    else
      var r := rs + [Restaurant(b.newId, Some(b.yelpId), b.name)];
      assert r[|rs|].yelpId == Some(b.yelpId);
      r
  }

  /** The collection after upserting the businesses in order. */
  function UpsertAll(rs: seq<Restaurant>, bs: seq<YelpBusiness>): (r: seq<Restaurant>)
    ensures |rs| <= |r| <= |rs| + |bs| && r[..|rs|] == rs
  {
    if bs == [] then rs
    else
      var before := UpsertAll(rs, bs[..|bs| - 1]);
      var after := Upsert(before, bs[|bs| - 1]);
      assert after[..|rs|] == before[..|rs|];
      after
  }

  /** The documents `find_one({"yelp_id": id})` returns after each upsert. */
  function YelpCandidates(rs: seq<Restaurant>, bs: seq<YelpBusiness>): (r: seq<Restaurant>)
    ensures |r| == |bs|
    ensures forall i | 0 <= i < |bs| :: r[i].yelpId == Some(bs[i].yelpId)
  {
    if bs == [] then []
    else
      var n := |bs| - 1;
      var now := UpsertAll(rs, bs);
      var k := ByYelpId(now, bs[n].yelpId);
      var prior := YelpCandidates(rs, bs[..n]);
      assert forall i | 0 <= i < n :: bs[..n][i] == bs[i];
      prior + [now[k.value]]
  }

  /** No two restaurants share a Yelp id. */
  predicate UniqueYelpIds(rs: seq<Restaurant>) {
    forall i, j | 0 <= i < j < |rs| && rs[i].yelpId.Some? :: rs[i].yelpId != rs[j].yelpId
  }

  /** Upserting by Yelp id never creates a second document for a business. */
  lemma {:induction false} UpsertAllKeepsUniqueYelpIds(rs: seq<Restaurant>, bs: seq<YelpBusiness>)
    requires UniqueYelpIds(rs)
    ensures UniqueYelpIds(UpsertAll(rs, bs))
  {
    if bs != [] {
      var before := UpsertAll(rs, bs[..|bs| - 1]);
      UpsertAllKeepsUniqueYelpIds(rs, bs[..|bs| - 1]);
      var b := bs[|bs| - 1];
      if ByYelpId(before, b.yelpId).None? {
        var after := before + [Restaurant(b.newId, Some(b.yelpId), b.name)];
        assert Upsert(before, b) == after;
        forall i, j | 0 <= i < j < |after| && after[i].yelpId.Some?
          ensures after[i].yelpId != after[j].yelpId
        {
          if j == |before| {
            assert after[i] == before[i];
          }
        }
      }
    }
  }

  /** Every id is as MongoDB prints an ObjectId: 24 lower-case hex digits. */
  predicate CanonicalIds(rs: seq<Restaurant>) {
    forall r <- rs :: ParseObjectId(r.id) == Some(r.id)
  }

  /** The ids the database assigns to inserted businesses are ObjectIds. */
  predicate CanonicalNewIds(bs: seq<YelpBusiness>) {
    forall b <- bs :: ParseObjectId(b.newId) == Some(b.newId)
  }

  /** Upserting businesses with ObjectIds keeps every id an ObjectId, and
      each stored Yelp document is in the collection afterwards. */
  lemma {:induction false} UpsertAllStored(rs: seq<Restaurant>, bs: seq<YelpBusiness>)
    ensures CanonicalIds(rs) && CanonicalNewIds(bs) ==> CanonicalIds(UpsertAll(rs, bs))
    ensures forall c <- YelpCandidates(rs, bs) :: c in UpsertAll(rs, bs)
  {
    if bs != [] {
      var n := |bs| - 1;
      UpsertAllStored(rs, bs[..n]);
      var before := UpsertAll(rs, bs[..n]);
      var after := UpsertAll(rs, bs);
      assert after == Upsert(before, bs[n]);
      assert forall c <- before :: c in after;
      assert CanonicalNewIds(bs) ==> CanonicalNewIds(bs[..n]) by {
        forall b <- bs[..n] ensures b in bs { }
      }
    }
  }

  /** The candidates: the local matches if there are any, else the Yelp
      businesses as stored. */
  function Candidates(rs: seq<Restaurant>, query: string, bs: seq<YelpBusiness>): seq<Restaurant> {
    if LocalMatches(rs, query) != [] then LocalMatches(rs, query) else YelpCandidates(rs, bs)
  }

  /** One more business: its upsert and its stored document. */
  lemma UpsertStep(rs: seq<Restaurant>, bs: seq<YelpBusiness>, i: nat)
    requires i < |bs|
    ensures UpsertAll(rs, bs[..i + 1]) == Upsert(UpsertAll(rs, bs[..i]), bs[i])
    ensures var now := UpsertAll(rs, bs[..i + 1]);
      YelpCandidates(rs, bs[..i + 1]) == YelpCandidates(rs, bs[..i]) + [now[ByYelpId(now, bs[i].yelpId).value]]
  {
    assert bs[..i + 1][..i] == bs[..i];
    assert bs[..i + 1][i] == bs[i];
  }

  /** `_search_candidates`: at most five local matches; only when there is
      none, each Yelp business is upserted and its stored document taken. */
  method SearchCandidates(db: Db, query: string, yelp: seq<YelpBusiness>) returns (cands: seq<Restaurant>)
    modifies db
    ensures cands == Candidates(old(db.restaurants), query, yelp)
    ensures db.restaurants ==
      if LocalMatches(old(db.restaurants), query) != [] then old(db.restaurants)
      else UpsertAll(old(db.restaurants), yelp)
    ensures db.wishlist == old(db.wishlist) && db.conversations == old(db.conversations)
    ensures forall c <- cands :: c in db.restaurants
  {
    var docs := LocalMatches(db.restaurants, query);
    if docs != [] {
      return docs;
    }
    ghost var rs := db.restaurants;
    cands := [];
    var i := 0;
    while i < |yelp|
      invariant 0 <= i <= |yelp|
      invariant db.restaurants == UpsertAll(rs, yelp[..i])
      invariant cands == YelpCandidates(rs, yelp[..i])
      invariant forall c <- cands :: c in db.restaurants
      invariant db.wishlist == old(db.wishlist) && db.conversations == old(db.conversations)
    {
      var b := yelp[i];
      UpsertStep(rs, yelp, i);
      ghost var before := db.restaurants;
      db.restaurants := Upsert(db.restaurants, b);
      assert before <= db.restaurants;
      var k := ByYelpId(db.restaurants, b.yelpId);
      cands := cands + [db.restaurants[k.value]];
      i := i + 1;
    }
    assert yelp[..|yelp|] == yelp;
  }

  // ----- add_to_wishlist -----------------------------------------------------------

  /** The item of `user` for restaurant `rid`, if any. */
  function UserItem(ws: seq<WishItem>, user: string, rid: string): (r: Option<nat>)
    ensures r.Some? ==> r.value < |ws| && ws[r.value].userId == Some(user) && ws[r.value].restaurantId == rid
    ensures r.None? <==> forall j | 0 <= j < |ws| :: !(ws[j].userId == Some(user) && ws[j].restaurantId == rid)
    ensures r.Some? ==> forall j | 0 <= j < r.value :: !(ws[j].userId == Some(user) && ws[j].restaurantId == rid)
  {
    ItemWhere(ws, u => u == Some(user), rid)
  }

  /** The candidate branch of `add_to_wishlist`: its reply and the wishlist
      after it. */
  function AddById(rs: seq<Restaurant>, ws: seq<WishItem>, user: string, rid: string, note: string, now: int)
    : (r: (string, seq<WishItem>))
    ensures ws <= r.1 && |r.1| <= |ws| + 1
    ensures r.1 != ws <==> RestaurantById(rs, rid).Some? && UserItem(ws, user, rid).None?
    ensures r.1 != ws ==> r.1[|ws|].userId == Some(user) && r.1[|ws|].restaurantId == rid && r.1[|ws|].note == Some(note)
    ensures RestaurantById(rs, rid).None? <==> r.0 == "❌ Candidate not found."
    ensures RestaurantById(rs, rid).Some? ==> UserItem(r.1, user, rid).Some?
    ensures UniquePerUser(ws) ==> UniquePerUser(r.1)
  {
    match RestaurantById(rs, rid)
    case None => ("❌ Candidate not found.", ws)
    case Some(k) =>
      var name := rs[k].name;
      if UserItem(ws, user, rid).Some? then
        ("⚠️ **" + name + "** is already in your wishlist.", ws)
      else
        var after := ws + [WishItem(Some(user), rid, name, Some(note), now, None)];
        assert after[|ws|].restaurantId == rid;
        ("✅ **" + name + "** has been added to your wishlist.", after)
  }

  /** What `add_to_wishlist` answers: a message, the candidate list when
      the name does not single out one restaurant, or the exception an
      invalid candidate id raises. */
  datatype AddReply = Replied(msg: string) | Ambiguous(candidates: seq<Restaurant>) | InvalidCandidateId

  /** `add_to_wishlist` with a candidate id: `ObjectId(cand_id)` raises on
      anything but 24 hex digits; a valid id is added by `AddById`. */
  function ByCandidateId(rs: seq<Restaurant>, ws: seq<WishItem>, user: string, cand: string, note: string, now: int)
    : (r: (AddReply, seq<WishItem>))
    ensures r.0 == InvalidCandidateId <==> ParseObjectId(cand).None?
    ensures r.0 == InvalidCandidateId ==> r.1 == ws
    ensures !r.0.Ambiguous?
    ensures ws <= r.1 && |r.1| <= |ws| + 1
    ensures ParseObjectId(cand).Some? && RestaurantById(rs, ParseObjectId(cand).value).Some? ==>
      UserItem(r.1, user, ParseObjectId(cand).value).Some?
    ensures UniquePerUser(ws) ==> UniquePerUser(r.1)
  {
    match ParseObjectId(cand)
    case None => (InvalidCandidateId, ws)
    case Some(rid) =>
      var (msg, after) := AddById(rs, ws, user, rid, note, now);
      (Replied(msg), after)
  }

  /** `add_to_wishlist`.  A candidate id (any non-empty one) is used;
      without one, the candidates for the name decide: exactly one is added
      through its printed id, any other number (none included) is handed
      back for the user to choose from. */
  method AddToWishlist(db: Db, name: string, note: string, user: string, candId: Option<string>,
                       yelp: seq<YelpBusiness>, now: int)
    returns (r: AddReply)
    modifies db
    ensures db.conversations == old(db.conversations)
    ensures candId.Some? && candId.value != "" ==>
      db.restaurants == old(db.restaurants)
      && (r, db.wishlist) == ByCandidateId(old(db.restaurants), old(db.wishlist), user, candId.value, note, now)
    ensures !(candId.Some? && candId.value != "") ==>
      var cands := Candidates(old(db.restaurants), name, yelp);
      && db.restaurants == (if LocalMatches(old(db.restaurants), name) != [] then old(db.restaurants)
                            else UpsertAll(old(db.restaurants), yelp))
      && if |cands| == 1 then
           (r, db.wishlist) == ByCandidateId(db.restaurants, old(db.wishlist), user, cands[0].id, note, now)
         else
           r == Ambiguous(cands) && db.wishlist == old(db.wishlist)
    ensures CanonicalIds(old(db.restaurants)) && CanonicalNewIds(yelp) ==> CanonicalIds(db.restaurants)
    ensures UniquePerUser(old(db.wishlist)) ==> UniquePerUser(db.wishlist)
  {
    if candId.Some? && candId.value != "" {
      var (reply, ws) := ByCandidateId(db.restaurants, db.wishlist, user, candId.value, note, now);
      db.wishlist := ws;
      return reply;
    }
    UpsertAllStored(db.restaurants, yelp);
    var cands := SearchCandidates(db, name, yelp);
    if |cands| == 1 {
      var (reply, ws) := ByCandidateId(db.restaurants, db.wishlist, user, cands[0].id, note, now);
      db.wishlist := ws;
      return reply;
    }
    return Ambiguous(cands);
  }

  /** With ObjectIds throughout, a single candidate found by name is never
      refused: its printed id is non-empty and valid, so the recursive call
      takes the candidate branch, finds the restaurant, and the user has an
      item for it afterwards. */
  lemma SingleCandidateAdded(rs: seq<Restaurant>, ws: seq<WishItem>, user: string, name: string,
                             yelp: seq<YelpBusiness>, note: string, now: int)
    requires CanonicalIds(rs) && CanonicalNewIds(yelp)
    requires |Candidates(rs, name, yelp)| == 1
    ensures var after := if LocalMatches(rs, name) != [] then rs else UpsertAll(rs, yelp);
      var c := Candidates(rs, name, yelp)[0];
      var r := ByCandidateId(after, ws, user, c.id, note, now);
      && c.id != ""
      && r.0.Replied?
      && UserItem(r.1, user, c.id).Some?
  {
    var after := if LocalMatches(rs, name) != [] then rs else UpsertAll(rs, yelp);
    var c := Candidates(rs, name, yelp)[0];
    UpsertAllStored(rs, yelp);
    assert c in after;
    assert ParseObjectId(c.id) == Some(c.id);
    assert RestaurantById(after, c.id).Some?;
  }

  /** Adding a restaurant twice for the same user leaves one item: the
      second addition reports it as already there. */
  lemma AddByIdTwice(rs: seq<Restaurant>, ws: seq<WishItem>, user: string, rid: string, note: string, note2: string, t1: int, t2: int)
    requires RestaurantById(rs, rid).Some?
    ensures var first := AddById(rs, ws, user, rid, note, t1).1;
      AddById(rs, first, user, rid, note2, t2).1 == first
      && AddById(rs, first, user, rid, note2, t2).0
         == "⚠️ **" + rs[RestaurantById(rs, rid).value].name + "** is already in your wishlist."
  {
  }

  // ----- delete_from_wishlist and update_note ---------------------------------------

  /** The first restaurant whose name matches `query`. */
  function FindByName(rs: seq<Restaurant>, query: string): (r: Option<nat>)
    ensures r.Some? ==> r.value < |rs| && NameMatches(rs[r.value].name, query)
    ensures r.None? <==> forall j | 0 <= j < |rs| :: !NameMatches(rs[j].name, query)
  {
    RestaurantWhere(rs, n => NameMatches(n, query))
  }

  /** `delete_from_wishlist`: removes this user's first item for the first
      matching restaurant; other users' items are never touched. */
  method DeleteFromWishlist(db: Db, name: string, user: string) returns (msg: string)
    modifies db
    ensures db.restaurants == old(db.restaurants) && db.conversations == old(db.conversations)
    ensures
      var found := FindByName(old(db.restaurants), name);
      if found.None? then
        msg == "⚠️ I couldn’t find **" + name + "**." && db.wishlist == old(db.wishlist)
      else
        var rest := old(db.restaurants)[found.value];
        var k := UserItem(old(db.wishlist), user, rest.id);
        if k.None? then
          msg == "⚠️ **" + rest.name + "** was not in your wishlist." && db.wishlist == old(db.wishlist)
        else
          && msg == "❌ **" + rest.name + "** has been removed from your wishlist."
          && db.wishlist == old(db.wishlist)[..k.value] + old(db.wishlist)[k.value + 1..]
    ensures forall w <- old(db.wishlist) | w.userId != Some(user) :: w in db.wishlist
    ensures UniquePerUser(old(db.wishlist)) ==> UniquePerUser(db.wishlist)
  {
    var found := FindByName(db.restaurants, name);
    if found.None? {
      return "⚠️ I couldn’t find **" + name + "**.";
    }
    var rest := db.restaurants[found.value];
    var k := UserItem(db.wishlist, user, rest.id);
    if k.None? {
      return "⚠️ **" + rest.name + "** was not in your wishlist.";
    }
    var ws := db.wishlist;
    RemoveKeepsUnique(ws, k.value);
    RemoveKeepsOthers(ws, k.value, user);
    db.wishlist := ws[..k.value] + ws[k.value + 1..];
    msg := "❌ **" + rest.name + "** has been removed from your wishlist.";
  }

  /** Removing one of this user's items keeps every item of the others. */
  lemma RemoveKeepsOthers(ws: seq<WishItem>, k: nat, user: string)
    requires k < |ws| && ws[k].userId == Some(user)
    ensures forall w <- ws | w.userId != Some(user) :: w in ws[..k] + ws[k + 1..]
  {
    var r := ws[..k] + ws[k + 1..];
    forall j | 0 <= j < |ws| && ws[j].userId != Some(user) ensures ws[j] in r {
      if j < k {
        assert r[j] == ws[j];
      } else {
        assert r[j - 1] == ws[j];
      }
    }
  }

  /** `update_note`: sets the note of this user's first item for the first
      matching restaurant; the reply depends on whether an item matched,
      not on whether the note changed. */
  method UpdateNote(db: Db, name: string, newNote: string, user: string) returns (msg: string)
    modifies db
    ensures db.restaurants == old(db.restaurants) && db.conversations == old(db.conversations)
    ensures |db.wishlist| == |old(db.wishlist)|
    ensures
      var found := FindByName(old(db.restaurants), name);
      if found.None? then
        msg == "⚠️ I couldn’t find **" + name + "**." && db.wishlist == old(db.wishlist)
      else
        var rest := old(db.restaurants)[found.value];
        var k := UserItem(old(db.wishlist), user, rest.id);
        if k.None? then
          msg == "⚠️ **" + rest.name + "** is not in your wishlist." && db.wishlist == old(db.wishlist)
        else
          && msg == "📝 Note for **" + rest.name + "** updated to: " + newNote
          && db.wishlist == old(db.wishlist)[k.value := old(db.wishlist)[k.value].(note := Some(newNote))]
    ensures forall i | 0 <= i < |db.wishlist| ::
      db.wishlist[i] == old(db.wishlist)[i] || db.wishlist[i] == old(db.wishlist)[i].(note := Some(newNote))
    ensures forall i | 0 <= i < |db.wishlist| && old(db.wishlist)[i].userId != Some(user) ::
      db.wishlist[i] == old(db.wishlist)[i]
  {
    var found := FindByName(db.restaurants, name);
    if found.None? {
      return "⚠️ I couldn’t find **" + name + "**.";
    }
    var rest := db.restaurants[found.value];
    var k := UserItem(db.wishlist, user, rest.id);
    if k.None? {
      return "⚠️ **" + rest.name + "** is not in your wishlist.";
    }
    db.wishlist := db.wishlist[k.value := db.wishlist[k.value].(note := Some(newNote))];
    msg := "📝 Note for **" + rest.name + "** updated to: " + newNote;
  }

  // ----- get_wishlist ----------------------------------------------------------------

  /** This user's items joined with their restaurant (`$match`, `$lookup`,
      `$unwind`), in natural order; items whose restaurant is gone drop out. */
  function Joined(ws: seq<WishItem>, rs: seq<Restaurant>, user: string): (r: seq<(WishItem, Restaurant)>)
    ensures |r| <= |ws|
    ensures forall p <- r :: p.0 in ws && p.0.userId == Some(user) && p.1 in rs && p.1.id == p.0.restaurantId
  {
    if ws == [] then []
    else
      var w := ws[0];
      var head := if w.userId == Some(user) && RestaurantById(rs, w.restaurantId).Some?
        then [(w, rs[RestaurantById(rs, w.restaurantId).value])] else [];
      head + Joined(ws[1..], rs, user)
  }

  /** Newest first. */
  predicate NewestFirst(s: seq<(WishItem, Restaurant)>) {
    forall i, j | 0 <= i < j < |s| :: s[i].0.addedAt >= s[j].0.addedAt
  }

  /** Places `x` before the first entry that is not newer than it. */
  function InsertByDate(x: (WishItem, Restaurant), s: seq<(WishItem, Restaurant)>): (r: seq<(WishItem, Restaurant)>)
    requires NewestFirst(s)
    ensures NewestFirst(r)
    ensures multiset(r) == multiset(s) + multiset{x}
    ensures |r| == |s| + 1
  {
    if s == [] || s[0].0.addedAt <= x.0.addedAt then
      NewestFirstCons(x, s);
      [x] + s
    else
      var rest := InsertByDate(x, s[1..]);
      assert s == [s[0]] + s[1..];
      NotNewerThanHead(s, x, rest);
      NewestFirstCons(s[0], rest);
      [s[0]] + rest
  }

  /** An entry at least as new as every entry of a sorted list can go in front. */
  lemma NewestFirstCons(h: (WishItem, Restaurant), t: seq<(WishItem, Restaurant)>)
    requires NewestFirst(t)
    requires t == [] || t[0].0.addedAt <= h.0.addedAt
    ensures NewestFirst([h] + t)
  {
    var r := [h] + t;
    forall i, j | 0 <= i < j < |r| ensures r[i].0.addedAt >= r[j].0.addedAt {
      if i == 0 {
        assert r[j] == t[j - 1];
      } else {
        assert r[i] == t[i - 1] && r[j] == t[j - 1];
      }
    }
  }

  lemma NotNewerThanHead(s: seq<(WishItem, Restaurant)>, x: (WishItem, Restaurant), rest: seq<(WishItem, Restaurant)>)
    requires s != [] && NewestFirst(s) && x.0.addedAt < s[0].0.addedAt
    requires multiset(rest) == multiset(s[1..]) + multiset{x}
    ensures rest == [] || rest[0].0.addedAt <= s[0].0.addedAt
  {
    if rest != [] {
      assert rest[0] in multiset(rest);
      if rest[0] != x {
        assert rest[0] in multiset(s[1..]);
        var j :| 0 <= j < |s[1..]| && s[1..][j] == rest[0];
        assert s[j + 1] == rest[0];
      }
    }
  }

  /** `$sort: {"added_at": -1}` (ties keep no particular order in MongoDB;
      here, the earlier-inserted one first). */
  function SortByDate(s: seq<(WishItem, Restaurant)>): (r: seq<(WishItem, Restaurant)>)
    ensures NewestFirst(r)
    ensures multiset(r) == multiset(s)
    ensures |r| == |s|
  {
    if s == [] then []
    else
      assert s == [s[0]] + s[1..];
      InsertByDate(s[0], SortByDate(s[1..]))
  }

  /** One line of the listing: its number, the restaurant, and the note
      when it is non-empty. */
  datatype Row = Row(number: nat, restaurantId: string, name: string, note: Option<string>)

  datatype Listing = EmptyWishlist | Rows(rows: seq<Row>)

  function ShownNote(w: WishItem): (r: Option<string>)
    ensures r.Some? ==> r.value != "" && w.note == r
  {
    if w.note.Some? && w.note.value != "" then w.note else None
  }

  /** The rows of the listing, numbered from 1 (`enumerate(items, 1)`). */
  method NumberRows(items: seq<(WishItem, Restaurant)>) returns (rows: seq<Row>)
    ensures |rows| == |items|
    ensures forall i | 0 <= i < |items| ::
      rows[i] == Row(i + 1, items[i].1.id, items[i].1.name, ShownNote(items[i].0))
  {
    rows := [];
    var i := 0;
    while i < |items|
      invariant 0 <= i <= |items|
      invariant |rows| == i
      invariant forall j | 0 <= j < i :: rows[j] == Row(j + 1, items[j].1.id, items[j].1.name, ShownNote(items[j].0))
    {
      var it := items[i];
      rows := rows + [Row(i + 1, it.1.id, it.1.name, ShownNote(it.0))];
      i := i + 1;
    }
  }

  /** The entries `get_wishlist` lists, in order. */
  function Listed(ws: seq<WishItem>, rs: seq<Restaurant>, user: string): seq<(WishItem, Restaurant)> {
    SortByDate(Joined(ws, rs, user))
  }

  /** `get_wishlist`: this user's items with an existing restaurant, newest
      first, numbered from 1; the empty message when there are none. */
  method GetWishlist(db: Db, user: string) returns (r: Listing)
    ensures Listed(db.wishlist, db.restaurants, user) == [] ==> r == EmptyWishlist
    ensures Listed(db.wishlist, db.restaurants, user) != [] ==>
      var items := Listed(db.wishlist, db.restaurants, user);
      && r.Rows? && |r.rows| == |items|
      && forall i | 0 <= i < |items| ::
           r.rows[i] == Row(i + 1, items[i].1.id, items[i].1.name, ShownNote(items[i].0))
  {
    var items := Listed(db.wishlist, db.restaurants, user);
    if items == [] {
      return EmptyWishlist;
    }
    var rows := NumberRows(items);
    return Rows(rows);
  }

  /** The listing holds exactly this user's items whose restaurant exists,
      newest first: every row is such an item, and every such item has a
      row. */
  lemma {:induction false} ListingSpec(ws: seq<WishItem>, rs: seq<Restaurant>, user: string)
    ensures var items := Listed(ws, rs, user);
      && NewestFirst(items)
      && (forall p <- items :: p.0 in ws && p.0.userId == Some(user) && p.1.id == p.0.restaurantId && p.1 in rs)
      && (forall w <- ws | w.userId == Some(user) && RestaurantById(rs, w.restaurantId).Some? ::
            (w, rs[RestaurantById(rs, w.restaurantId).value]) in items)
  {
    var items := Listed(ws, rs, user);
    JoinedComplete(ws, rs, user);
    forall p <- items ensures p in Joined(ws, rs, user) {
      assert p in multiset(items);
    }
    forall w <- ws | w.userId == Some(user) && RestaurantById(rs, w.restaurantId).Some?
      ensures (w, rs[RestaurantById(rs, w.restaurantId).value]) in items
    {
      var p := (w, rs[RestaurantById(rs, w.restaurantId).value]);
      assert p in multiset(Joined(ws, rs, user));
    }
  }

  lemma {:induction false} JoinedComplete(ws: seq<WishItem>, rs: seq<Restaurant>, user: string)
    ensures forall w <- ws | w.userId == Some(user) && RestaurantById(rs, w.restaurantId).Some? ::
      (w, rs[RestaurantById(rs, w.restaurantId).value]) in Joined(ws, rs, user)
  {
    if ws != [] {
      JoinedComplete(ws[1..], rs, user);
      forall w <- ws | w.userId == Some(user) && RestaurantById(rs, w.restaurantId).Some?
        ensures (w, rs[RestaurantById(rs, w.restaurantId).value]) in Joined(ws, rs, user)
      {
        if w != ws[0] {
          assert w in ws[1..];
        }
      }
    }
  }
}
