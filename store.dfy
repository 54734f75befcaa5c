/**
 * The three MongoDB collections of app/db.py as the service uses them:
 * restaurants, wishlist items and conversation turns, each a sequence in
 * natural (insertion) order.  `find_one` answers with the first document
 * that matches, `insert_one` appends, `delete_one` and `update_one` act on
 * the first match.  Document ids are ObjectIds, written as their 24-digit
 * lower-case hexadecimal form.
 */
module Store {
  import opened Base
  import opened Text
  import opened Values

  datatype Restaurant = Restaurant(id: string, yelpId: Option<string>, name: string)

  /** A wishlist document.  Items written by app/main.py carry no user id
      (None) and, when confirmed from the panel, no note (None). */
  datatype WishItem = WishItem(
    userId: Option<string>,
    restaurantId: string,
    restaurantName: string,
    note: Option<string>,
    addedAt: int,
    updatedAt: Option<int>)

  /** A logged conversation turn; the log order is the order of the
      timestamps, which are taken from the clock as each turn is logged. */
  datatype Turn = Turn(session: string, userInput: string, response: string, intent: string, parsed: Fields)

  class Db {
    var restaurants: seq<Restaurant>
    var wishlist: seq<WishItem>
    var conversations: seq<Turn>

    constructor (restaurants: seq<Restaurant>, wishlist: seq<WishItem>, conversations: seq<Turn>)
      ensures this.restaurants == restaurants && this.wishlist == wishlist
      ensures this.conversations == conversations
    {
      this.restaurants := restaurants;
      this.wishlist := wishlist;
      this.conversations := conversations;
    }

    /** `_log`: one more conversation turn. */
    method Log(session: string, userInput: string, response: string, intent: string, parsed: Fields)
      modifies this
      ensures conversations == old(conversations) + [Turn(session, userInput, response, intent, parsed)]
      ensures restaurants == old(restaurants) && wishlist == old(wishlist)
    {
      conversations := conversations + [Turn(session, userInput, response, intent, parsed)];
    }
  }

  /** Index of the first restaurant with id `id`. */
  function RestaurantById(rs: seq<Restaurant>, id: string): (r: Option<nat>)
    ensures r.Some? ==> r.value < |rs| && rs[r.value].id == id
    ensures r.Some? ==> forall j | 0 <= j < r.value :: rs[j].id != id
    ensures r.None? <==> forall j | 0 <= j < |rs| :: rs[j].id != id
  {
    if rs == [] then None
    else if rs[0].id == id then Some(0)
    else match RestaurantById(rs[1..], id)
      case None => None
      case Some(i) => Some(i + 1)
  }

  /** Index of the first restaurant whose name satisfies `p`. */
  function RestaurantWhere(rs: seq<Restaurant>, p: string -> bool): (r: Option<nat>)
    ensures r.Some? ==> r.value < |rs| && p(rs[r.value].name)
    ensures r.Some? ==> forall j | 0 <= j < r.value :: !p(rs[j].name)
    ensures r.None? <==> forall j | 0 <= j < |rs| :: !p(rs[j].name)
  {
    if rs == [] then None
    else if p(rs[0].name) then Some(0)
    else match RestaurantWhere(rs[1..], p)
      case None => None
      case Some(i) => Some(i + 1)
  }

  /** Index of the first wishlist item for restaurant `rid` that `owner`
      accepts (any owner, or one user). */
  function ItemWhere(ws: seq<WishItem>, owner: Option<string> -> bool, rid: string): (r: Option<nat>)
    ensures r.Some? ==> r.value < |ws| && ws[r.value].restaurantId == rid && owner(ws[r.value].userId)
    ensures r.Some? ==> forall j | 0 <= j < r.value :: !(ws[j].restaurantId == rid && owner(ws[j].userId))
    ensures r.None? <==> forall j | 0 <= j < |ws| :: !(ws[j].restaurantId == rid && owner(ws[j].userId))
  {
    if ws == [] then None
    else if ws[0].restaurantId == rid && owner(ws[0].userId) then Some(0)
    else match ItemWhere(ws[1..], owner, rid)
      case None => None
      case Some(i) => Some(i + 1)
  }

  /** No restaurant id occurs in two wishlist items. */
  predicate UniqueRestaurantIds(ws: seq<WishItem>) {
    forall i, j | 0 <= i < j < |ws| :: ws[i].restaurantId != ws[j].restaurantId
  }

  /** No (user id, restaurant id) pair occurs in two wishlist items. */
  predicate UniquePerUser(ws: seq<WishItem>) {
    forall i, j | 0 <= i < j < |ws| ::
      ws[i].restaurantId != ws[j].restaurantId || ws[i].userId != ws[j].userId
  }

  /** Removing the item at `k` keeps both uniqueness properties. */
  lemma RemoveKeepsUnique(ws: seq<WishItem>, k: nat)
    requires k < |ws|
    ensures UniqueRestaurantIds(ws) ==> UniqueRestaurantIds(ws[..k] + ws[k + 1..])
    ensures UniquePerUser(ws) ==> UniquePerUser(ws[..k] + ws[k + 1..])
  {
    var r := ws[..k] + ws[k + 1..];
    assert forall i | 0 <= i < |r| :: r[i] == ws[if i < k then i else i + 1];
  }

  predicate IsHexDigit(c: char) {
    '0' <= c <= '9' || 'a' <= c <= 'f' || 'A' <= c <= 'F'
  }

  /** `ObjectId(s)` for a string: exactly 24 hexadecimal digits, in either
      case; the id is their lower-case form (what `str()` gives back). */
  function ParseObjectId(s: string): (r: Option<string>)
    ensures r.Some? <==> |s| == 24 && forall c <- s :: IsHexDigit(c)
    ensures r.Some? ==> |r.value| == 24 && forall i | 0 <= i < 24 :: r.value[i] == LowerChar(s[i])
  {
    if |s| == 24 && forall c <- s :: IsHexDigit(c) then Some(Lower(s)) else None
  }

  /** Parsing is insensitive to case, and the printed id parses to itself. */
  lemma ParseObjectIdRoundTrip(s: string)
    requires ParseObjectId(s).Some?
    ensures ParseObjectId(Lower(s)) == ParseObjectId(s)
    ensures ParseObjectId(ParseObjectId(s).value) == ParseObjectId(s)
  {
    var h := Lower(s);
    forall c <- h ensures IsHexDigit(c) {
      var i :| 0 <= i < |h| && h[i] == c;
      assert s[i] in s;
    }
    LowerIdempotent(s);
  }
}
