/**
 * The wishlist: controllers/wishlistController.js over the entries of models/Wishlist.js.
 *
 * `req.user?.id` is an input, the empty string when there is no user. The body's `productId`
 * is a number, a string or absent; the handlers store and compare `String(productId)`, so the
 * number 7 and the string "7" name the same entry. Only integer numbers are modelled.
 */
module Wishlist {
  import opened Wrappers
  import opened Http
  import opened JsText
  import opened Query

  /** The body's `productId` as the client sent it. */
  datatype ProductRef = NumberRef(n: int) | TextRef(s: string) | Absent

  /** `!productId`: undefined, null, 0 and "" are falsy. */
  predicate Falsy(p: ProductRef) {
    p == Absent || p == NumberRef(0) || p == TextRef("")
  }

  /** `String(productId)` for a truthy reference. */
  function ProductKey(p: ProductRef): (k: string)
    requires !Falsy(p)
    ensures k != ""
  {
    match p
    case NumberRef(n) => IntToString(n)
    case TextRef(s) => s
  }

  /**
   * The body's `price` as the schema's Number cast sees it: a number (or a numeric string) it
   * casts, nothing to store (absent, null or ""), or a value the cast refuses ("abc", "₹499").
   */
  datatype PriceInput = PriceNumber(v: real) | NoPrice | Uncastable

  /** A stored entry; `name`, `image` and `price` are kept as sent and never read back. */
  datatype Entry = Entry(user: string, productId: string, name: string, image: string, price: Option<real>, createdAt: int)

  /** The body of an add request. */
  datatype AddBody = AddBody(productId: ProductRef, name: string, image: string, price: PriceInput)

  /** The entry `Wishlist.create` stores once the price has been cast. */
  function NewEntry(userId: string, key: string, body: AddBody, now: int): Entry
    requires !body.price.Uncastable?
  {
    Entry(userId, key, body.name, body.image, if body.price.PriceNumber? then Some(body.price.v) else None, now)
  }

  predicate Owns(e: Entry, userId: string, key: string) {
    e.user == userId && e.productId == key
  }

  function EntryIs(userId: string, key: string): Entry -> bool {
    (e: Entry) => Owns(e, userId, key)
  }

  function OwnedBy(userId: string): Entry -> bool {
    (e: Entry) => e.user == userId
  }

  function EntryCreatedAt(e: Entry): int { e.createdAt }

  /** `Wishlist.findOne({ user, productId })`. */
  function FindEntry(entries: seq<Entry>, userId: string, key: string): (r: Option<nat>)
    ensures r.None? <==> forall i :: 0 <= i < |entries| ==> !Owns(entries[i], userId, key)
    ensures r.Some? ==> r.value < |entries| && Owns(entries[r.value], userId, key)
                        && forall i :: 0 <= i < r.value ==> !Owns(entries[i], userId, key)
  {
    FirstIndex(entries, EntryIs(userId, key))
  }

  /** At most one entry per user and product: what the add handler keeps. */
  predicate OneEntryEach(entries: seq<Entry>) {
    forall i, j :: 0 <= i < j < |entries| ==>
      entries[i].user != entries[j].user || entries[i].productId != entries[j].productId
  }

  /** The schema's required `user` and `productId`. */
  predicate EntryAccepts(e: Entry) {
    e.user != "" && e.productId != ""
  }

  predicate EntriesWellFormed(entries: seq<Entry>) {
    forall i :: 0 <= i < |entries| ==> EntryAccepts(entries[i])
  }

  /** The collection without its i-th document. */
  function RemovedAt(entries: seq<Entry>, i: nat): (r: seq<Entry>)
    requires i < |entries|
    ensures |r| == |entries| - 1
    ensures multiset(r) == multiset(entries) - multiset{entries[i]}
    ensures forall j :: 0 <= j < |r| ==> r[j] == if j < i then entries[j] else entries[j + 1]
  {
    assert entries == entries[..i] + [entries[i]] + entries[i + 1..];
    entries[..i] + entries[i + 1..]
  }

  // ---------------------------------------------------------------- the handlers as functions

  /** A handler's reply and the collection after it. */
  datatype WishOutcome<T> = WishOutcome(reply: Reply<T>, entries: seq<Entry>)

  /** `getWishlist`: this user's entries, newest first. */
  function GetWishlist(entries: seq<Entry>, userId: string): Reply<seq<Entry>> {
    if userId == "" then Fail(Unauthorized, "Unauthorized")
    else Ok(SortDesc(Filter(entries, OwnedBy(userId)), EntryCreatedAt))
  }

  function AddToWishlist(entries: seq<Entry>, userId: string, body: AddBody, now: int): WishOutcome<string> {
    if userId == "" then WishOutcome(Fail(Unauthorized, "Unauthorized"), entries)
    else if Falsy(body.productId) then WishOutcome(Fail(BadRequest, "productId required"), entries)
    else
      var key := ProductKey(body.productId);
      if FindEntry(entries, userId, key).Some? then WishOutcome(Ok("Already in wishlist"), entries)
      else if body.price.Uncastable? then WishOutcome(Fail(ServerError, "Server error"), entries)
      else WishOutcome(Ok("Added to wishlist"), entries + [NewEntry(userId, key, body, now)])
  }

  function RemoveFromWishlist(entries: seq<Entry>, userId: string, productId: ProductRef): WishOutcome<string> {
    if userId == "" then WishOutcome(Fail(Unauthorized, "Unauthorized"), entries)
    else if Falsy(productId) then WishOutcome(Fail(BadRequest, "productId required"), entries)
    else
      match FindEntry(entries, userId, ProductKey(productId))
      case None => WishOutcome(Ok("Removed from wishlist"), entries)
      case Some(i) => WishOutcome(Ok("Removed from wishlist"), RemovedAt(entries, i))
  }

  // ---------------------------------------------------------------- the collection

  /** The wishlist collection, in insertion order. */
  class WishlistStore {
    var entries: seq<Entry>

    ghost predicate Valid()
      reads this
    {
      EntriesWellFormed(entries)
    }

    constructor ()
      ensures Valid() && entries == []
    {
      entries := [];
    }

    /** `Wishlist.create(doc)` of a document with both required fields. */
    method Create(e: Entry)
      requires Valid() && EntryAccepts(e)
      modifies this
      ensures Valid()
      ensures entries == old(entries) + [e]
    {
      entries := entries + [e];
    }

    /** `Wishlist.findOneAndDelete({ user, productId })`: deletes the first match, if any. */
    method FindOneAndDelete(userId: string, key: string)
      requires Valid()
      modifies this
      ensures Valid()
      ensures entries == match FindEntry(old(entries), userId, key)
                         case None => old(entries)
                         case Some(i) => RemovedAt(old(entries), i)
    {
      var i := 0;
      while i < |entries| && !Owns(entries[i], userId, key)
        invariant 0 <= i <= |entries|
        invariant forall j :: 0 <= j < i ==> !Owns(entries[j], userId, key)
      {
        i := i + 1;
      }
      if i < |entries| {
        assert FindEntry(entries, userId, key) == Some(i);
        var r := RemovedAt(entries, i);
        forall j | 0 <= j < |r| ensures EntryAccepts(r[j]) {
          assert r[j] == if j < i then entries[j] else entries[j + 1];
        }
        entries := r;
      }
    }
  }

  method AddToWishlistHandler(store: WishlistStore, userId: string, body: AddBody, now: int) returns (reply: Reply<string>)
    requires store.Valid()
    modifies store
    ensures store.Valid()
    ensures WishOutcome(reply, store.entries) == AddToWishlist(old(store.entries), userId, body, now)
  {
    if userId == "" {
      return Fail(Unauthorized, "Unauthorized");
    }
    if Falsy(body.productId) {
      return Fail(BadRequest, "productId required");
    }
    var key := ProductKey(body.productId);
    var existing := FindEntry(store.entries, userId, key);
    if existing.Some? {
      return Ok("Already in wishlist");
    }
    if body.price.Uncastable? {
      return Fail(ServerError, "Server error");
    }
    store.Create(NewEntry(userId, key, body, now));
    reply := Ok("Added to wishlist");
  }

  method RemoveFromWishlistHandler(store: WishlistStore, userId: string, productId: ProductRef) returns (reply: Reply<string>)
    requires store.Valid()
    modifies store
    ensures store.Valid()
    ensures WishOutcome(reply, store.entries) == RemoveFromWishlist(old(store.entries), userId, productId)
  {
    if userId == "" {
      return Fail(Unauthorized, "Unauthorized");
    }
    if Falsy(productId) {
      return Fail(BadRequest, "productId required");
    }
    store.FindOneAndDelete(userId, ProductKey(productId));
    reply := Ok("Removed from wishlist");
  }

  // ---------------------------------------------------------------- properties

  /** Every operation refuses a request without a user with 401, changing nothing. */
  lemma NoUserUnauthorized(entries: seq<Entry>, body: AddBody, productId: ProductRef, now: int)
    ensures GetWishlist(entries, "") == Fail(Unauthorized, "Unauthorized")
    ensures AddToWishlist(entries, "", body, now) == WishOutcome(Fail(Unauthorized, "Unauthorized"), entries)
    ensures RemoveFromWishlist(entries, "", productId) == WishOutcome(Fail(Unauthorized, "Unauthorized"), entries)
  {
  }

  /**
   * Adding is idempotent: after an add that succeeded, a second add of the same product, sent
   * as the same or as an equal `String(productId)`, succeeds with "Already in wishlist" and
   * inserts nothing, whatever its price.
   */
  lemma AddIdempotent(entries: seq<Entry>, userId: string, body: AddBody, again: AddBody, now: int, later: int)
    requires userId != "" && !Falsy(body.productId) && !Falsy(again.productId)
    requires AddToWishlist(entries, userId, body, now).reply.Ok?
    requires ProductKey(again.productId) == ProductKey(body.productId)
    ensures var once := AddToWishlist(entries, userId, body, now).entries;
      AddToWishlist(once, userId, again, later) == WishOutcome(Ok("Already in wishlist"), once)
  {
    var key := ProductKey(body.productId);
    var once := AddToWishlist(entries, userId, body, now).entries;
    var f := FindEntry(entries, userId, key);
    if f.None? {
      assert Owns(once[|entries|], userId, key);
    } else {
      assert Owns(once[f.value], userId, key);
    }
  }

  /** The number 7 and the string "7" are the same product. */
  lemma NumberAndTextAlike(n: int)
    requires n != 0
    ensures ProductKey(NumberRef(n)) == ProductKey(TextRef(IntToString(n)))
  {
  }

  /**
   * Add keeps at most one entry per user and product, and after a success the wishlist holds the
   * product. It succeeds exactly with a user, a product id and either an existing entry or a
   * price the Number cast accepts; a refused cast of a new entry is the catch's 500, writing nothing.
   */
  lemma AddKeepsOneEntryEach(entries: seq<Entry>, userId: string, body: AddBody, now: int)
    requires OneEntryEach(entries)
    ensures var out := AddToWishlist(entries, userId, body, now);
      && OneEntryEach(out.entries)
      && (out.reply.Ok? ==> FindEntry(out.entries, userId, ProductKey(body.productId)).Some?)
      && (out.reply.Ok? <==> userId != "" && !Falsy(body.productId)
                             && (FindEntry(entries, userId, ProductKey(body.productId)).Some? || !body.price.Uncastable?))
      && (out.reply == Fail(ServerError, "Server error") <==>
            userId != "" && !Falsy(body.productId)
            && FindEntry(entries, userId, ProductKey(body.productId)).None? && body.price.Uncastable?)
      && (out.reply.Fail? ==> out.entries == entries)
  {
    var out := AddToWishlist(entries, userId, body, now);
    if userId != "" && !Falsy(body.productId) {
      var key := ProductKey(body.productId);
      var f := FindEntry(entries, userId, key);
      if f.None? && !body.price.Uncastable? {
        var r := out.entries;
        forall i, j | 0 <= i < j < |r| ensures r[i].user != r[j].user || r[i].productId != r[j].productId {
          assert r[i] == entries[i];
          if j < |entries| {
            assert r[j] == entries[j];
          } else {
            assert Owns(r[j], userId, key);
          }
        }
        assert Owns(r[|entries|], userId, key);
      } else if f.Some? {
        assert Owns(entries[f.value], userId, key);
      }
    }
  }

  /**
   * Remove succeeds whether or not the product is listed. It deletes the matching entry when
   * there is one, so with at most one entry per user and product none is left; it never touches
   * another user's entries, and with no match it changes nothing.
   */
  lemma RemoveTolerant(entries: seq<Entry>, userId: string, productId: ProductRef, other: string)
    requires OneEntryEach(entries) && userId != "" && !Falsy(productId) && other != userId
    ensures var out := RemoveFromWishlist(entries, userId, productId);
      var key := ProductKey(productId);
      && out.reply == Ok("Removed from wishlist")
      && FindEntry(out.entries, userId, key).None?
      && (FindEntry(entries, userId, key).None? ==> out.entries == entries)
      && (FindEntry(entries, userId, key).Some? ==>
            multiset(out.entries) == multiset(entries) - multiset{entries[FindEntry(entries, userId, key).value]})
      && Filter(out.entries, OwnedBy(other)) == Filter(entries, OwnedBy(other))
      && OneEntryEach(out.entries)
  {
    var key := ProductKey(productId);
    var f := FindEntry(entries, userId, key);
    if f.Some? {
      RemovedOnlyOne(entries, f.value, userId, key);
      FilterSkipsOther(entries, f.value, other);
    }
  }

  /** Deleting the one entry of a user and product leaves none, and no duplicate behind. */
  lemma RemovedOnlyOne(entries: seq<Entry>, i: nat, userId: string, key: string)
    requires OneEntryEach(entries) && i < |entries| && Owns(entries[i], userId, key)
    ensures FindEntry(RemovedAt(entries, i), userId, key).None?
    ensures OneEntryEach(RemovedAt(entries, i))
  {
    var r := RemovedAt(entries, i);
    forall j | 0 <= j < |r| ensures !Owns(r[j], userId, key) {
      if j >= i {
        assert r[j] == entries[j + 1];
      }
    }
    forall a, b | 0 <= a < b < |r| ensures r[a].user != r[b].user || r[a].productId != r[b].productId {
      var a' := if a < i then a else a + 1;
      var b' := if b < i then b else b + 1;
      assert r[a] == entries[a'] && r[b] == entries[b'];
    }
  }

  /** Deleting an entry of one user leaves another user's filtered entries as they were. */
  lemma FilterSkipsOther(entries: seq<Entry>, i: nat, other: string)
    requires i < |entries| && entries[i].user != other
    ensures Filter(RemovedAt(entries, i), OwnedBy(other)) == Filter(entries, OwnedBy(other))
  {
    var a, x, c := entries[..i], entries[i], entries[i + 1..];
    assert entries == a + ([x] + c);
    FilterConcat(a, [x] + c, OwnedBy(other));
    assert Filter([x] + c, OwnedBy(other)) == Filter(c, OwnedBy(other)) by {
      assert ([x] + c)[1..] == c;
    }
    FilterConcat(a, c, OwnedBy(other));
  }

  /**
   * Adding a product that was not listed and then removing it restores the wishlist; so does
   * an add the price cast refuses, since it writes nothing and the remove then finds nothing.
   */
  lemma AddThenRemove(entries: seq<Entry>, userId: string, body: AddBody, now: int)
    requires userId != "" && !Falsy(body.productId)
    requires FindEntry(entries, userId, ProductKey(body.productId)).None?
    ensures var added := AddToWishlist(entries, userId, body, now).entries;
      RemoveFromWishlist(added, userId, body.productId).entries == entries
  {
    var key := ProductKey(body.productId);
    if !body.price.Uncastable? {
      var e := NewEntry(userId, key, body, now);
      FindAppended(entries, userId, key, e);
      assert AddToWishlist(entries, userId, body, now).entries == entries + [e];
    }
  }

  /** An entry appended after none of its kind is the first match, and deleting it gives the old list. */
  lemma FindAppended(entries: seq<Entry>, userId: string, key: string, e: Entry)
    requires FindEntry(entries, userId, key).None? && Owns(e, userId, key)
    ensures FindEntry(entries + [e], userId, key) == Some(|entries|)
    ensures RemovedAt(entries + [e], |entries|) == entries
  {
    var added := entries + [e];
    forall j | 0 <= j < |entries| ensures !Owns(added[j], userId, key) {
      assert added[j] == entries[j];
    }
    assert added[|entries|] == e;
    assert added[..|entries|] == entries && added[|entries| + 1..] == [];
  }

  /** getWishlist lists every entry of this user, each as often as stored, none of another, newest first. */
  lemma GetWishlistSpec(entries: seq<Entry>, userId: string)
    requires userId != ""
    ensures var r := GetWishlist(entries, userId);
      && r.Ok?
      && SortedDesc(r.body, EntryCreatedAt)
      && (forall i :: 0 <= i < |r.body| ==> r.body[i].user == userId)
      && (forall x :: multiset(r.body)[x] == if x.user == userId then multiset(entries)[x] else 0)
  {
    SortedFilter(entries, OwnedBy(userId), EntryCreatedAt);
  }
}
