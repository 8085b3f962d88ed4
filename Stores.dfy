/// The Shopify app's store table (app_shopify/views.py, app_shopify/models.py):
/// connecting a shop (`authenticate_shopify`, `callback_shopify`), choosing the
/// active store (`activate_store`) and removing one (`remove_store`). The table is
/// a map from row id to row; the database hands out ids from a counter.
module Stores {
  import opened PyValues
  import opened Web

  /** A `Store` row: the fields the views read or write (timestamps left out). */
  datatype Store = Store(shopUrl: string, accessToken: string, locationId: Option<string>, isActive: bool)

  type Rows = map<nat, Store>

  const SHOPIFY_DASHBOARD_PATH := "/shopify/dashboard/"
  const SHOPIFY_TOKEN_KEY := "shopify_token"
  const SHOP_MISSING := "Par\U{e2}metro shop n\U{e3}o informado."
  const PARAMS_MISSING := "Par\U{e2}metros ausentes na requisi\U{e7}\U{e3}o."
  const SHOPIFY_SCOPES := ["read_products", "write_products", "read_orders", "write_orders",
                           "read_customers", "write_customers"]

  /** The text an error page shows: a fixed message, the text of an exception the
      Shopify library raised, or one of the two errors `get_or_create` can raise. */
  datatype ErrorText = Text(s: string) | MultipleStores | IntegrityError

  datatype Response = Redirect(path: string) | NotFound | ErrorPage(error: ErrorText)

  /** At most one store is the active one. */
  predicate AtMostOneActive(rows: Rows) {
    forall a, b :: a in rows && b in rows && rows[a].isActive && rows[b].isActive ==> a == b
  }

  /** No two rows share a shop URL (the schema does not enforce it; `get_or_create` keeps it). */
  predicate UniqueShops(rows: Rows) {
    forall a, b :: a in rows && b in rows && rows[a].shopUrl == rows[b].shopUrl ==> a == b
  }

  /** The ids of the rows whose `shop_url` is `shop`. */
  function Matching(rows: Rows, shop: string): (m: set<nat>)
    ensures forall k :: k in m <==> k in rows && rows[k].shopUrl == shop
  {
    set k | k in rows && rows[k].shopUrl == shop
  }

  // ---------------------------------------------------------------------
  // authenticate_shopify
  // ---------------------------------------------------------------------

  /** `authenticate_shopify`: without a non-empty `shop` field the error page is
      rendered; otherwise the browser is sent to the permission URL the Shopify
      library builds for that shop and the fixed scope list. */
  function AuthenticateShopify(shop: Option<string>, permissionUrl: (string, seq<string>) -> string): (r: Response)
    ensures r == ErrorPage(Text(SHOP_MISSING)) <==> shop.None? || shop.value == ""
    ensures r.Redirect? <==> shop.Some? && shop.value != ""
    ensures r.Redirect? ==> r.path == permissionUrl(shop.value, SHOPIFY_SCOPES)
  {
    if shop.None? || shop.value == "" then ErrorPage(Text(SHOP_MISSING))
    else Redirect(permissionUrl(shop.value, SHOPIFY_SCOPES))
  }

  // ---------------------------------------------------------------------
  // activate_store / remove_store
  // ---------------------------------------------------------------------

  datatype TableStep = TableStep(rows: Rows, response: Response)

  /** `Store.objects.all().update(is_active=False)` */
  function DeactivateAll(rows: Rows): (r: Rows)
    ensures r.Keys == rows.Keys
    ensures forall k :: k in r ==> !r[k].isActive && r[k].(isActive := rows[k].isActive) == rows[k]
  {
    map k | k in rows :: rows[k].(isActive := false)
  }

  /** `activate_store(id)`: every store is switched off, then the chosen one on;
      an unknown id answers 404 after the switch-off, leaving no store active.
      Only the `is_active` flags change. */
  function ActivateStep(rows: Rows, id: nat): (s: TableStep)
    ensures s.rows.Keys == rows.Keys
    ensures forall k :: k in s.rows ==> (s.rows[k].isActive <==> k == id)
    ensures forall k :: k in s.rows ==> s.rows[k].(isActive := rows[k].isActive) == rows[k]
    ensures s.response == (if id in rows then Redirect(SHOPIFY_DASHBOARD_PATH) else NotFound)
    ensures AtMostOneActive(s.rows)
  {
    var off := DeactivateAll(rows);
    if id !in off then TableStep(off, NotFound)
    else TableStep(off[id := off[id].(isActive := true)], Redirect(SHOPIFY_DASHBOARD_PATH))
  }

  /** `remove_store(id)`: deletes exactly that row; an unknown id answers 404 and changes nothing. */
  function RemoveStep(rows: Rows, id: nat): (s: TableStep)
    ensures id !in rows ==> s == TableStep(rows, NotFound)
    ensures id in rows ==> s.response == Redirect(SHOPIFY_DASHBOARD_PATH) && s.rows.Keys == rows.Keys - {id}
    ensures forall k :: k in s.rows ==> k in rows && s.rows[k] == rows[k]
    ensures AtMostOneActive(rows) ==> AtMostOneActive(s.rows)
    ensures UniqueShops(rows) ==> UniqueShops(s.rows)
  {
    if id !in rows then TableStep(rows, NotFound)
    else TableStep(rows - {id}, Redirect(SHOPIFY_DASHBOARD_PATH))
  }

  // ---------------------------------------------------------------------
  // callback_shopify
  // ---------------------------------------------------------------------

  datatype Upsert = Saved(rows: Rows, nextId: nat) | Refused(error: ErrorText)

  /** The insert branch of `get_or_create`: a new row under the next id, holding
      the shop URL and, once saved, the token. */
  function AddStore(rows: Rows, nextId: nat, url: string, token: string): (r: Rows)
    requires forall k :: k in rows ==> k < nextId
    requires Matching(rows, url) == {}
    ensures r.Keys == rows.Keys + {nextId} && nextId !in rows
    ensures r[nextId] == Store(url, token, None, false)
    ensures forall k :: k in rows ==> r[k] == rows[k]
    ensures Matching(r, url) == {nextId}
    ensures UniqueShops(rows) ==> UniqueShops(r)
    ensures AtMostOneActive(rows) ==> AtMostOneActive(r)
  {
    rows[nextId := Store(url, token, None, false)]
  }

  /** The update branch of `get_or_create`: the rows with that shop URL get the
      token; nothing else changes. */
  function OverwriteToken(rows: Rows, url: string, token: string): (r: Rows)
    ensures r.Keys == rows.Keys
    ensures forall k :: k in rows ==> r[k] == if k in Matching(rows, url) then rows[k].(accessToken := token) else rows[k]
    ensures Matching(r, url) == Matching(rows, url)
    ensures UniqueShops(rows) ==> UniqueShops(r)
    ensures AtMostOneActive(rows) ==> AtMostOneActive(r)
  {
    map k | k in rows :: if rows[k].shopUrl == url then rows[k].(accessToken := token) else rows[k]
  }

  /** With a single matching row, overwriting the token touches that row only. */
  lemma OverwriteOneRow(rows: Rows, url: string, token: string, id: nat)
    requires Matching(rows, url) == {id}
    ensures OverwriteToken(rows, url, token) == rows[id := rows[id].(accessToken := token)]
  {
  }

  /** `get_or_create(shop_url=shop)`, then the token is written and the row saved.
      A missing `shop` parameter filters on NULL, finds nothing, and the insert
      violates the NOT NULL column. */
  function GetOrCreateToken(rows: Rows, nextId: nat, shop: Option<string>, token: string): (u: Upsert)
    requires forall k :: k in rows ==> k < nextId
    ensures shop.None? ==> u == Refused(IntegrityError)
    ensures shop.Some? ==> (u == Refused(MultipleStores) <==> |Matching(rows, shop.value)| > 1)
    ensures u.Refused? ==> u.error == IntegrityError || u.error == MultipleStores
    ensures u.Saved? <==> shop.Some? && |Matching(rows, shop.value)| <= 1
  {
    if shop.None? then Refused(IntegrityError)
    else
      var url := shop.value;
      var m := Matching(rows, url);
      if |m| > 1 then Refused(MultipleStores)
      else if |m| == 0 then
        Saved(AddStore(rows, nextId, url, token), nextId + 1)
      else
        Saved(OverwriteToken(rows, url, token), nextId)
  }

  /** A saved `get_or_create` leaves exactly one row with the shop URL, holding the new token. */
  lemma SavedShopHasOneRow(rows: Rows, nextId: nat, shop: Option<string>, token: string)
    requires forall k :: k in rows ==> k < nextId
    requires GetOrCreateToken(rows, nextId, shop, token).Saved?
    ensures var u := GetOrCreateToken(rows, nextId, shop, token);
            && |Matching(u.rows, shop.value)| == 1
            && (forall k :: k in Matching(u.rows, shop.value) ==> u.rows[k].accessToken == token)
            && (forall k :: k in u.rows ==> k < u.nextId)
  {
    var m := Matching(rows, shop.value);
    if |m| != 0 {
      var id :| id in m;
      assert m == {id} by {
        assert |m - {id}| == 0;
      }
    }
  }

  /** An existing row is updated in place, otherwise exactly one row is added; only
      the token of the matching row changes and every other row is untouched. */
  lemma SavedChangesOnlyThatRow(rows: Rows, nextId: nat, shop: Option<string>, token: string)
    requires forall k :: k in rows ==> k < nextId
    requires GetOrCreateToken(rows, nextId, shop, token).Saved?
    ensures var u := GetOrCreateToken(rows, nextId, shop, token);
            && (Matching(rows, shop.value) != {} ==> u.rows.Keys == rows.Keys && u.nextId == nextId)
            && (Matching(rows, shop.value) == {} ==>
                  && u.rows.Keys == rows.Keys + {nextId} && nextId !in rows && u.nextId == nextId + 1
                  && u.rows[nextId] == Store(shop.value, token, None, false))
            && (forall k :: k in rows ==> u.rows[k] == if k in Matching(rows, shop.value)
                                                        then rows[k].(accessToken := token) else rows[k])
  {
  }

  /** Saving a token keeps shop URLs unique and at most one store active. */
  lemma SavedKeepsInvariants(rows: Rows, nextId: nat, shop: Option<string>, token: string)
    requires forall k :: k in rows ==> k < nextId
    requires GetOrCreateToken(rows, nextId, shop, token).Saved?
    ensures var u := GetOrCreateToken(rows, nextId, shop, token);
            && (UniqueShops(rows) ==> UniqueShops(u.rows))
            && (AtMostOneActive(rows) ==> AtMostOneActive(u.rows))
  {
  }

  /** When shop URLs are unique `get_or_create` never finds two rows. */
  lemma UniqueShopsMatchAtMostOne(rows: Rows, shop: string)
    requires UniqueShops(rows)
    ensures |Matching(rows, shop)| <= 1
  {
    var m := Matching(rows, shop);
    if m != {} {
      var a :| a in m;
      assert m == {a};
    }
  }

  lemma SaveAgainAfterAdd(rows: Rows, nextId: nat, url: string, token: string)
    requires forall k :: k in rows ==> k < nextId
    requires Matching(rows, url) == {}
    ensures var added := AddStore(rows, nextId, url, token);
            GetOrCreateToken(added, nextId + 1, Some(url), token) == Saved(added, nextId + 1)
  {
    var added := AddStore(rows, nextId, url, token);
    OverwriteOneRow(added, url, token, nextId);
    assert added[nextId := added[nextId].(accessToken := token)] == added;
  }

  lemma SaveAgainAfterOverwrite(rows: Rows, nextId: nat, url: string, token: string, id: nat)
    requires forall k :: k in rows ==> k < nextId
    requires Matching(rows, url) == {id}
    ensures var updated := OverwriteToken(rows, url, token);
            GetOrCreateToken(updated, nextId, Some(url), token) == Saved(updated, nextId)
  {
    var updated := OverwriteToken(rows, url, token);
    OverwriteOneRow(updated, url, token, id);
    assert updated[id := updated[id].(accessToken := token)] == updated;
  }

  /** Connecting the same shop twice with the same token leaves the table as one connection does. */
  lemma GetOrCreateTokenIdempotent(rows: Rows, nextId: nat, shop: Option<string>, token: string)
    requires forall k :: k in rows ==> k < nextId
    requires GetOrCreateToken(rows, nextId, shop, token).Saved?
    ensures var once := GetOrCreateToken(rows, nextId, shop, token);
            GetOrCreateToken(once.rows, once.nextId, shop, token) == once
  {
    var m := Matching(rows, shop.value);
    if |m| == 0 {
      SaveAgainAfterAdd(rows, nextId, shop.value, token);
    } else {
      var id :| id in m;
      assert m == {id} by {
        assert |m - {id}| == 0;
      }
      SaveAgainAfterOverwrite(rows, nextId, shop.value, token, id);
    }
  }

  /** Where a `request_token` call ends: the access token, or the text of what it raised. */
  datatype TokenRequest = Granted(token: string) | Failed(text: string)

  datatype CallbackStep = CallbackStep(rows: Rows, nextId: nat, session: map<string, Json>, response: Response)

  /** `callback_shopify`: the query parameters must all be non-empty; the token
      request and the table write run inside a `try` whose handler renders the
      exception text. The token is put in the session before the table write. */
  function ShopifyCallback(rows: Rows, nextId: nat, session: map<string, Json>,
                           params: map<string, string>, request: TokenRequest): (s: CallbackStep)
    requires forall k :: k in rows ==> k < nextId
    ensures (exists p :: p in params && params[p] == "") ==>
              s == CallbackStep(rows, nextId, session, ErrorPage(Text(PARAMS_MISSING)))
    ensures (forall p :: p in params ==> params[p] != "") && request.Failed? ==>
              s == CallbackStep(rows, nextId, session, ErrorPage(Text(request.text)))
    ensures s.response.Redirect? <==>
              && (forall p :: p in params ==> params[p] != "") && request.Granted?
              && GetOrCreateToken(rows, nextId, Lookup(params, "shop"), request.token).Saved?
    ensures s.response.Redirect? ==>
              && s.response.path == SHOPIFY_DASHBOARD_PATH
              && s.session == session[SHOPIFY_TOKEN_KEY := JStr(request.token)]
              && Saved(s.rows, s.nextId) == GetOrCreateToken(rows, nextId, Lookup(params, "shop"), request.token)
    // a refused table write keeps the table, but the session already holds the token
    ensures (forall p :: p in params ==> params[p] != "") && request.Granted?
            && GetOrCreateToken(rows, nextId, Lookup(params, "shop"), request.token).Refused? ==>
              s == CallbackStep(rows, nextId, session[SHOPIFY_TOKEN_KEY := JStr(request.token)],
                                ErrorPage(GetOrCreateToken(rows, nextId, Lookup(params, "shop"), request.token).error))
    ensures s.response.Redirect? || s.response.ErrorPage?
    ensures forall k :: k in s.rows ==> k < s.nextId
    ensures UniqueShops(rows) ==> UniqueShops(s.rows)
    ensures AtMostOneActive(rows) ==> AtMostOneActive(s.rows)
  {
    if exists p :: p in params && params[p] == "" then
      CallbackStep(rows, nextId, session, ErrorPage(Text(PARAMS_MISSING)))
    else
      match request
      case Failed(text) => CallbackStep(rows, nextId, session, ErrorPage(Text(text)))
      case Granted(token) =>
        var withToken := session[SHOPIFY_TOKEN_KEY := JStr(token)];
        match GetOrCreateToken(rows, nextId, Lookup(params, "shop"), token)
        case Refused(error) => CallbackStep(rows, nextId, withToken, ErrorPage(error))
        case Saved(r, n) =>
          SavedShopHasOneRow(rows, nextId, Lookup(params, "shop"), token);
          SavedKeepsInvariants(rows, nextId, Lookup(params, "shop"), token);
          CallbackStep(r, n, withToken, Redirect(SHOPIFY_DASHBOARD_PATH))
  }

  /** With unique shop URLs, non-empty parameters including `shop` and a granted
      token, the callback saves the token and goes to the dashboard. */
  lemma CallbackSucceeds(rows: Rows, nextId: nat, session: map<string, Json>,
                         params: map<string, string>, token: string)
    requires forall k :: k in rows ==> k < nextId
    requires UniqueShops(rows)
    requires "shop" in params && forall p :: p in params ==> params[p] != ""
    ensures ShopifyCallback(rows, nextId, session, params, Granted(token)).response == Redirect(SHOPIFY_DASHBOARD_PATH)
  {
    UniqueShopsMatchAtMostOne(rows, params["shop"]);
  }

  /** `params.get(key)` on the query parameters. */
  function Lookup(params: map<string, string>, key: string): (v: Option<string>)
    ensures v.Some? <==> key in params
    ensures v.Some? ==> v.value == params[key]
  {
    if key in params then Some(params[key]) else None
  }

  /** With unique shop URLs the callback never fails on `MultipleObjectsReturned`. */
  lemma CallbackNeverFindsTwoStores(rows: Rows, nextId: nat, session: map<string, Json>,
                                    params: map<string, string>, request: TokenRequest)
    requires forall k :: k in rows ==> k < nextId
    requires UniqueShops(rows)
    ensures ShopifyCallback(rows, nextId, session, params, request).response != ErrorPage(MultipleStores)
  {
    if "shop" in params {
      UniqueShopsMatchAtMostOne(rows, params["shop"]);
    }
  }

  // ---------------------------------------------------------------------
  // The table itself
  // ---------------------------------------------------------------------

  class StoreTable {
    var rows: Rows
    var nextId: nat

    /** Every row's id was handed out before the counter's current value. */
    predicate Valid()
      reads this
    {
      forall k :: k in rows ==> k < nextId
    }

    constructor ()
      ensures Valid() && rows == map[] && nextId == 1
    {
      rows := map[];
      nextId := 1;
    }

    method ActivateStore(id: nat) returns (response: Response)
      requires Valid()
      modifies this
      ensures Valid() && nextId == old(nextId)
      ensures TableStep(rows, response) == ActivateStep(old(rows), id)
    {
      rows := DeactivateAll(rows);
      if id !in rows {
        return NotFound;
      }
      var store := rows[id];
      store := store.(isActive := true);
      rows := rows[id := store];
      response := Redirect(SHOPIFY_DASHBOARD_PATH);
    }

    method RemoveStore(id: nat) returns (response: Response)
      requires Valid()
      modifies this
      ensures Valid() && nextId == old(nextId)
      ensures TableStep(rows, response) == RemoveStep(old(rows), id)
    {
      if id !in rows {
        return NotFound;
      }
      rows := rows - {id};
      response := Redirect(SHOPIFY_DASHBOARD_PATH);
    }

    /** `Store.objects.get_or_create(shop_url=shop)`, the token assignment and `save()`. */
    method SaveToken(shop: Option<string>, token: string) returns (refused: Option<ErrorText>)
      requires Valid()
      modifies this
      ensures Valid()
      ensures refused.None? ==> GetOrCreateToken(old(rows), old(nextId), shop, token) == Saved(rows, nextId)
      ensures refused.Some? ==> GetOrCreateToken(old(rows), old(nextId), shop, token) == Refused(refused.value)
                                && rows == old(rows) && nextId == old(nextId)
    {
      if shop.None? {
        return Some(IntegrityError);
      }
      var m := Matching(rows, shop.value);
      if |m| > 1 {
        return Some(MultipleStores);
      }
      if |m| == 0 {
        var created := Store(shop.value, "", None, false);
        rows := rows[nextId := created];
        created := created.(accessToken := token);
        rows := rows[nextId := created];
        nextId := nextId + 1;
      } else {
        var id :| id in m;
        assert m == {id} by {
          assert |m - {id}| == 0;
        }
        OverwriteOneRow(rows, shop.value, token, id);
        var store := rows[id];
        store := store.(accessToken := token);
        rows := rows[id := store];
      }
      refused := None;
    }

    method CallbackShopify(session: Session, params: map<string, string>, request: TokenRequest)
      returns (response: Response)
      requires Valid()
      modifies this, session
      ensures Valid()
      ensures CallbackStep(rows, nextId, session.entries, response)
              == ShopifyCallback(old(rows), old(nextId), old(session.entries), params, request)
    {
      if exists p :: p in params && params[p] == "" {
        return ErrorPage(Text(PARAMS_MISSING));
      }
      if request.Failed? {
        return ErrorPage(Text(request.text));
      }
      session.Put(SHOPIFY_TOKEN_KEY, JStr(request.token));
      var refused := SaveToken(Lookup(params, "shop"), request.token);
      if refused.Some? {
        return ErrorPage(refused.value);
      }
      response := Redirect(SHOPIFY_DASHBOARD_PATH);
    }
  }
}
