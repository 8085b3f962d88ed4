# Dropfy store connections, in Dafny

Dropfy is a Django dropshipping dashboard. It connects a seller to two
outside platforms:

- the AliExpress open platform, where the seller finds products;
- a Shopify store, where the seller sells them.

This project models the core of both connections and proves what that core
promises.

**AliExpress** (`app_aliexpress/views.py`):

- **Request signing** (`generate_sign`). Each parameter value goes through
  `str()` and `urllib.parse.quote`. The keys are sorted and each key is joined
  with its value. The API name is put in front only when it is a REST path.
  The HMAC-SHA256 of that string is returned as upper-case hex. Modules
  `Percent`, `KeyOrder` and `Signer`.
- **The OAuth token lifecycle**, kept in the user's session under three keys
  (modules `Web` and `Tokens`):
  - the `token_required` gate, which refreshes the token when it expires
    within 60 seconds;
  - the authorization-code exchange of `callback_aliexpress`, section 4.1 of
    RFC 6749;
  - the refresh of `refresh_aliexpress_token`, section 6 of RFC 6749.
- **Listing arithmetic** (module `Paging`):
  - the page count and page check of `recommend_feed_aliexpress`;
  - the `is_finished` flag of `text_search_aliexpress`;
  - the `;`-separated image list of `product_detail_aliexpress`.

**Shopify** (`app_shopify/views.py`, module `Stores`): the `Store` table
that the views edit.

- `authenticate_shopify` sends the browser to Shopify's permission page.
- `callback_shopify` obtains the access token and upserts the shop's row.
- `activate_store` makes one store the active one.
- `remove_store` deletes a store.

**How the code is modelled.**

- Python values the views read are written out as datatypes (module
  `PyValues`):
  - JSON-shaped reply fields and session entries;
  - Python's truth test;
  - `int()` on strings, `str()` on integers;
  - UTF-8.
- Each view is a pure specification function from the old state to a step:
  the new session or table, the response, and what was sent to the remote
  endpoint.
- Where the view updates the session or the table in place, a method on the
  `Session` or `StoreTable` class makes the same writes, in the same order.
  The method's postcondition ties its new state to the specification
  function.
- Remote endpoints, the clock and the HMAC primitive are function parameters.

## Model

| member | source | states |
|---|---|---|
| PyValues.IntToStr | app_aliexpress/views.py:505 | `str(n)` is a minus sign exactly for negative numbers, then decimal digits with no leading zero; a numeral starting with `0` is `0` itself |
| PyValues.ParseInt | app_aliexpress/views.py:260-261 | `int(s)` on a string yields a number only when the string holds at least one digit |
| PyValues.ParseIntIgnoresSpace | app_aliexpress/views.py:260-261 | `int()` ignores whitespace around the numeral: a space added at either end changes nothing |
| PyValues.ToInt | app_aliexpress/views.py:260-261 | `int(v)` raises only ValueError or TypeError, and TypeError exactly for None, lists and dicts |
| PyValues.IntOfStr | app_aliexpress/views.py:505 | the number `str()` prints in the page-range message reads back through `int()` as the same integer, for every integer |
| PyValues.Utf8RoundTrip | app_aliexpress/views.py:124-125 | the UTF-8 encoding of the HMAC key and message loses nothing: decoding it gives the string back |
| PyValues.Utf8Ascii | app_aliexpress/views.py:124-125 | an ASCII string encodes to one byte per character, equal to its code |
| Percent.Quote | app_aliexpress/views.py:109 | `quote(str(v))` yields only unreserved characters, `/`, `%` and upper-case hex digits |
| Percent.UnquoteQuote | app_aliexpress/views.py:109 | percent-encoding is lossless: unquoting and UTF-8 decoding `quote(s)` gives `s` back |
| Percent.QuoteKeepsSafe | app_aliexpress/views.py:109 | a value made of unreserved characters and `/` is left unchanged |
| Percent.QuoteEscapes | app_aliexpress/views.py:109 | wherever a byte outside the safe set sits in the value's UTF-8 encoding, `quote` writes `%` and its two upper-case hex digits in its place, between the encodings of the bytes before and after it |
| KeyOrder.Below | app_aliexpress/views.py:112 | Python's `<` on strings, by code point; what it means is stated by the lemmas in the next rows |
| KeyOrder.ProperPrefixBelow | app_aliexpress/views.py:112 | a proper prefix sorts before the longer string |
| KeyOrder.BelowAtFirstDifference | app_aliexpress/views.py:112 | after a common prefix, the first differing code points decide the order |
| KeyOrder.SortKeys | app_aliexpress/views.py:112 | `sorted(keys)` is ascending in Python's string order and a permutation of the keys |
| KeyOrder.BelowTotal | app_aliexpress/views.py:112 | Python's string order is total: of two different keys one comes first |
| KeyOrder.BelowTransitive | app_aliexpress/views.py:112 | Python's string order is transitive |
| KeyOrder.SortKeysOrderIndependent | app_aliexpress/views.py:112 | the sorted key list depends only on which keys there are, not on their order |
| KeyOrder.SortKeysOfAscending | app_aliexpress/views.py:112 | keys already in ascending order come back unchanged |
| Signer.Str | app_aliexpress/views.py:109 | `str(v)` keeps a string as it is; it writes an integer as its canonical numeral (`IntToStr`), which `int()` reads back as that integer; it writes a flag as `True` or `False`, which is not a number |
| Signer.EncodedParameters | app_aliexpress/views.py:109 | the encoded dict has the same keys in the same order, each value `quote(str(v))` |
| Signer.CanonicalString | app_aliexpress/views.py:109-120 | the string to sign is the API name (only when it contains `/`), then each key followed by its `quote(str(value))`, keys in `sorted` order |
| Signer.CanonicalOrderIndependent | app_aliexpress/views.py:109-120 | two dicts with the same entries give the same signed string, whatever their insertion order |
| Signer.CanonicalInKeyOrder | app_aliexpress/views.py:111-120 | the signed string is the API name (only when it contains `/`) followed by each key and its encoded value, in ascending key order |
| Signer.ApiNamePrefixed | app_aliexpress/views.py:115-117 | a REST path name comes first in the signed string, ahead of the pairs |
| Signer.ApiNameOmitted | app_aliexpress/views.py:118-120 | a method name without `/` does not affect the signed string |
| Signer.CanonicalOfNoParameters | app_aliexpress/views.py:109-120 | with no parameters the signed string is the REST path, or empty |
| Signer.CanonicalOfOneParameter | app_aliexpress/views.py:109-120 | one parameter contributes its key verbatim, then its `str()`-converted, percent-encoded value |
| Signer.UpperHexDigest | app_aliexpress/views.py:128 | `hexdigest().upper()` has two characters per byte, all in `0-9A-F`, and decodes back to the digest |
| Signer.Sign | app_aliexpress/views.py:105-128 | the signature is 64 upper-case hex digits that decode to the HMAC, keyed by the UTF-8 secret, of the UTF-8 canonical string |
| Signer.SignOrderIndependent | app_aliexpress/views.py:105-128 | the signature does not depend on the order the parameters were added in |
| Web.Session.Put | app_aliexpress/views.py:258-266 | `request.session[key] = value` replaces that key's value and leaves every other key as it was |
| Tokens.TokenRefresh | app_aliexpress/views.py:232-282 | with no refresh token: no remote call, session unchanged. Every return to authorization leaves the session unchanged. Success iff the reply is "success", a JSON object with `access_token` and an `int()`-convertible `expires_in`. On success: new access token, expiry `now + expires_in`, refresh token replaced only by a non-empty new one, other keys kept. A server error has exactly three causes: the call raised (it escapes, nothing written); the body was already a dict, so `json.loads` raises TypeError (nothing written); or `int()` failed after the access token was written |
| Tokens.RefreshAliexpressToken | app_aliexpress/views.py:232-282 | the session writes and response match `TokenRefresh` on the old session |
| Tokens.TokenGate | app_aliexpress/views.py:142-167 | no expiry: to authorization, with nothing else done. An expiry that is set but not a number: the comparison raises TypeError, which escapes. The view runs iff the expiry is a number more than 60 seconds ahead, and then nothing changes. Otherwise, for a numeric expiry, the refresh's outcome is returned, even a successful one. The refresh uses its own, later clock reading, taken after the remote call returns. A ValueError never escapes the gate |
| Tokens.TokenRequired | app_aliexpress/views.py:142-167 | the session writes and result match `TokenGate` on the old session |
| Tokens.AuthorizationCallback | app_aliexpress/views.py:183-228 | no code: no remote call, session unchanged. If the call raises, nothing is stored: KeyError and TypeError go to authorization, anything else escapes. An incomplete reply stores nothing. Dashboard iff the reply holds all three fields and `expires_in` converts; then all three are stored, the expiry relative to now. A failing `int()` keeps both tokens written; TypeError goes to authorization, ValueError escapes |
| Tokens.CallbackAliexpress | app_aliexpress/views.py:183-228 | the session writes and response match `AuthorizationCallback` on the old session |
| Paging.TotalPages | app_aliexpress/views.py:498 | `(total + size - 1) // size` is the least page count whose pages hold `total` records |
| Paging.NoRecordsNoPages | app_aliexpress/views.py:498 | no records give no pages |
| Paging.RecommendPaging | app_aliexpress/views.py:450-526 | an unconvertible page parameter escapes as ValueError. A record count that fails to convert goes to the dashboard on ValueError and escapes on TypeError. A page is shown iff both numbers convert, the page is at least 1, and records lie beyond the previous pages. When both convert but the page is out of range, the error page is rendered. The page shows the page number, the record count, its page count and the reply's own `is_finished` flag. The refusal message names the page count |
| Paging.NoRecordsRejectsEveryPage | app_aliexpress/views.py:494-506 | with no records (missing or 0), every page number is refused |
| Paging.SearchPaging | app_aliexpress/views.py:601-653 | an unconvertible page parameter escapes as ValueError. A total that fails to convert goes to the dashboard on ValueError and escapes on TypeError. A page is shown iff both numbers convert, with the page number, the total and its page count of 20 per page. `is_finished` holds iff no result lies beyond the current page. There is no page-range check |
| Paging.Split | app_aliexpress/views.py:350-352 | `split(";")` gives at least one piece, none of which contains `;` |
| Paging.JoinSplit | app_aliexpress/views.py:350-352 | joining the pieces with `;` gives the original string |
| Paging.SplitJoin | app_aliexpress/views.py:350-352 | splitting a `;`-join of `;`-free pieces gives the pieces back |
| Paging.ImageUrls | app_aliexpress/views.py:344-354 | no multimedia entry or no `image_urls` gives `[]`. A string is split into `;`-free pieces that join back to it. A non-string value raises AttributeError |
| Stores.AuthenticateShopify | app_shopify/views.py:11-23 | the error page iff the shop field is missing or empty; otherwise a redirect to the permission URL for that shop and the fixed scopes |
| Stores.DeactivateAll | app_shopify/views.py:63 | same rows, none active, nothing but the flag changed |
| Stores.ActivateStep | app_shopify/views.py:62-67 | same rows; a row is active iff it is the chosen id; only flags change; redirect iff the id exists, else 404 with no store active; at most one store active |
| Stores.RemoveStep | app_shopify/views.py:70-73 | unknown id: 404 with the table unchanged. Otherwise exactly that row is deleted and the other rows are unchanged. Unique shops and a single active store are preserved |
| Stores.StoreTable.ActivateStore | app_shopify/views.py:62-67 | the table and response match `ActivateStep`; the id counter is unchanged |
| Stores.StoreTable.RemoveStore | app_shopify/views.py:70-73 | the table and response match `RemoveStep`; the id counter is unchanged |
| Stores.AddStore | app_shopify/views.py:44-49 | the insert adds exactly one row under a fresh id, holding the shop and the token; other rows unchanged |
| Stores.OverwriteToken | app_shopify/views.py:44-49 | the update writes the token into the matching rows only; the keys and the other rows are unchanged |
| Stores.GetOrCreateToken | app_shopify/views.py:44-49 | a missing shop is refused with an integrity error. Refused for several matching rows iff there are more than one. Saved iff the shop is present and at most one row matches; no other refusal |
| Stores.SavedShopHasOneRow | app_shopify/views.py:44-49 | after a save exactly one row has the shop URL, and it holds the new token |
| Stores.SavedChangesOnlyThatRow | app_shopify/views.py:44-49 | an existing row keeps its id and gets the token; otherwise exactly one row is added under the next id. Every other row is unchanged |
| Stores.SavedKeepsInvariants | app_shopify/views.py:44-49 | a save keeps shop URLs unique and at most one store active |
| Stores.UniqueShopsMatchAtMostOne | app_shopify/views.py:44 | with unique shop URLs the lookup finds at most one row |
| Stores.GetOrCreateTokenIdempotent | app_shopify/views.py:44-49 | saving the same shop and token again leaves the table and counter as one save did |
| Stores.ShopifyCallback | app_shopify/views.py:25-53 | an empty parameter value: error page, nothing changed. A failed token request: error page with its text, nothing changed. Redirect iff the values are non-empty, the token is granted and the upsert saves. The redirect goes to the dashboard, with the token in the session and the table as the upsert left it. A refused upsert keeps the table but the session holds the token. Unique shops and a single active store are preserved |
| Stores.CallbackSucceeds | app_shopify/views.py:25-53 | with unique shop URLs, non-empty parameters including `shop`, and a granted token, the callback redirects to the dashboard |
| Stores.CallbackNeverFindsTwoStores | app_shopify/views.py:44 | with unique shop URLs the callback never fails on `MultipleObjectsReturned` |
| Stores.StoreTable.SaveToken | app_shopify/views.py:44-49 | the table and counter match `GetOrCreateToken`; a refusal changes nothing |
| Stores.StoreTable.CallbackShopify | app_shopify/views.py:25-53 | the table, counter, session and response match `ShopifyCallback` on the old state |

## Left out

- HMAC-SHA256 itself is a function parameter returning 32 bytes. SHA-256 and the HMAC construction are not modelled.
- The `iop` client, the Shopify library and `time.time()` are parameters:
  - the token exchange and refresh calls, each ending in a reply or a raised exception;
  - `request_token`, as granted or failed with the exception text;
  - the permission-URL builder;
  - the clock, read by the token gate before its window check and again by the refresh after its remote call.
- The library `Session.setup` and `activate_session` calls are left out; they only configure the library.
- `authorization_aliexpress` (building the authorization URL) is left out, as are the other views of both apps. Among them are the product search and import views, the image resizing with PIL and the description cleaning with BeautifulSoup.
- The `redirect(path, {...})` extra argument is ignored by Django, so a redirect is its path alone. The texts of the AliExpress error messages are therefore not modelled.
- A rendered page's template and context, other than the error text and the paging numbers, are left out.
- The listing views' remote calls and the digging of `total_record_count`, `totalCount` and `is_finished` out of nested replies are left out. The paging functions take those fields as inputs.
- The API error branches before the paging code are left out, since they depend only on the remote reply. So is the `Paginator` of the feed-name view.
- Paging.SearchPaging: `total_results` holds the count after `int()`, where the view passes on the raw reply value.
- A refresh reply body that decodes to JSON other than an object is left out. The body is text holding an object, undecodable text, or a dict the client already decoded.
- Floats are not among the JSON values. `int()` covers base 10 with ASCII digits, and ASCII whitespace with the separators `\x1c` to `\x1f`. Other Unicode whitespace and digits are not modelled.
- PyValues.IntOfStr: holds for every integer, whereas Python 3.11 and later refuse to convert integers of more than 4300 digits between `int` and `str` (ValueError). That limit is not modelled.
- Tokens.TokenRefresh: a `json.JSONDecodeError` raised from inside `client.execute` would be caught at line 278. The model does not tell that class apart from other exceptions the call raises, so it escapes.
- Tokens.AuthorizationCallback: a reply body that is not a dict is not modelled. The client hands back a dict.
- Tokens.TokenRefresh, Tokens.AuthorizationCallback, Tokens.TokenGate: the entries of a step that ends in `ServerError` are the session as changed in memory. Django's session middleware does not save the session when the response is a server error, so writes made before an exception escapes are not persisted. Only the caught paths persist them.
- Web.Session: the session is a map of JSON values. Its storage backend and its serialization are left out.
- Store rows:
  - the database hands out ids from a counter;
  - `created_at` and `alter_at` are not modelled;
  - `location_id` is carried but never set, as in the view, where its assignment is commented out.
- Stores.GetOrCreateToken: `MultipleObjectsReturned` and `IntegrityError` are abstract error texts, not Django's exact wording.
- Stores.GetOrCreateToken: a concurrent insert between the lookup and the save is not modelled (no concurrency).
- Signer.Upper: `upper()` is applied to ASCII hex digits only, the only characters a hex digest contains.
