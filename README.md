# Pizza bot: Messenger menu, event routing and token refresh

A Dafny model of the core of a Facebook Messenger bot that shows the
products of a Moltin (Elastic Path) catalog as a "generic template" carousel.

- **Menu** (`menu.dfy`, `send_menu`): for one catalog node, the element list
  is a fixed header card ("Меню", with the buttons Корзина / Акции /
  Сделать заказ and the payloads `CART`, `PROMOTION`, `ORDER`). Then comes
  one card per catalog product whose id is among the node's products, in
  catalog order. Last is a fixed trailer card whose three buttons (Особые,
  Сытные, Острые) carry the node ids of those categories. A product card is
  titled `"<name> (<amount> р.)"`. It shows the URL its main image resolves
  to and the description (or `""`). It has one button "Добавить в корзину"
  whose payload is the product id. Every button is a postback button. The
  image lookup is a function parameter `string -> Option<string>`. A failed
  lookup raises in the code, so `Render` and `SendMenu` return `None` and no
  menu is sent.
- **Dispatch** (`dispatch.dfy`, the loops of `webhook`): for a payload whose
  `object` is `"page"`, every messaging event of every entry is handled in
  order. A message is echoed and answered with the menu of the root node. A
  postback whose title is a category label opens the menu of its payload
  node. Everything else is ignored. The code raises, and the call ends, in
  several places. A payload without `entry` raises, and so does an entry
  without `messaging` or a message without `text`. A send that fails also
  raises. Whether a send succeeds is a parameter `delivered: Action -> bool`.
  The model records a raise as a `crashed` outcome. The sends made before it
  stay made, and nothing after it is handled. The root node id
  (`FRONT_PAGE_NODE_ID`) is a parameter.
- **TokenStore** (`token_store.dfy`, `check_token`): a class holding the
  `TOKEN_EXPIRES` / `ACCESS_TOKEN` pair. A check calls the token endpoint (an
  OAuth 2.0 client-credentials grant, section 4.4 of RFC 6749) when nothing
  is stored, when the stored expiry is strictly less than `now`, or when the
  error flag is set. It then stores `expires - 60` and the new token. The
  endpoint's answer is an input. `now` is a parameter (whole seconds). The
  code as written can store a new expiry beside the old token (see
  Findings). The class performs the corrected check, which stores both
  fields together or neither.
- **App** (`app.dfy`, `webhook`): the corrected `check_token()` first, then
  the dispatch. A menu send succeeds when three things hold: the catalog and
  the node's product records were fetched, `Menu.Render` yields an element
  list, and the post succeeds.

The guard compares the already-shortened stored expiry with `<`. So a token
whose stored expiry equals `now` is still used, and the refresh happens one
second later. Nothing in the code passes `error=True`, and no call is retried
after an authentication failure. The model follows the code in both points.

## Model

| member | source | states |
|---|---|---|
| `Menu.Render` | app.py:77-142 | The element list exists exactly when every node product's image resolves. It then has 2 + (number of catalog products in the node) elements, starts with the header card and ends with the trailer card |
| `Menu.SendMenu` | app.py:70-142 | The append loop over the catalog builds exactly `Render` of the catalog, the ids of the node's products and the resolver. It stops with no menu at the first failed image lookup |
| `Menu.NodeProductIds` | app.py:76 | One id per node product record (a record of which only the id is read); an id is in the list iff some node product has it |
| `Menu.StartsWithHeader` | app.py:77-100 | The first element is titled "Меню" and its three buttons carry `CART`, `PROMOTION`, `ORDER` in that order |
| `Menu.EndsWithTrailer` | app.py:119-142 | The last element's buttons are exactly Особые, Сытные, Острые with their fixed node-id payloads |
| `Menu.EmptyMembership` | app.py:77-142 | A node without products yields exactly `[Header, Trailer]`, whatever the catalog |
| `Menu.CardOfMember` | app.py:101-118 | A catalog product in the node has its image resolved. Its card sits at position 1 + (number of node products before it). The card has title `"<name> (<amount> р.)"`, the resolved URL, the description or `""`, and the single button "Добавить в корзину" with the product id |
| `Menu.CardComesFromMember` | app.py:101-118 | Every element between header and trailer is exactly the card of a catalog product in the node, at that product's position, with its resolved image. It has one "Добавить в корзину" button whose payload is in the node list |
| `Menu.CatalogOrderKept` | app.py:101-118 | For two node products `i < j` of the catalog, the element list holds the card of `i` before the card of `j` |
| `Menu.ExactlyOneCardPerMember` | app.py:101-116 | With distinct catalog ids, a node product's "add to cart" button appears on exactly one element: its own card |
| `Menu.NoCardForNonMember` | app.py:101-102 | An id missing from the node list appears on no "add to cart" button |
| `Menu.RepeatedIdsIgnored` | app.py:101-102 | Repeating an id in the node list changes nothing; no card is duplicated |
| `Menu.AtMostThreeButtons` | app.py:77-142 | Every element has between one and three buttons |
| `Menu.DecimalRoundTrip` | app.py:107 | The amount printed into a product title reads back as the same integer |
| `Dispatch.Route` | app.py:35-47 | An event raises before any send exactly when it is a message without text. Otherwise it asks for at most two sends, all to its sender. It asks for a menu exactly when it is a message or a postback with a category title |
| `Dispatch.Deliver` | app.py:39-47 | Sends are made in order up to the first that fails. The call raises exactly when some send fails, and then the failed send is the one right after those made. Without a failure every send is made |
| `Dispatch.HandleEventCases` | app.py:35-47 | One event, branch by branch: a message without text raises at once. A text message's echo that fails raises with nothing sent. A root menu that fails raises after the echo. A category postback sends its node's menu or raises. Anything else sends nothing |
| `Dispatch.SendReplies` | app.py:35-47 | The body of the inner loop performs exactly what one event does |
| `Dispatch.HandleEvents` | app.py:34-47 | A sequence of events makes at most two sends per event, and every send it makes succeeded |
| `Dispatch.SendEntryReplies` | app.py:34-47 | The inner loop over an entry's messaging events performs exactly `HandleEvents`, stopping at the first event that raises |
| `Dispatch.DispatchEvents` | app.py:32-47 | The nested entry/messaging loops perform exactly `Handled(data, root, delivered)`. Nothing happens unless `object` is "page". A missing `entry` raises. The loops stop at the first entry or event that raises |
| `Dispatch.HandleEventsAppend` | app.py:34-47 | Events are handled in order: handling `a + b` is handling `a`, then, unless that raised, `b` |
| `Dispatch.HandleEntriesAppend` | app.py:33-47 | Entries are handled in order: handling `e1 + e2` is handling `e1`, then, unless that raised, `e2` |
| `Dispatch.CrashIsFinal` | app.py:33-47 | Once an event raises, no later event is handled |
| `Dispatch.EntriesInOrder` | app.py:33-34 | A page payload with entries `e1 + e2` sends what `e1` sends, then, unless that raised, what `e2` sends |
| `Dispatch.EntryWithoutMessagingStops` | app.py:34 | An entry without `messaging` raises: what the entries before it sent stays sent, and no later entry is handled |
| `Dispatch.NotAPageIgnored` | app.py:32 | A payload whose object is not "page" sends nothing and does not raise |
| `Dispatch.TextMessageEchoThenMenu` | app.py:35-40 | A text message adds `Echo(sender, text)` immediately followed by the root menu for the sender. A failed echo raises before the menu is sent, and a failed menu raises after the echo |
| `Dispatch.PostbackRouting` | app.py:41-47 | A postback adds the menu of its payload node if its title is Особые, Сытные or Острые, and nothing otherwise. A failed menu send raises |
| `Dispatch.TrailerButtonsRouteBack` | app.py:41-47 | Every trailer button of the menu, pressed, asks for the menu of its own node |
| `Dispatch.OtherButtonsIgnored` | app.py:41-47 | Header buttons and "Добавить в корзину" buttons ask for no send |
| `TokenStore.CheckToken` | api-store.py:11-25 | The endpoint is called exactly when the guard holds. Without a call nothing changes. A failed exchange raises and changes nothing. A granted one stores `expires - 60` and its token |
| `TokenStore.ExpiryAtNowIsValid` | api-store.py:12 | A stored expiry equal to `now` does not trigger a refresh |
| `TokenStore.ErrorForcesRefresh` | api-store.py:12-25 | With the error flag a granted exchange always replaces the pair, even when the stored expiry is in the future |
| `TokenStore.RefreshedTokenIsKept` | api-store.py:12-25 | After a refresh, checks without error up to the new stored expiry make no exchange and keep the new pair |
| `TokenStore.CheckTokenAsWritten` | api-store.py:21-25 | The code as written: the endpoint is called exactly when the guard holds, and without a call nothing changes |
| `TokenStore.PartialWriteAsWritten` | api-store.py:24-25 | As written, a success body without `access_token` stores the new expiry beside the old token. The next check then keeps the old token |
| `TokenStore.ParseResponse` | api-store.py:21-25 | An answer is a grant iff its status is a success and both `expires` and `access_token` are present, and the grant carries those values |
| `TokenStore.CheckTokenResponse` | api-store.py:11-25 | The corrected check: the stored pair is either untouched (always so when it raises) or both fields come from the answer |
| `TokenStore.CorrectedAgreesOnWellFormedAnswers` | api-store.py:21-25 | The corrected check equals the code as written on every answer except a success with `expires` but no `access_token` |
| `TokenStore.Credentials.constructor` | api-store.py:12 | The process starts with whatever pair the environment holds |
| `TokenStore.Credentials.CheckToken` | api-store.py:11-25 | The in-place check updates both fields to the corrected check's result and reports whether it called the endpoint and whether it raised. It calls exactly when the guard holds; without a call or on failure nothing changes |
| `App.MenuNeedsElements` | app.py:101-105 | A menu send succeeds only if every image of the node's catalog products resolves |
| `App.FailedMenuStopsTheCall` | app.py:33-47 | Two text messages where the root menu cannot be rendered: the first message is echoed, its menu raises, and the second message gets no reply |
| `App.Webhook` | app.py:25-49 | A POST first runs the corrected token check (`TokenStore.CheckTokenResponse`, see Findings) without the error flag, and the stored pair follows it. If the check raises, nothing is sent. Otherwise the payload's events are dispatched with the sends' success given by the catalog, the renderer and the post results |

## Left out

- The Flask app, the GET verification handshake and its debug `send_message` (app.py:7-22): transport plumbing.
- `send_message` and the HTTP post of `send_menu` (app.py:52-67, 143-164): network I/O. The model stops at the element list and the ordered list of sends. Whether each post succeeds is the `posted` parameter.
- The HTTP status of the webhook response: `DispatchEvents` reports `crashed` where the code would answer with a server error.
- The catalog calls `api.get_products`, `api.get_node_products` and `api.get_file`: `api_store` functions that are not part of this model. Their results are inputs: the product list (None when the fetch raises), the node's product records per node (None when the fetch raises) and the image resolver.
- `App.Webhook`: the catalog, the node records, the image resolver and the post results are the same for every send of one call. The code fetches them again for each menu.
- `App.Webhook`: it runs the corrected token check `TokenStore.CheckTokenResponse`. It does not run the code as written at api-store.py:24-25, which can store a new expiry beside the old token (see Findings).
- `Dispatch.DispatchEvents`: the sender id, recipient id, postback payload and postback title of an event are taken as present. A missing one raises a `KeyError` in the code (app.py:36-37, 42-45) and ends the call; the model has no such event. The event's `recipient` id, which the code reads but never uses, is not modelled.
- Product records are taken as well formed. A record missing `relationships`, `attributes`, `name` or the RUB price would raise a `KeyError`. A `description` present with JSON null gives `None` as the subtitle, not `""`. The model has no such record.
- `Menu.Product`: the price amount is an integer. A non-integer amount and its Python formatting are not modelled.
- The environment variables (`PAGE_ACCESS_TOKEN`, `VERIFY_TOKEN`, `FRONT_PAGE_NODE_ID`, `HIERARCHY_ID`, `CLIENT_ID`, `CLIENT_SECRET`): the root node is a parameter, the token pair is the state of `TokenStore.Credentials`, and the rest only feed I/O.
- `time.time()`: `now` is an integer parameter.
- The form body sent to the token endpoint (api-store.py:13-21): I/O. The endpoint's answer is the `TokenResponse` input.
- `create_product`, `create_pcm_product`, `add_product_price`, `upload_image`, `get_pcm_products` and both `__main__` blocks (api-store.py:28-136, app.py:167-168): request builders around network calls, not part of the menu or routing core.
- Concurrent webhook calls sharing the token state: the model is sequential.

## Findings

| source | as written | input that shows it | evidently intended | confidence | as-written member | corrected member |
|---|---|---|---|---|---|---|
| api-store.py:24-25 | `TOKEN_EXPIRES` is written before `token_data['access_token']` is read, so a missing token raises after the expiry was already replaced | stored pair `(100, "old")`, `now = 200`, a success answer `{"expires": 5000}` without `access_token`: the pair becomes `(4940, "old")`, and checks up to 4940 keep the old token | both fields are read first and stored together, or neither | low: needs a success answer without `access_token`; not executed | `TokenStore.PartialWriteAsWritten` | `TokenStore.CheckTokenResponse` |
