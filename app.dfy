/**
 * The webhook entry point: refresh the API token if needed, then route the
 * events of the payload, rendering each requested menu from the catalog.
 */
module App {
  import opened Common
  import TokenStore
  import Menu
  import Dispatch

  /**
   * Whether a send succeeds. An echo succeeds when its post does. A menu
   * needs the catalog (`products`, None when get_products raises), the
   * node's product records (`nodeProducts(node)`, None when
   * get_node_products raises), an element list (every image of the node
   * resolves) and a successful post. `posted` is the platform's answer to
   * each post.
   */
  function Delivered(products: Option<seq<Menu.Product>>, nodeProducts: string -> Option<seq<Menu.NodeProduct>>,
                     resolve: string -> Option<string>, posted: Dispatch.Action -> bool): Dispatch.Action -> bool
  {
    (a: Dispatch.Action) =>
      match a
      case Echo(_, _) => posted(a)
      case ShowMenu(_, node) =>
        && products.Some?
        && nodeProducts(node).Some?
        && Menu.Render(products.value, Menu.NodeProductIds(nodeProducts(node).value), resolve).Some?
        && posted(a)
  }

  /**
   * A menu is sent only when its element list exists: a node product whose
   * image does not resolve makes the menu send raise.
   */
  lemma MenuNeedsElements(products: Option<seq<Menu.Product>>, nodeProducts: string -> Option<seq<Menu.NodeProduct>>,
                          resolve: string -> Option<string>, posted: Dispatch.Action -> bool,
                          recipient: string, node: string)
    requires products.Some? && nodeProducts(node).Some?
    ensures Delivered(products, nodeProducts, resolve, posted)(Dispatch.ShowMenu(recipient, node))
        ==> Menu.ImagesResolve(products.value, Menu.NodeProductIds(nodeProducts(node).value), resolve)
  {
  }

  /**
   * Two text messages in one call, where the root menu cannot be rendered:
   * the first message is echoed, its menu raises, and the second message is
   * never handled.
   */
  lemma FailedMenuStopsTheCall(products: seq<Menu.Product>, nodeProducts: string -> Option<seq<Menu.NodeProduct>>,
                               resolve: string -> Option<string>, posted: Dispatch.Action -> bool,
                               root: string, s1: string, t1: string, s2: string, t2: string)
    requires nodeProducts(root).Some?
    requires Menu.Render(products, Menu.NodeProductIds(nodeProducts(root).value), resolve).None?
    requires posted(Dispatch.Echo(s1, t1))
    ensures var e1 := Dispatch.MessagingEvent(s1, Some(Dispatch.Message(Some(t1))), None);
            var e2 := Dispatch.MessagingEvent(s2, Some(Dispatch.Message(Some(t2))), None);
            var data := Dispatch.Payload("page", Some([Dispatch.Entry(Some([e1, e2]))]));
            (Dispatch.Handled(data, root, Delivered(Some(products), nodeProducts, resolve, posted))
             == Dispatch.Outcome([Dispatch.Echo(s1, t1)], true))
  {
    var delivered := Delivered(Some(products), nodeProducts, resolve, posted);
    var e1 := Dispatch.MessagingEvent(s1, Some(Dispatch.Message(Some(t1))), None);
    var e2 := Dispatch.MessagingEvent(s2, Some(Dispatch.Message(Some(t2))), None);
    Dispatch.HandleEventCases(e1, root, delivered);
    assert Dispatch.HandleEvents([e1], root, delivered) == Dispatch.Outcome([Dispatch.Echo(s1, t1)], true) by {
      Dispatch.HandleEventsSnoc([], e1, root, delivered);
      assert [] + [e1] == [e1];
    }
    Dispatch.CrashIsFinal([e1], [e2], root, delivered);
    assert [e1] + [e2] == [e1, e2];
    var entries := [Dispatch.Entry(Some([e1, e2]))];
    Dispatch.HandleEntriesSnoc([], entries[0], root, delivered);
    assert [] + [entries[0]] == entries;
  }

  /**
   * A POST to the webhook: check_token() without the error flag, then the
   * dispatch loops. A check that raises ends the call before any send.
   * `now` is the current Unix time in whole seconds; `resp` is what the token
   * endpoint would answer if it is called. The token check is the corrected
   * one (both fields stored together or neither).
   */
  method Webhook(creds: TokenStore.Credentials, now: int, resp: TokenStore.TokenResponse,
                 data: Dispatch.Payload, root: string,
                 products: Option<seq<Menu.Product>>, nodeProducts: string -> Option<seq<Menu.NodeProduct>>,
                 resolve: string -> Option<string>, posted: Dispatch.Action -> bool)
    returns (out: Dispatch.Outcome)
    modifies creds
    ensures var c := TokenStore.CheckTokenResponse(old(creds.State()), now, false, resp);
            && creds.State() == c.state
            && out == (if c.raised then Dispatch.Outcome([], true)
                       else Dispatch.Handled(data, root, Delivered(products, nodeProducts, resolve, posted)))
  {
    var _, ok := creds.CheckToken(now, false, resp);
    if !ok {
      return Dispatch.Outcome([], true);
    }
    out := Dispatch.DispatchEvents(data, root, Delivered(products, nodeProducts, resolve, posted));
  }
}
